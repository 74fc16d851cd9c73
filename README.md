# Synapse retention and administration scripts, modelled in Dafny

Three Python scripts administer a Synapse (Matrix) homeserver over its HTTP
APIs:

- **redact-and-purge.py** enforces a retention period. It logs in as the
  administrator and lists every room into a nested dictionary `target`. For
  each room it reads the room creator's access token from the homeserver's
  SQLite database. It also collects the message events older than the cutoff
  (`now - rp_hours`). Then it redacts those events with the creator's token,
  purges the rooms' history up to the cutoff, logs out, and finally deletes
  every room that has no joined member.
- **rooms-admin.py** resolves its settings from `config.json` and the
  override flags, logs in, and runs one action. The actions are: delete a
  room (`-d`), list the rooms (`-l`, with `-t` also into a file), or delete
  the abandoned rooms (`-p`). Then it logs out.
- **user-admin.py** resolves its settings the same way, logs in, and runs the
  first action flag of its if/elif chain. The actions create, deactivate,
  reset, reactivate, list, query, promote or demote a user, or log the
  administrator out everywhere. Then it logs out, unless the branch has
  already exited.

## How the scripts are modelled

- **What a run is.** A run of a script is the sequence of requests it sends
  (`Wire.Request`) together with the way it stops (`Wire.Halt`).
  `Wire.Render` turns each request into its HTTP form: verb, URL below
  `public_baseurl`, headers and JSON body.
- **Inputs.** Whatever the scripts read from outside becomes a parameter:
  - the login response's `access_token`, or none;
  - the room listings returned by the server;
  - the database tables;
  - the clock, in milliseconds;
  - the passwords typed at the prompts.
- **redact-and-purge.py.** The model keeps the script's imperative form.
  `Retention.Target` is a class whose fields hold the dictionary's keys in
  insertion order and the record stored under each key. Its methods are
  get_rooms, get_tokens, get_events, redact_rooms and purge_rooms. Each
  method is proved equal to a specification function in `RetentionSpec`, and
  the properties are proved as lemmas about those functions.
  `Retention.RetentionMain` is main, proved equal to `RetentionSpec.RetentionRun`.
- **The two command-line tools** are modelled the same way:
  - `RoomsAdmin.RoomsAdminMain` is proved equal to `RoomsAdmin.RoomsAdminRun`.
  - `UserAdmin.UserAdminMain` and its if/elif chain `UserAdmin.RunChain` are
    proved equal to `UserAdmin.UserAdminRun`.
  - The request builders are pure functions.
- **delete_abandoned and delete_room.** redact-and-purge.py and
  rooms-admin.py each carry an identical copy of these two functions. They
  are modelled once, in `Reaper`.

Points where the code's behaviour is easy to misread:

- **A room without a creator token aborts the run.** get_tokens stores a
  token only when the query finds one, and guards its store with
  keys_exist (redact-and-purge.py:82-84). redact_rooms, however, reads
  `target[room_id]['token']` with no such guard (redact-and-purge.py:112),
  so a room without a token raises `KeyError` and aborts the run. When that happens, the redactions of the earlier rooms
  have been sent, but no purge, no logout and no room deletion
  (`RetentionSpec.RedactStopsAtFirstTokenless`, `RetentionSpec.RunCompletesIff`).
- **The operator precedence of the configuration checks.** The checks are
  written `x == '' or x == placeholder and flag == None`. Python parses this
  as `x == '' or (x == placeholder and flag == None)`. So an empty value
  exits even when the override flag is given (`Config.ResolveRules`).
- **Empty string arguments.** An action flag given with an empty string is
  falsy in the scripts' `if args.x:` conditions, so it counts as no action
  (`RoomsAdmin.RoomsAdminEmptyRoomId`, `UserAdmin.ExclusiveDispatch`). The
  overrides, however, are compared with `!= None`, so an empty `-ad` does
  replace the server name.
- **get_tokens queries every room again.** It runs the query even when the
  room already has a token. It only declines to overwrite that token
  (`RetentionSpec.GetTokensFacts`).
- **The purge condition.** purge_rooms checks for the presence of the `events` key.
  get_events creates that key only when it appends an id, so this is the same
  as checking that at least one event was collected (`RetentionSpec.CollectedRoom`).

## Model

| member | source | states |
|---|---|---|
| Wire.Method | user-admin.py:46-62 | A request is sent with GET exactly when it is one of the reads (room listing, user listings, user and admin queries). It is sent with PUT exactly when it creates a user or updates one (promote, demote, password reset, reactivate). Every other request is a POST. |
| Wire.Headers | redact-and-purge.py:118-123 | The login carries no Authorization header. A redaction carries only the room's own bearer token. Every other request carries the administrator's bearer token and the JSON content type. |
| Wire.Body | user-admin.py:97-167 | Exactly the reads and the two logouts are sent without a JSON body. |
| Wire.Render | rooms-admin.py:48-85 | The URL of every request is `public_baseurl` followed by the request's path. Its verb, headers and body satisfy the three rules above. |
| Wire.RedactionIgnoresSession | redact-and-purge.py:118-123 | A redaction does not depend on the administrator's session, and its body is the reason "Timeout!". |
| Wire.UserUpdatesShareEndpoint | user-admin.py:103-167 | Creation, promotion, demotion, password reset and reactivation all PUT to `/_synapse/admin/v2/users/<user>`. Promotion and demotion differ only in `admin: true` vs `admin: false`. |
| NestedKeys.KeysExist | redact-and-purge.py:175-187 | Equals `KeysExistSpec`. It returns a boolean exactly when the element is a dictionary, the key list is not empty and the walk never subscripts a non-dictionary. It returns True exactly when every key is found. |
| Reaper.DeleteRoomRequest | rooms-admin.py:80-85 | delete_room sends a POST of `{"purge": true}` to `/_synapse/admin/v1/rooms/<room>/delete`. |
| Reaper.DeleteAbandoned | rooms-admin.py:88-98 | delete_abandoned sends one room listing, then the delete requests of `Deletes(listing)`. |
| Reaper.DeletesOnlyAbandoned | redact-and-purge.py:161-171 | Every delete request is for a listed room with zero joined members. |
| Reaper.DeletesOncePerAbandoned | rooms-admin.py:92-97 | In a listing that names each room once, each room with zero joined members is deleted exactly once, and every other room never. |
| Reaper.DeletesFollowListing | redact-and-purge.py:165-170 | Deletes follow the listing's order: the deletes for a prefix of the listing are a prefix of the deletes for the whole listing. |
| Config.FqUserParts | user-admin.py:40-43 | The id is `@`, then the localpart, then `:`, then the server name. Its length is theirs plus two. |
| Config.FqUserInjective | rooms-admin.py:149-150 | For localparts without `:`, equal ids have equal localparts and equal server names. |
| Config.ResolveRules | rooms-admin.py:128-147 | An empty configured value exits, whatever the flag. The placeholder exits exactly when no override is given. Any given override, even an empty one, replaces a non-empty value. Otherwise the configured value is kept. |
| Config.ResolveAll | user-admin.py:204-223 | The settings are resolved exactly when each of server_name, admin and public_baseurl passes its check. |
| Config.ResolveGlobals | rooms-admin.py:119-147 | The sequential checks and overrides of main equal `ResolveAll`. A rejection names one of the three settings. The server name is the `-ad` value whenever one is given. |
| RetentionSpec.InsertKeysKeys | redact-and-purge.py:61-68 | get_rooms keeps the old keys first, in their order. It adds every listed room and keeps each key exactly once. |
| RetentionSpec.InsertKeysFirstListing | redact-and-purge.py:66-67 | The keys are ordered by where each room first appears in the old keys followed by the listing. |
| RetentionSpec.ResetEntriesFacts | redact-and-purge.py:67 | Every listed room's record becomes `{}`. Every other record is unchanged. No record other than the listed ones appears. |
| RetentionSpec.GetTokensFacts | redact-and-purge.py:71-86 | get_tokens adds or removes no room and leaves every event list unchanged. It never overwrites a token. A room the query finds nothing for keeps its record. A room without a token gets the token the query found. |
| RetentionSpec.NoCreatorToken | redact-and-purge.py:81-82 | fetchone finds nothing exactly when the creator holds no access token. |
| RetentionSpec.FirstCreatorToken | redact-and-purge.py:76-81 | Otherwise fetchone yields the token of the first `access_tokens` row whose user is the creator. |
| RetentionSpec.CreatorTokenOfRoom | redact-and-purge.py:76-80 | For a room whose row is unique, the join yields exactly the creator's tokens in table order. |
| RetentionSpec.JoinRowsSound | redact-and-purge.py:76-80 | Every token the join yields belongs to the creator of that very room. |
| RetentionSpec.AppendEventsAll | redact-and-purge.py:99-104 | Appending ids one at a time, creating the list when it is absent, gives the old list (or `[]`) followed by all the ids. Appending no id leaves the record as it was, with no `events` key created. |
| RetentionSpec.MatchesSound | redact-and-purge.py:94-98 | Every id the events query returns belongs to a message or encrypted event of that room older than the cutoff. |
| RetentionSpec.MatchesComplete | redact-and-purge.py:94-98 | Every such event's id is returned. |
| RetentionSpec.MatchedEvent | redact-and-purge.py:94-98 | An id the query returns is a qualifying row's. With unique event ids, no row with that id is at or after the cutoff. |
| RetentionSpec.MatchesExact | redact-and-purge.py:94-98 | With unique event ids, the ids returned are distinct. No event at or after the cutoff is ever returned. |
| RetentionSpec.GetEventsFacts | redact-and-purge.py:89-106 | get_events adds no room and changes no token. A room has an `events` key afterwards exactly when it had one before or the query returned a row. A room without a list gets exactly the query's ids. |
| RetentionSpec.TargetKeysExist | redact-and-purge.py:83-84 | keys_exist(target, room, 'token') and keys_exist(target, room, 'events') return whether the room's record has that key. They never raise. |
| RetentionSpec.RedactStopIsFinal | redact-and-purge.py:111-112 | Once the token lookup has raised, the remaining rooms add nothing. |
| RetentionSpec.RedactCompletesIffTokens | redact-and-purge.py:111-112 | redact_rooms returns normally exactly when every room has a token. |
| RetentionSpec.RedactStopsAtFirstTokenless | redact-and-purge.py:111-113 | The KeyError is raised at the first room without a token, even one without events. It comes after all the redactions of the rooms before that room. |
| RetentionSpec.RedactSound | redact-and-purge.py:109-123 | Every redaction is for a room of `target`, uses that room's own token and names an event of that room's list. |
| RetentionSpec.RoomRedactionsAre | redact-and-purge.py:114-115 | The inner loop redacts exactly the room's list, in order, with the room's token. |
| RetentionSpec.RedactPerRoom | redact-and-purge.py:109-115 | When redact_rooms completes, the events redacted in each room are exactly that room's list, in list order. A room without a list gets none. |
| RetentionSpec.PurgeSound | redact-and-purge.py:126-139 | Every purge is for a room of `target` that has an `events` key, and purges up to the shared cutoff. |
| RetentionSpec.PurgeOncePerRoom | redact-and-purge.py:130-139 | Each room with an `events` key is purged exactly once. Every other room is purged never. |
| RetentionSpec.CutoffIsAge | redact-and-purge.py:208-209 | An event is before the cutoff exactly when it is more than `rp_hours` hours old. |
| RetentionSpec.CollectedEntries | redact-and-purge.py:225-229 | After the three building stages, the keys are the listed rooms. Each record holds the creator's token, if any. It holds the expired events, with the `events` key present exactly when there is at least one. |
| RetentionSpec.CollectedCovers | redact-and-purge.py:213-229 | The keys of the built `target` are distinct and are exactly the listed rooms. |
| RetentionSpec.CollectedRoom | redact-and-purge.py:225-229 | A listed room's record holds the creator's token, and its list is the query's result. |
| RetentionSpec.SessionParts | redact-and-purge.py:237-241 | After the login, redactions come only from redact_rooms and purges only from purge_rooms. Purges, the logout and deletions appear only in a session that did not raise. |
| RetentionSpec.RunRedactsOnlyExpired | redact-and-purge.py:209-237 | For any events table, every redaction of a run uses the creator's token and names a message event of that room from before the cutoff. When event ids are unique, no event at or after the cutoff is redacted. |
| RetentionSpec.RunPurgesAtCutoff | redact-and-purge.py:209-238 | Every purge of a run is up to the cutoff computed from the clock and `rp_hours`, for a room with expired events. |
| RetentionSpec.AllTokensIff | redact-and-purge.py:225-237 | Every key of the built `target` has a token exactly when every listed room's creator holds a token. |
| RetentionSpec.SessionCompletesIff | redact-and-purge.py:225-241 | The part of the run after the login completes exactly when every listed room's creator holds a token. |
| RetentionSpec.RunCompletesIff | redact-and-purge.py:190-241 | A run completes exactly when the login returned a token and every listed room's creator holds one. A run that does not complete sends no purge, no logout and no deletion. |
| Retention.RedactEvent | redact-and-purge.py:118-123 | redact_event sends a POST with the room's own bearer token to `/_matrix/client/api/v1/rooms/<room>/redact/<event>`. |
| Retention.RedactEvents | redact-and-purge.py:114-115 | The inner loop of redact_rooms sends `RoomRedactions` of the room's list. |
| Retention.Target.constructor | redact-and-purge.py:213 | `target = {}`: no keys, no records. |
| Retention.Target.Store | redact-and-purge.py:67 | Assignment to a key: a new key goes last and an existing key keeps its place. The record is replaced. |
| Retention.Target.GetRooms | redact-and-purge.py:61-68 | The keys become `InsertKeys` of the listing and the records become `ResetEntries`. |
| Retention.Target.SetToken | redact-and-purge.py:82-84 | The found token is stored only when keys_exist reports that the record has no `token`. |
| Retention.Target.GetTokens | redact-and-purge.py:71-86 | The records become `WithTokens` of the old records. The keys are unchanged. |
| Retention.Target.AddEvent | redact-and-purge.py:100-104 | Appends one id, first creating `[]` when keys_exist reports no `events`. |
| Retention.Target.AddEvents | redact-and-purge.py:99-104 | Appends the query's ids in order (`AppendEvents`). |
| Retention.Target.GetEvents | redact-and-purge.py:89-106 | The records become `WithEvents` of the old records. The keys are unchanged. |
| Retention.Target.RedactRooms | redact-and-purge.py:109-115 | Returns `RedactTrace` of the table: the redactions sent, and the room whose token lookup raised, if any. |
| Retention.Target.PurgeRooms | redact-and-purge.py:126-139 | Sends `PurgeTrace` of the table. |
| Retention.Collect | redact-and-purge.py:213-229 | A fresh `target` built by the three stages from `{}`, equal to `Collected`. |
| Retention.RetentionMain | redact-and-purge.py:190-241 | main's run equals `RetentionRun`: login, listing, redactions, then (unless a KeyError was raised) purges, logout and the abandoned-room sweep. |
| RoomsAdmin.ListAllRooms | rooms-admin.py:70-77 | list_rooms returns the listing unchanged. It writes it to `<server_name>_rooms.txt` exactly when `txt` is set. |
| RoomsAdmin.Dispatch | rooms-admin.py:156-164 | The action is `-d` when it is given and not empty, else `-l` if set, else `-p` if set, else none. |
| RoomsAdmin.RoomsAdminMain | rooms-admin.py:101-167 | main's outcome equals `RoomsAdminRun`. |
| RoomsAdmin.RoomsAdminStops | rooms-admin.py:128-154 | A rejected setting exits before any request. Otherwise the first request is the login as `@admin:server_name` from the overridden values. A missing access token stops the run after the login. |
| RoomsAdmin.RoomsAdminLogsOutOnce | rooms-admin.py:155-167 | A run past the login ends with the logout and sends exactly one. |
| RoomsAdmin.RoomsAdminDeletes | rooms-admin.py:156-164 | Rooms are deleted only by `-d` (exactly the named room, once) or by `-p` (only listed rooms with zero joined members). |
| RoomsAdmin.RoomsAdminDump | rooms-admin.py:159-162 | A file is written only by `-l` with `-t`. It is named after the resolved server name and holds the listing as received. |
| RoomsAdmin.RoomsAdminEmptyRoomId | rooms-admin.py:156-167 | `-d ''` with no other action logs in and straight out again. |
| UserAdmin.Position | user-admin.py:232-271 | The chain order `Chain` tests every action flag, and each exactly once. |
| UserAdmin.FirstSet | user-admin.py:232-275 | The position found holds a set flag, and no earlier position does. A result equal to the chain's length means none is set. |
| UserAdmin.Chosen | user-admin.py:232-275 | The chosen flag is set, and no flag before it in the chain is. No flag is chosen only when no flag is set. |
| UserAdmin.ChosenInChainOrder | user-admin.py:232-273 | The choice equals the literal if/elif order: `-uc`, `-ud`, `-ur`, `-ux`, `-la`, `-lc`, `-lu`, `-am`, `-aq`, `-at`, `-ax`, each localpart flag counting only when not empty. |
| UserAdmin.DeactivateUser | user-admin.py:111-115 | deactivate_user sends a POST of `{"erase": true}` to `/_synapse/admin/v1/deactivate/<user>`. |
| UserAdmin.FlagRequestLogouts | user-admin.py:265-275 | Only `-at` logs out everywhere. Only "nothing to do" sends the plain logout as its action. |
| UserAdmin.RunChain | user-admin.py:230-275 | The chain sends the request of the first action flag set, for the qualified localpart. It exits exactly for `-at` and for "nothing to do". |
| UserAdmin.UserAdminMain | user-admin.py:170-276 | main's run equals `UserAdminRun`. |
| UserAdmin.UserAdminStops | user-admin.py:204-227 | A rejected setting exits before any request. Otherwise the first request is the login as `@admin:server_name`. A missing access token stops the run after the login. |
| UserAdmin.FlagRequestUser | user-admin.py:232-271 | Exactly the flags that take a localpart produce a request on a user account, and that request names the user given. Such a flag is set only with a non-empty localpart. |
| UserAdmin.UserAdminAtMostOneAction | user-admin.py:230-276 | A run sends at most three requests: login, one action and one logout. |
| UserAdmin.ChosenTarget | user-admin.py:232-271 | The request of the chosen branch, when it acts on a user, names the chosen flag, which takes a localpart and is given non-empty, qualified with the server name. |
| UserAdmin.UserAdminTargets | user-admin.py:232-271 | A request on a user account names the non-empty localpart of the chosen flag, qualified with the resolved server name. |
| UserAdmin.UserAdminLogsOutOnce | user-admin.py:266-276 | A run past the login sends exactly one logout of either kind. It ends with the everywhere-logout exactly for `-at`, and with the plain logout otherwise. |
| UserAdmin.UserAdminNothingToDo | user-admin.py:272-275 | With no action flag set, the run logs in and straight out again. |
| UserAdmin.ExclusiveDispatch | user-admin.py:176-187 | With the action flags mutually exclusive, the chain runs the one flag given. A flag given with an empty localpart counts as nothing to do. |

## Left out

- HTTP responses are not modelled, beyond whether the login returned an
  `access_token`. Status codes, the `purge_id` that purge_rooms prints (its
  `KeyError` is caught after the request was sent, so it changes nothing
  sent), and the JSON printed by the listing functions are not modelled.
  The listings the server returns are parameters.
- The sweep runs after the logout. In redact-and-purge.py, delete_abandoned
  runs after log_out with the same, by then invalidated, token. The model
  records the requests that are sent. It does not capture the server
  refusing them, and it does not capture the `KeyError` such a refusal would
  cause at `data['rooms']`.
- The SQL is modelled by what the queries select, over tables given as
  sequences of rows, in nested-loop order. Three things are not modelled:
  - the quoting of room ids spliced into the SQL text (a room id with a
    quote changes the query);
  - SQLite's freedom to return rows in another order;
  - opening and closing the connection.
- File I/O is not modelled: reading `config.json`, create_config writing
  the template, its `chmod`, and its `exit()`. The configuration values
  are parameters and are always strings; a non-string `server_name` and
  the `str()` conversions are not modelled.
- `rp_hours` is an integer in the model, and the clock is an integer number
  of milliseconds. A fractional `rp_hours` and the float
  `datetime.now().timestamp()` are not modelled.
- The passwords are parameters: the one from `config.json` in
  redact-and-purge.py, and the ones typed at `getpass` prompts in the two
  tools. A `KeyboardInterrupt` at the prompt, which exits, is not modelled.
- Argument parsing is not modelled: argparse itself, `-h`, and its
  rejection of two flags from the mutually exclusive group. The tools'
  arguments are parameters of type `Args`. The mutual exclusion appears
  only as the hypothesis of `UserAdmin.ExclusiveDispatch`.
- `exit()` is modelled as the run's end: `Halt.ConfigMissing`, and
  `Completed` after the `-at` and "nothing to do" branches. Printed
  messages are not modelled.
- redact-and-purge.py carries a second copy of delete_abandoned and
  delete_room that is the same code as in rooms-admin.py, and a list_rooms
  that calls `requests.get` inline where rooms-admin.py goes through its
  `get` helper (rooms-admin.py:41-45) but behaves the same. Each is
  modelled once, by `Reaper` and `RoomsAdmin.ListAllRooms`.
- Wire.Body: its contract states only which requests carry no body. The
  bodies themselves are stated by Wire.RedactionIgnoresSession,
  Wire.UserUpdatesShareEndpoint, Reaper.DeleteRoomRequest and
  UserAdmin.DeactivateUser, and are
  otherwise visible only in the function's definition.
- Some lemmas assume facts about the data, not about the scripts:
  - RetentionSpec.MatchesExact assumes unique event ids in the events
    table, the table's key;
  - RetentionSpec.MatchedEvent and RetentionSpec.RunRedactsOnlyExpired
    state "no redaction at or after the cutoff" only for unique event ids;
    their other clauses hold for any events table;
  - RetentionSpec.CreatorTokenOfRoom assumes that the room's row is unique
    in the rooms table.
