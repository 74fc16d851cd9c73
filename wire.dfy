// The values the three Synapse administration scripts exchange with the
// server: JSON documents, the requests they send and the HTTP form of each
// request. A run of a script is modelled by the sequence of requests it
// sends (its trace) and the way it stops.

module Wire {

  datatype Option<+T> = None | Some(value: T)

  /** A JSON value as the scripts build request bodies and read responses. */
  datatype Json =
    | Null
    | Bool(b: bool)
    | Int(i: int)
    | Str(s: string)
    | Array(items: seq<Json>)
    | Object(fields: map<string, Json>)

  datatype Verb = GET | POST | PUT

  /** One HTTP request on the wire: method, full URL, headers and JSON body. */
  datatype Http = Http(verb: Verb, url: string, headers: map<string, string>, body: Option<Json>)

  /** Every request the scripts send, by what it asks of the server. */
  datatype Request =
    | Login(user: string, password: string)
    | Logout
    | LogoutAll
    | ListRooms
    | Redact(room: string, event: string, token: string)
    | PurgeHistory(room: string, upTo: int)
    | DeleteRoom(room: string)
    | CreateUser(user: string, password: string)
    | Deactivate(user: string)
    | ListAllUsers
    | ListCurrentUsers
    | QueryUser(user: string)
    | MakeAdmin(user: string)
    | QueryAdmin(user: string)
    | ResetPassword(user: string, password: string)
    | Reactivate(user: string, password: string)
    | MakeRegular(user: string)

  /** Why a run stopped. */
  datatype Halt =
    | Completed
    | ConfigMissing(setting: string)   // an exit() after a rejected configuration value
    | LoginKeyError                    // the login response has no 'access_token'
    | RoomTokenKeyError(room: string)  // target[room]['token'] looked up for a room without one

  /** What a run did: the requests it sent, in order, and how it stopped. */
  datatype Run = Run(sent: seq<Request>, halt: Halt)

  /** How many times `sent` contains the request `r`. */
  function Count(sent: seq<Request>, r: Request): nat
  {
    if sent == [] then 0
    else Count(sent[..|sent| - 1], r) + (if sent[|sent| - 1] == r then 1 else 0)
  }

  lemma {:induction false} CountAppend(a: seq<Request>, b: seq<Request>, r: Request)
    ensures Count(a + b, r) == Count(a, r) + Count(b, r)
    decreases |b|
  {
    if b == [] {
      assert a + b == a;
    } else {
      assert (a + b)[..|a + b| - 1] == a + b[..|b| - 1];
      CountAppend(a, b[..|b| - 1], r);
    }
  }

  /** A request occurs in a sequence exactly when it is counted there. */
  lemma {:induction false} CountPositive(sent: seq<Request>, r: Request)
    ensures Count(sent, r) > 0 <==> r in sent
  {
    if sent != [] {
      var init := sent[..|sent| - 1];
      CountPositive(init, r);
      assert sent == init + [sent[|sent| - 1]];
    }
  }

  /** The headers every administrator request carries. */
  function AdminHeaders(session: string): map<string, string>
  {
    map["Authorization" := "Bearer " + session, "Content-Type" := "application/json"]
  }

  /** Requests that address the administrator's own session or an admin API. */
  predicate UsesSession(r: Request)
  {
    !r.Login? && !r.Redact?
  }

  predicate IsRead(r: Request)
  {
    r.ListRooms? || r.ListAllUsers? || r.ListCurrentUsers? || r.QueryUser? || r.QueryAdmin?
  }

  /** The path of each request, below the public base URL. */
  function Path(r: Request): string
  {
    match r
    case Login(_, _) => "/_matrix/client/r0/login"
    case Logout => "/_matrix/client/r0/logout"
    case LogoutAll => "/_matrix/client/r0/logout/all"
    case ListRooms => "/_synapse/admin/v1/rooms"
    case Redact(room, event, _) => "/_matrix/client/api/v1/rooms/" + room + "/redact/" + event
    case PurgeHistory(room, _) => "/_synapse/admin/v1/purge_history/" + room
    case DeleteRoom(room) => "/_synapse/admin/v1/rooms/" + room + "/delete"
    case CreateUser(user, _) => "/_synapse/admin/v2/users/" + user
    case Deactivate(user) => "/_synapse/admin/v1/deactivate/" + user
    case ListAllUsers => "/_synapse/admin/v2/users?deactivated=true&guests=true"
    case ListCurrentUsers => "/_synapse/admin/v2/users"
    case QueryUser(user) => "/_synapse/admin/v2/users/" + user
    case MakeAdmin(user) => "/_synapse/admin/v2/users/" + user
    case QueryAdmin(user) => "/_synapse/admin/v1/users/" + user + "/admin"
    case ResetPassword(user, _) => "/_synapse/admin/v2/users/" + user
    case Reactivate(user, _) => "/_synapse/admin/v2/users/" + user
    case MakeRegular(user) => "/_synapse/admin/v2/users/" + user
  }

  /** The HTTP method: the reads are GETs, the account updates PUTs, the rest POSTs. */
  function Method(r: Request): (v: Verb)
    ensures v == GET <==> IsRead(r)
    ensures v == PUT <==> r.CreateUser? || r.MakeAdmin? || r.ResetPassword? || r.Reactivate? || r.MakeRegular?
  {
    if IsRead(r) then GET
    else if r.CreateUser? || r.MakeAdmin? || r.ResetPassword? || r.Reactivate? || r.MakeRegular? then PUT
    else POST
  }

  /**
   * The headers: none for the login, the room's own token for a
   * redaction, the administrator's session for everything else.
   */
  function Headers(session: string, r: Request): (h: map<string, string>)
    ensures r.Login? <==> "Authorization" !in h
    ensures r.Redact? ==> h == map["Authorization" := "Bearer " + r.token]
    ensures UsesSession(r) ==> h == AdminHeaders(session)
  {
    if r.Login? then map[]
    else if r.Redact? then map["Authorization" := "Bearer " + r.token]
    else AdminHeaders(session)
  }

  /** The JSON body; the reads and the two logouts send none. */
  function Body(r: Request): (b: Option<Json>)
    ensures b.None? <==> IsRead(r) || r.Logout? || r.LogoutAll?
  {
    match r
    case Login(user, password) =>
      Some(Object(map["type" := Str("m.login.password"), "user" := Str(user), "password" := Str(password)]))
    case Redact(_, _, _) => Some(Object(map["reason" := Str("Timeout!")]))
    case PurgeHistory(_, upTo) => Some(Object(map["delete_local_events" := Bool(true), "purge_up_to_ts" := Int(upTo)]))
    case DeleteRoom(_) => Some(Object(map["purge" := Bool(true)]))
    case CreateUser(_, password) => Some(Object(map["password" := Str(password)]))
    case Deactivate(_) => Some(Object(map["erase" := Bool(true)]))
    case MakeAdmin(_) => Some(Object(map["admin" := Bool(true)]))
    case ResetPassword(_, password) => Some(Object(map["password" := Str(password), "logout_devices" := Bool(true)]))
    case Reactivate(_, password) => Some(Object(map["password" := Str(password), "deactivated" := Bool(false)]))
    case MakeRegular(_) => Some(Object(map["admin" := Bool(false)]))
    case _ => None
  }

  /**
   * The HTTP request each script function sends; `session` is the
   * administrator's access token returned by the login.
   */
  function Render(baseUrl: string, session: string, r: Request): (h: Http)
    ensures h.url == baseUrl + Path(r)
    ensures h.verb == GET <==> IsRead(r)
    ensures r.Login? <==> "Authorization" !in h.headers
    ensures r.Redact? ==> h.headers == map["Authorization" := "Bearer " + r.token]
    ensures UsesSession(r) ==> h.headers == AdminHeaders(session)
    ensures h.body.None? <==> IsRead(r) || r.Logout? || r.LogoutAll?
  {
    Http(Method(r), baseUrl + Path(r), Headers(session, r), Body(r))
  }

  /**
   * A redaction is authenticated with the room's own token: what is sent
   * does not depend on the administrator's session at all.
   */
  lemma RedactionIgnoresSession(baseUrl: string, s1: string, s2: string, room: string, event: string, token: string)
    ensures Render(baseUrl, s1, Redact(room, event, token)) == Render(baseUrl, s2, Redact(room, event, token))
    ensures Render(baseUrl, s1, Redact(room, event, token)).body == Some(Object(map["reason" := Str("Timeout!")]))
  {
  }

  /**
   * The account updates and the account creation all PUT to the same
   * per-user endpoint; only their bodies tell them apart.
   */
  lemma UserUpdatesShareEndpoint(user: string, password: string)
    ensures var endpoint := "/_synapse/admin/v2/users/" + user;
      && Path(CreateUser(user, password)) == endpoint && Path(MakeAdmin(user)) == endpoint
      && Path(MakeRegular(user)) == endpoint && Path(ResetPassword(user, password)) == endpoint
      && Path(Reactivate(user, password)) == endpoint
    ensures Method(CreateUser(user, password)) == PUT && Method(MakeAdmin(user)) == PUT
      && Method(MakeRegular(user)) == PUT && Method(ResetPassword(user, password)) == PUT
      && Method(Reactivate(user, password)) == PUT
    ensures Body(MakeAdmin(user)) == Some(Object(map["admin" := Bool(true)]))
    ensures Body(MakeRegular(user)) == Some(Object(map["admin" := Bool(false)]))
  {
  }
}
