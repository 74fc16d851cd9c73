// redact-and-purge.py as it runs: the nested dictionary `target` is built
// up in place by get_rooms, get_tokens and get_events, then read by
// redact_rooms and purge_rooms. Each stage is proved equal to its
// specification function in module RetentionSpec.

module Retention {
  import opened Wire
  import opened NestedKeys
  import opened Reaper
  import opened RetentionSpec
  import Config

  /** redact_event: the redaction of one event, sent with the room's own token. */
  function RedactEvent(roomId: RoomId, roomToken: Token, eventId: EventId): (r: Request)
    ensures forall baseUrl, session :: Render(baseUrl, session, r).verb == POST
    ensures forall baseUrl, session :: Render(baseUrl, session, r).headers == map["Authorization" := "Bearer " + roomToken]
    ensures forall baseUrl, session ::
      Render(baseUrl, session, r).url == baseUrl + "/_matrix/client/api/v1/rooms/" + roomId + "/redact/" + eventId
  {
    Redact(roomId, eventId, roomToken)
  }

  /** redact_rooms' inner loop: redact_event for each event of one room, in list order. */
  method RedactEvents(roomId: RoomId, roomToken: Token, events: seq<EventId>) returns (sent: seq<Request>)
    ensures sent == RoomRedactions(roomId, roomToken, events)
  {
    sent := [];
    var m := 0;
    while m < |events|
      invariant 0 <= m <= |events|
      invariant sent == RoomRedactions(roomId, roomToken, events[..m])
    {
      assert events[..m + 1][..m] == events[..m];
      sent := sent + [RedactEvent(roomId, roomToken, events[m])];
      m := m + 1;
    }
    assert events[..m] == events;
  }

  /**
   * The dictionary `target`: its keys in insertion order and the record
   * stored under each.
   */
  class Target {
    var order: seq<RoomId>
    var rooms: map<RoomId, Entry>

    /** Each key appears once in the order, and the order lists exactly the keys. */
    ghost predicate Valid()
      reads this
    {
      Distinct(order) && forall x :: x in rooms <==> x in order
    }

    /** target = {} */
    constructor ()
      ensures Valid()
      ensures order == [] && rooms == map[]
    {
      order := [];
      rooms := map[];
    }

    /** target[id] = e: a new key goes last, an existing key keeps its place. */
    method Store(id: RoomId, e: Entry)
      requires Valid()
      modifies this
      ensures Valid()
      ensures order == if id in old(order) then old(order) else old(order) + [id]
      ensures rooms == old(rooms)[id := e]
    {
      if id !in rooms {
        order := order + [id];
      }
      rooms := rooms[id := e];
    }

    /** get_rooms: store `{}` under every room of the admin API's listing. */
    method GetRooms(listing: seq<ListedRoom>)
      requires Valid()
      modifies this
      ensures Valid()
      ensures order == InsertKeys(old(order), RoomIds(listing))
      ensures rooms == ResetEntries(old(rooms), RoomIds(listing))
    {
      var ids := RoomIds(listing);
      var i := 0;
      while i < |listing|
        invariant 0 <= i <= |listing|
        invariant Valid()
        invariant order == InsertKeys(old(order), ids[..i])
        invariant rooms == ResetEntries(old(rooms), ids[..i])
      {
        assert ids[..i + 1][..i] == ids[..i];
        Store(listing[i].roomId, Blank);
        i := i + 1;
      }
      assert ids[..i] == ids;
    }

    /** Store a token found for `roomId` when keys_exist says its record has none. */
    method SetToken(roomId: RoomId, token: Token)
      requires Valid() && roomId in rooms
      modifies this
      ensures Valid() && order == old(order)
      ensures rooms == old(rooms)[roomId := SetTokenOnce(old(rooms)[roomId], Some(token))]
    {
      TargetKeysExist(rooms, roomId);
      var present := KeysExist(RenderTarget(rooms), [roomId, "token"]);
      if present == Returned(false) {
        rooms := rooms[roomId := rooms[roomId].(token := Some(token))];
      }
    }

    /**
     * get_tokens: for each key, run the creator-token query and, when it
     * returns a row and keys_exist says the record has no 'token', store it.
     */
    method GetTokens(db: Db)
      requires Valid()
      modifies this
      ensures Valid() && order == old(order)
      ensures rooms == WithTokens(old(rooms), db)
    {
      var i := 0;
      while i < |order|
        invariant 0 <= i <= |order|
        invariant Valid() && order == old(order)
        invariant rooms.Keys == old(rooms).Keys
        invariant forall id :: id in rooms ==>
          rooms[id] == if id in order[..i] then SetTokenOnce(old(rooms)[id], CreatorToken(db, id)) else old(rooms)[id]
      {
        assert order[..i + 1] == order[..i] + [order[i]];
        var roomId := order[i];
        var rToken := CreatorToken(db, roomId);
        if rToken.Some? {
          SetToken(roomId, rToken.value);
        }
        i := i + 1;
      }
      assert order[..i] == order;
    }

    /**
     * Append one event id to the record's 'events' list, first creating an
     * empty list when keys_exist says the key is absent.
     */
    method AddEvent(roomId: RoomId, eventId: EventId)
      requires Valid() && roomId in rooms
      modifies this
      ensures Valid() && order == old(order)
      ensures rooms == old(rooms)[roomId := AppendEvent(old(rooms)[roomId], eventId)]
    {
      TargetKeysExist(rooms, roomId);
      var present := KeysExist(RenderTarget(rooms), [roomId, "events"]);
      if present == Returned(true) {
        rooms := rooms[roomId := rooms[roomId].(events := Some(rooms[roomId].events.value + [eventId]))];
      } else {
        rooms := rooms[roomId := rooms[roomId].(events := Some([]))];
        rooms := rooms[roomId := rooms[roomId].(events := Some(rooms[roomId].events.value + [eventId]))];
      }
    }

    /** get_events' inner loop for one room: append each id in turn. */
    method AddEvents(roomId: RoomId, eventIds: seq<EventId>)
      requires Valid() && roomId in rooms
      modifies this
      ensures Valid() && order == old(order)
      ensures rooms == old(rooms)[roomId := AppendEvents(old(rooms)[roomId], eventIds)]
    {
      var m := 0;
      while m < |eventIds|
        invariant 0 <= m <= |eventIds|
        invariant Valid() && order == old(order)
        invariant rooms == old(rooms)[roomId := AppendEvents(old(rooms)[roomId], eventIds[..m])]
      {
        assert eventIds[..m + 1][..m] == eventIds[..m];
        AddEvent(roomId, eventIds[m]);
        m := m + 1;
      }
      assert eventIds[..m] == eventIds;
    }

    /** get_events: for each key, run the expired-events query and store its ids. */
    method GetEvents(db: Db, until: int)
      requires Valid()
      modifies this
      ensures Valid() && order == old(order)
      ensures rooms == WithEvents(old(rooms), db, until)
    {
      var i := 0;
      while i < |order|
        invariant 0 <= i <= |order|
        invariant Valid() && order == old(order)
        invariant rooms.Keys == old(rooms).Keys
        invariant forall id :: id in rooms ==>
          rooms[id] == if id in order[..i] then AppendEvents(old(rooms)[id], Matches(db.events, id, until)) else old(rooms)[id]
      {
        assert order[..i + 1] == order[..i] + [order[i]];
        var roomId := order[i];
        AddEvents(roomId, Matches(db.events, roomId, until));
        i := i + 1;
      }
      assert order[..i] == order;
    }

    /**
     * redact_rooms: for each key, read the record's 'token' (a KeyError
     * when it has none, which ends the run) and redact every event of its
     * list when keys_exist finds one.
     */
    method RedactRooms() returns (r: Redaction)
      requires Valid()
      ensures Covers(order, rooms) && r == RedactTrace(order, rooms)
    {
      var sent := [];
      var i := 0;
      while i < |order|
        invariant 0 <= i <= |order|
        invariant Covers(order[..i], rooms)
        invariant Redaction(sent, None) == RedactTrace(order[..i], rooms)
      {
        var roomId := order[i];
        assert order[..i + 1][..i] == order[..i];
        assert order[..i + 1][i] == roomId;
        if rooms[roomId].token.None? {
          RedactStopIsFinal(order, rooms, i + 1);
          return Redaction(sent, Some(roomId));
        }
        var roomToken := rooms[roomId].token.value;
        TargetKeysExist(rooms, roomId);
        var present := KeysExist(RenderTarget(rooms), [roomId, "events"]);
        if present == Returned(true) {
          var redactions := RedactEvents(roomId, roomToken, rooms[roomId].events.value);
          sent := sent + redactions;
        }
        i := i + 1;
      }
      assert order[..i] == order;
      r := Redaction(sent, None);
    }

    /** purge_rooms: one purge up to `until` for every record with an 'events' key. */
    method PurgeRooms(until: int) returns (sent: seq<Request>)
      requires Valid()
      ensures Covers(order, rooms) && sent == PurgeTrace(order, rooms, until)
    {
      sent := [];
      var i := 0;
      while i < |order|
        invariant 0 <= i <= |order|
        invariant Covers(order[..i], rooms)
        invariant sent == PurgeTrace(order[..i], rooms, until)
      {
        var roomId := order[i];
        assert order[..i + 1][..i] == order[..i];
        assert order[..i + 1][i] == roomId;
        if rooms[roomId].events.Some? {
          sent := sent + [PurgeHistory(roomId, until)];
        }
        i := i + 1;
      }
      assert order[..i] == order;
    }
  }

  /** The first half of main: build `target` from `{}` with the three stages. */
  method Collect(listing: seq<ListedRoom>, db: Db, until: int) returns (target: Target)
    ensures fresh(target) && target.Valid()
    ensures target.order == InsertKeys([], RoomIds(listing))
    ensures target.rooms == Collected(RoomIds(listing), db, until)
  {
    target := new Target();
    target.GetRooms(listing);
    target.GetTokens(db);
    target.GetEvents(db, until);
  }

  /**
   * main: log in, build `target`, redact, purge, log out and delete the
   * abandoned rooms. `session` is the login response's access_token (None
   * when the response has none), `listing` the room listing get_rooms
   * reads, `sweep` the one delete_abandoned reads, and `nowMs` the clock.
   */
  method RetentionMain(cfg: Settings, nowMs: int, session: Option<Token>, listing: seq<ListedRoom>, db: Db,
                       sweep: seq<ListedRoom>) returns (run: Run)
    ensures run == RetentionRun(cfg, nowMs, session, listing, db, sweep)
  {
    var admin := Config.FqUser(cfg.admin, cfg.serverName);
    var until := nowMs - cfg.rpHours * 3600000;
    assert until == Cutoff(nowMs, cfg.rpHours);
    var login := [Login(admin, cfg.password)];
    if session.None? {
      return Run(login, LoginKeyError);
    }
    var sent := [ListRooms];
    var target := Collect(listing, db, until);
    CollectedCovers(RoomIds(listing), db, until);
    RetentionRunSplit(cfg, nowMs, session, listing, db, sweep);
    ghost var s := Session(target.order, target.rooms, until, sweep);
    var redaction := target.RedactRooms();
    sent := sent + redaction.sent;
    if redaction.stoppedAt.Some? {
      assert s == Run(sent, RoomTokenKeyError(redaction.stoppedAt.value));
      return Run(login + sent, RoomTokenKeyError(redaction.stoppedAt.value));
    }
    var purges := target.PurgeRooms(until);
    sent := sent + purges + [Logout];
    var deletes := DeleteAbandoned(sweep);
    assert s.sent == sent + deletes;
    run := Run(login + (sent + deletes), Completed);
  }
}
