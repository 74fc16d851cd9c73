// rooms-admin.py: after resolving its settings and logging in, delete one
// room (-d), list the rooms (-l, with -t also to a file) or delete every
// abandoned room (-p), then log out.

module RoomsAdmin {
  import opened Wire
  import opened Reaper
  import opened Config

  /** The parsed command line: the action flags, then the optional ones. */
  datatype Args = Args(d: Option<string>, l: bool, p: bool, au: Option<string>, ad: Option<string>, ap: Option<string>,
                       t: bool)

  /** A copy of the room listing written to a file. */
  datatype Dump = Dump(fileName: string, rooms: seq<ListedRoom>)

  /** What list_rooms sends, returns and writes. */
  datatype Listed = Listed(sent: seq<Request>, response: seq<ListedRoom>, dump: Option<Dump>)

  /** What a run of the script sends, how it stops and what file it writes. */
  datatype Outcome = Outcome(run: Run, dump: Option<Dump>)

  /** The action main picks. */
  datatype Action = DeleteOne(room: string) | ListAll | Sweep | Nothing

  /**
   * list_rooms: GET the listing and return it as received; with `txt`, also
   * write it to `<server_name>_rooms.txt`.
   */
  function ListAllRooms(serverName: string, listing: seq<ListedRoom>, txt: bool): (r: Listed)
    ensures r.sent == [ListRooms] && r.response == listing
    ensures r.dump.Some? <==> txt
    ensures r.dump.Some? ==> r.dump.value == Dump(serverName + "_rooms.txt", r.response)
  {
    Listed([ListRooms], listing, if txt then Some(Dump(serverName + "_rooms.txt", listing)) else None)
  }

  /**
   * The dispatch: the first of -d (when not empty), -l and -p that is set,
   * or nothing.
   */
  function Dispatch(args: Args): (a: Action)
    ensures a.DeleteOne? <==> Given(args.d)
    ensures a.DeleteOne? ==> a.room == args.d.value
    ensures a == ListAll <==> !Given(args.d) && args.l
    ensures a == Sweep <==> !Given(args.d) && !args.l && args.p
  {
    if Given(args.d) then DeleteOne(args.d.value)
    else if args.l then ListAll
    else if args.p then Sweep
    else Nothing
  }

  /** The requests an action sends between the login and the logout. */
  function ActionRequests(a: Action, listing: seq<ListedRoom>): seq<Request>
  {
    match a
    case DeleteOne(room) => [DeleteRoom(room)]
    case ListAll => [ListRooms]
    case Sweep => [ListRooms] + Deletes(listing)
    case Nothing => []
  }

  /**
   * The outcome of main. `password` is what the login prompt reads,
   * `session` the login response's access_token, `listing` the room
   * listing the server returns.
   */
  function RoomsAdminRun(args: Args, cfg: ConfigFile, password: string, session: Option<string>,
                         listing: seq<ListedRoom>): Outcome
  {
    match ResolveAll(cfg, Overrides(args.ad, args.au, args.ap))
    case Rejected(setting) => Outcome(Run([], ConfigMissing(setting)), None)
    case Resolved(serverName, admin, _) =>
      var login := [Login(FqUser(admin, serverName), password)];
      if session.None? then Outcome(Run(login, LoginKeyError), None)
      else
        var a := Dispatch(args);
        var dump := if a == ListAll then ListAllRooms(serverName, listing, args.t).dump else None;
        Outcome(Run(login + ActionRequests(a, listing) + [Logout], Completed), dump)
  }

  /**
   * main after argument parsing: resolve the settings, log in as the fully
   * qualified admin, run the first action set, and log out.
   */
  method RoomsAdminMain(args: Args, cfg: ConfigFile, password: string, session: Option<string>,
                        listing: seq<ListedRoom>) returns (o: Outcome)
    ensures o == RoomsAdminRun(args, cfg, password, session, listing)
  {
    var settings := ResolveGlobals(cfg, Overrides(args.ad, args.au, args.ap));
    if settings.Rejected? {
      return Outcome(Run([], ConfigMissing(settings.setting)), None);
    }
    var admin := settings.admin;
    admin := "@" + admin + ":" + settings.serverName;
    var sent := [Login(admin, password)];
    if session.None? {
      return Outcome(Run(sent, LoginKeyError), None);
    }
    var dump := None;
    if args.d.Some? && args.d.value != "" {
      sent := sent + [DeleteRoomRequest(args.d.value)];
    } else if args.l {
      var listed := ListAllRooms(settings.serverName, listing, args.t);
      sent := sent + listed.sent;
      dump := listed.dump;
    } else if args.p {
      var swept := DeleteAbandoned(listing);
      sent := sent + swept;
    }
    sent := sent + [Logout];
    o := Outcome(Run(sent, Completed), dump);
  }

  /**
   * A rejected setting stops the script before any request; otherwise it
   * logs in first, as `@admin:server_name` built from the overridden values,
   * and a login response without a token stops it right there.
   */
  lemma RoomsAdminStops(args: Args, cfg: ConfigFile, password: string, session: Option<string>,
                        listing: seq<ListedRoom>)
    ensures var o := RoomsAdminRun(args, cfg, password, session, listing);
      var r := ResolveAll(cfg, Overrides(args.ad, args.au, args.ap));
      && (o.run.halt.ConfigMissing? <==> r.Rejected?)
      && (r.Rejected? ==> o.run.sent == [] && o.run.halt.setting == r.setting)
      && (r.Resolved? ==> |o.run.sent| > 0 && o.run.sent[0] == Login(FqUser(r.admin, r.serverName), password))
      && (o.run.halt == LoginKeyError <==> r.Resolved? && session.None?)
      && (o.run.halt == LoginKeyError ==> |o.run.sent| == 1)
  {
  }

  /**
   * A run that gets past the login ends with exactly one logout, whatever
   * the action, including none.
   */
  lemma {:induction false} RoomsAdminLogsOutOnce(args: Args, cfg: ConfigFile, password: string, session: Option<string>,
                                                 listing: seq<ListedRoom>)
    ensures var o := RoomsAdminRun(args, cfg, password, session, listing);
      o.run.halt == Completed ==> o.run.sent[|o.run.sent| - 1] == Logout && Count(o.run.sent, Logout) == 1
  {
    var o := RoomsAdminRun(args, cfg, password, session, listing);
    if o.run.halt == Completed {
      var r := ResolveAll(cfg, Overrides(args.ad, args.au, args.ap));
      var login := [Login(FqUser(r.admin, r.serverName), password)];
      var middle := ActionRequests(Dispatch(args), listing);
      assert o.run.sent == login + middle + [Logout];
      DeletesOnlyAbandoned(listing);
      assert Logout !in middle;
      CountPositive(middle, Logout);
      CountPositive(login, Logout);
      CountAppend(login, middle, Logout);
      CountAppend(login + middle, [Logout], Logout);
      assert [Logout][..0] == [];
    }
  }

  /**
   * Rooms are deleted only by -d, which deletes exactly the room named, or
   * by -p, which deletes only listed rooms with zero joined members.
   */
  lemma RoomsAdminDeletes(args: Args, cfg: ConfigFile, password: string, session: Option<string>,
                          listing: seq<ListedRoom>, room: string)
    ensures var o := RoomsAdminRun(args, cfg, password, session, listing);
      DeleteRoom(room) in o.run.sent ==>
        || (Given(args.d) && room == args.d.value)
        || (!Given(args.d) && !args.l && args.p &&
            exists j :: 0 <= j < |listing| && listing[j].roomId == room && Abandoned(listing[j]))
    ensures var o := RoomsAdminRun(args, cfg, password, session, listing);
      o.run.halt == Completed && Given(args.d) ==> Count(o.run.sent, DeleteRoom(args.d.value)) == 1
  {
    DeletesOnlyAbandoned(listing);
    var o := RoomsAdminRun(args, cfg, password, session, listing);
    if o.run.halt == Completed && Given(args.d) {
      var r := ResolveAll(cfg, Overrides(args.ad, args.au, args.ap));
      var login := [Login(FqUser(r.admin, r.serverName), password)];
      var c := DeleteRoom(args.d.value);
      assert o.run.sent == login + [c] + [Logout];
      CountPositive(login, c);
      CountAppend(login, [c], c);
      CountAppend(login + [c], [Logout], c);
      assert [c][..0] == [] && [Logout][..0] == [];
    }
  }

  /**
   * Only -l lists to a file, and only with -t; the file holds the listing
   * exactly as the server returned it.
   */
  lemma RoomsAdminDump(args: Args, cfg: ConfigFile, password: string, session: Option<string>,
                       listing: seq<ListedRoom>)
    ensures var o := RoomsAdminRun(args, cfg, password, session, listing);
      && (o.dump.Some? <==> o.run.halt == Completed && Dispatch(args) == ListAll && args.t)
      && (o.dump.Some? ==> o.dump.value.rooms == listing)
      && (o.dump.Some? ==>
            o.dump.value.fileName == ResolveAll(cfg, Overrides(args.ad, args.au, args.ap)).serverName + "_rooms.txt")
  {
  }

  /**
   * `-d ''` is given but empty, so it is not an action: with no other action
   * the script logs in and straight out again.
   */
  lemma RoomsAdminEmptyRoomId(args: Args, cfg: ConfigFile, password: string, session: Option<string>,
                              listing: seq<ListedRoom>)
    requires args.d == Some("") && !args.l && !args.p
    ensures var o := RoomsAdminRun(args, cfg, password, session, listing);
      o.run.halt == Completed ==> |o.run.sent| == 2 && o.run.sent[1] == Logout
  {
  }
}
