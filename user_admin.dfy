// user-admin.py: after resolving its settings and logging in, run the
// first action flag that is set (create, deactivate, reset, reactivate,
// list, query, promote, log out everywhere, demote) and log out.

module UserAdmin {
  import opened Wire
  import opened Config

  /** The parsed command line: the eleven action flags, then the three overrides. */
  datatype Args = Args(
    uc: Option<string>, ud: Option<string>, ur: Option<string>, ux: Option<string>,
    la: bool, lc: bool,
    lu: Option<string>, am: Option<string>, aq: Option<string>,
    at: bool,
    ax: Option<string>,
    au: Option<string>, ad: Option<string>, ap: Option<string>)

  /** The action flags of the mutually exclusive group, one constructor per flag. */
  datatype Flag = Uc | Ud | Ur | Ux | La | Lc | Lu | Am | Aq | At | Ax

  /** The order in which main's if/elif chain tests the flags. */
  const Chain: seq<Flag> := [Uc, Ud, Ur, Ux, La, Lc, Lu, Am, Aq, At, Ax]

  /** Where a flag stands in the chain: every flag is tested, and exactly once. */
  function Position(f: Flag): (k: nat)
    ensures k < |Chain| && Chain[k] == f
    ensures forall j :: 0 <= j < |Chain| && Chain[j] == f ==> j == k
  {
    match f
    case Uc => 0
    case Ud => 1
    case Ur => 2
    case Ux => 3
    case La => 4
    case Lc => 5
    case Lu => 6
    case Am => 7
    case Aq => 8
    case At => 9
    case Ax => 10
  }

  /** The switches -la, -lc and -at take no argument; every other flag takes a localpart. */
  predicate TakesUser(f: Flag)
  {
    !f.La? && !f.Lc? && !f.At?
  }

  /** The localpart given with a flag that takes one. */
  function Arg(args: Args, f: Flag): Option<string>
  {
    match f
    case Uc => args.uc
    case Ud => args.ud
    case Ur => args.ur
    case Ux => args.ux
    case Lu => args.lu
    case Am => args.am
    case Aq => args.aq
    case Ax => args.ax
    case _ => None
  }

  /** Whether the chain's test `if args.x:` succeeds for the flag. */
  predicate IsSet(args: Args, f: Flag)
  {
    match f
    case La => args.la
    case Lc => args.lc
    case At => args.at
    case _ => Given(Arg(args, f))
  }

  /** Whether the flag appears on the command line at all, empty or not. */
  predicate Present(args: Args, f: Flag)
  {
    match f
    case La => args.la
    case Lc => args.lc
    case At => args.at
    case _ => Arg(args, f).Some?
  }

  /** The first position at or after `from` whose flag is set, or `|Chain|` when there is none. */
  function FirstSet(args: Args, from: nat): (k: nat)
    requires from <= |Chain|
    ensures from <= k <= |Chain|
    ensures k < |Chain| ==> IsSet(args, Chain[k])
    ensures forall j :: from <= j < k ==> !IsSet(args, Chain[j])
    decreases |Chain| - from
  {
    if from == |Chain| then |Chain|
    else if IsSet(args, Chain[from]) then from
    else FirstSet(args, from + 1)
  }

  /** No flag is set when the search from the start of the chain finds none. */
  lemma FirstSetNone(args: Args)
    ensures FirstSet(args, 0) == |Chain| ==> forall f :: !IsSet(args, f)
  {
    if FirstSet(args, 0) == |Chain| {
      forall f
        ensures !IsSet(args, f)
      {
        assert Chain[Position(f)] == f;
      }
    }
  }

  /**
   * The flag main acts on: a set flag that no earlier flag of the chain
   * precedes, or None for "nothing to do" when no flag is set.
   */
  function Chosen(args: Args): (c: Option<Flag>)
    ensures c.Some? ==> IsSet(args, c.value)
    ensures c.Some? ==> forall j :: 0 <= j < Position(c.value) ==> !IsSet(args, Chain[j])
    ensures c.None? ==> forall f :: !IsSet(args, f)
  {
    FirstSetNone(args);
    var k := FirstSet(args, 0);
    if k < |Chain| then Some(Chain[k]) else None
  }

  /** The localpart of the chosen flag, or the empty string for the switches and for none. */
  function Localpart(args: Args, choice: Option<Flag>): string
  {
    if choice.Some? && Arg(args, choice.value).Some? then Arg(args, choice.value).value else ""
  }

  /**
   * The request a branch of the chain sends for `user` (already
   * qualified); with no flag, the logout of "nothing to do".
   */
  function FlagRequest(choice: Option<Flag>, user: string, newPassword: string): Request
  {
    match choice
    case None => Logout
    case Some(f) =>
      match f
      case Uc => CreateUser(user, newPassword)
      case Ud => DeactivateUser(user)
      case Ur => ResetPassword(user, newPassword)
      case Ux => Reactivate(user, newPassword)
      case La => ListAllUsers
      case Lc => ListCurrentUsers
      case Lu => QueryUser(user)
      case Am => MakeAdmin(user)
      case Aq => QueryAdmin(user)
      case At => LogoutAll
      case Ax => MakeRegular(user)
  }

  /** Only -at logs out everywhere, and only "nothing to do" sends a plain logout. */
  lemma FlagRequestLogouts(choice: Option<Flag>, user: string, newPassword: string)
    ensures FlagRequest(choice, user, newPassword) == LogoutAll <==> choice == Some(At)
    ensures FlagRequest(choice, user, newPassword) == Logout <==> choice == None
  {
  }

  /** The branches that end in exit() before main's final log_out. */
  predicate Exits(choice: Option<Flag>)
  {
    choice == Some(At) || choice == None
  }

  /** deactivate_user: POST `{"erase": true}` to the user's deactivation endpoint. */
  function DeactivateUser(user: string): (r: Request)
    ensures forall baseUrl, session :: Render(baseUrl, session, r).verb == POST
    ensures forall baseUrl, session ::
      Render(baseUrl, session, r).url == baseUrl + "/_synapse/admin/v1/deactivate/" + user
    ensures forall baseUrl, session :: Render(baseUrl, session, r).body == Some(Object(map["erase" := Bool(true)]))
  {
    Deactivate(user)
  }

  /**
   * The run of main. `password` is the admin password the login prompt
   * reads, `newPassword` the one the create, reset or reactivate prompt
   * reads, `session` the login response's access_token.
   */
  function UserAdminRun(args: Args, cfg: ConfigFile, password: string, newPassword: string,
                        session: Option<string>): Run
  {
    match ResolveAll(cfg, Overrides(args.ad, args.au, args.ap))
    case Rejected(setting) => Run([], ConfigMissing(setting))
    case Resolved(serverName, admin, _) =>
      var login := [Login(FqUser(admin, serverName), password)];
      if session.None? then Run(login, LoginKeyError)
      else
        var choice := Chosen(args);
        var c := FlagRequest(choice, FqUser(Localpart(args, choice), serverName), newPassword);
        Run(login + [c] + (if Exits(choice) then [] else [Logout]), Completed)
  }

  /** The chain picks position `k` when its flag is set and no earlier one is. */
  lemma ChosenIs(args: Args, k: nat)
    requires k <= |Chain|
    requires k < |Chain| ==> IsSet(args, Chain[k])
    requires forall j :: 0 <= j < k ==> !IsSet(args, Chain[j])
    ensures Chosen(args) == if k < |Chain| then Some(Chain[k]) else None
  {
  }

  /** The last three tests of the chain: -aq, -at, -ax. */
  lemma FirstSetFromAq(args: Args)
    ensures FirstSet(args, 8) ==
      if Given(args.aq) then 8 else if args.at then 9 else if Given(args.ax) then 10 else 11
  {
    assert FirstSet(args, 10) == if Given(args.ax) then 10 else 11;
    assert FirstSet(args, 9) == if args.at then 9 else FirstSet(args, 10);
  }

  /** The four tests before them: -la, -lc, -lu, -am. */
  lemma FirstSetFromLa(args: Args)
    ensures FirstSet(args, 4) ==
      if args.la then 4 else if args.lc then 5 else if Given(args.lu) then 6
      else if Given(args.am) then 7 else FirstSet(args, 8)
  {
    assert FirstSet(args, 7) == if Given(args.am) then 7 else FirstSet(args, 8);
    assert FirstSet(args, 6) == if Given(args.lu) then 6 else FirstSet(args, 7);
    assert FirstSet(args, 5) == if args.lc then 5 else FirstSet(args, 6);
  }

  /** The first four tests of the chain: -uc, -ud, -ur, -ux. */
  lemma FirstSetFromUc(args: Args)
    ensures FirstSet(args, 0) ==
      if Given(args.uc) then 0 else if Given(args.ud) then 1 else if Given(args.ur) then 2
      else if Given(args.ux) then 3 else FirstSet(args, 4)
  {
    assert FirstSet(args, 3) == if Given(args.ux) then 3 else FirstSet(args, 4);
    assert FirstSet(args, 2) == if Given(args.ur) then 2 else FirstSet(args, 3);
    assert FirstSet(args, 1) == if Given(args.ud) then 1 else FirstSet(args, 2);
  }

  /**
   * The chain's choice written as main tests it: the first flag in the
   * order uc, ud, ur, ux, la, lc, lu, am, aq, at, ax whose test succeeds.
   */
  lemma ChosenInChainOrder(args: Args)
    ensures Chosen(args) ==
      if Given(args.uc) then Some(Uc) else if Given(args.ud) then Some(Ud)
      else if Given(args.ur) then Some(Ur) else if Given(args.ux) then Some(Ux)
      else if args.la then Some(La) else if args.lc then Some(Lc)
      else if Given(args.lu) then Some(Lu) else if Given(args.am) then Some(Am)
      else if Given(args.aq) then Some(Aq) else if args.at then Some(At)
      else if Given(args.ax) then Some(Ax) else None
  {
    FirstSetFromUc(args);
    FirstSetFromLa(args);
    FirstSetFromAq(args);
  }

  /**
   * The if/elif chain of main: the request of the first action flag set,
   * and whether that branch ends in exit() (-at, and "nothing to do",
   * which logs out first) rather than falling through to the final log_out.
   */
  method RunChain(args: Args, serverName: string, newPassword: string) returns (sent: seq<Request>, exited: bool)
    ensures sent == [FlagRequest(Chosen(args), FqUser(Localpart(args, Chosen(args)), serverName), newPassword)]
    ensures exited == Exits(Chosen(args))
  {
    ChosenInChainOrder(args);
    var user: string;
    exited := false;
    if Given(args.uc) {
      assert Chosen(args) == Some(Uc);
      user := FqUser(args.uc.value, serverName);
      sent := [CreateUser(user, newPassword)];
    } else if Given(args.ud) {
      assert Chosen(args) == Some(Ud);
      user := FqUser(args.ud.value, serverName);
      sent := [DeactivateUser(user)];
    } else if Given(args.ur) {
      assert Chosen(args) == Some(Ur);
      user := FqUser(args.ur.value, serverName);
      sent := [ResetPassword(user, newPassword)];
    } else if Given(args.ux) {
      assert Chosen(args) == Some(Ux);
      user := FqUser(args.ux.value, serverName);
      sent := [Reactivate(user, newPassword)];
    } else if args.la {
      assert Chosen(args) == Some(La);
      sent := [ListAllUsers];
    } else if args.lc {
      assert Chosen(args) == Some(Lc);
      sent := [ListCurrentUsers];
    } else if Given(args.lu) {
      assert Chosen(args) == Some(Lu);
      user := FqUser(args.lu.value, serverName);
      sent := [QueryUser(user)];
    } else if Given(args.am) {
      assert Chosen(args) == Some(Am);
      user := FqUser(args.am.value, serverName);
      sent := [MakeAdmin(user)];
    } else if Given(args.aq) {
      assert Chosen(args) == Some(Aq);
      user := FqUser(args.aq.value, serverName);
      sent := [QueryAdmin(user)];
    } else if args.at {
      assert Chosen(args) == Some(At);
      sent := [LogoutAll];
      exited := true;
    } else if Given(args.ax) {
      assert Chosen(args) == Some(Ax);
      user := FqUser(args.ax.value, serverName);
      sent := [MakeRegular(user)];
    } else {
      assert Chosen(args) == None;
      sent := [Logout];
      exited := true;
    }
  }

  /**
   * main after argument parsing: resolve the settings, log in as the fully
   * qualified admin, run the chain, and log out unless the chosen branch
   * exited.
   */
  method UserAdminMain(args: Args, cfg: ConfigFile, password: string, newPassword: string,
                       session: Option<string>) returns (run: Run)
    ensures run == UserAdminRun(args, cfg, password, newPassword, session)
  {
    var settings := ResolveGlobals(cfg, Overrides(args.ad, args.au, args.ap));
    if settings.Rejected? {
      return Run([], ConfigMissing(settings.setting));
    }
    var admin := "@" + settings.admin + ":" + settings.serverName;
    var sent := [Login(admin, password)];
    if session.None? {
      return Run(sent, LoginKeyError);
    }
    var action, exited := RunChain(args, settings.serverName, newPassword);
    sent := sent + action;
    if exited {
      return Run(sent, Completed);
    }
    sent := sent + [Logout];
    run := Run(sent, Completed);
  }

  /**
   * A rejected setting stops the script before any request; otherwise it
   * logs in first, as `@admin:server_name` built from the overridden values.
   */
  lemma UserAdminStops(args: Args, cfg: ConfigFile, password: string, newPassword: string, session: Option<string>)
    ensures var run := UserAdminRun(args, cfg, password, newPassword, session);
      var r := ResolveAll(cfg, Overrides(args.ad, args.au, args.ap));
      && (run.halt.ConfigMissing? <==> r.Rejected?)
      && (r.Rejected? ==> run.sent == [] && run.halt.setting == r.setting)
      && (r.Resolved? ==> |run.sent| > 0 && run.sent[0] == Login(FqUser(r.admin, r.serverName), password))
      && (run.halt == LoginKeyError <==> r.Resolved? && session.None?)
      && (run.halt == LoginKeyError ==> |run.sent| == 1)
  {
  }

  /** The run of a session that got past the login, unfolded once for the lemmas below. */
  lemma UserAdminSession(args: Args, cfg: ConfigFile, password: string, newPassword: string, session: Option<string>)
    requires ResolveAll(cfg, Overrides(args.ad, args.au, args.ap)).Resolved? && session.Some?
    ensures var r := ResolveAll(cfg, Overrides(args.ad, args.au, args.ap));
      var choice := Chosen(args);
      UserAdminRun(args, cfg, password, newPassword, session)
        == Run([Login(FqUser(r.admin, r.serverName), password)]
               + [FlagRequest(choice, FqUser(Localpart(args, choice), r.serverName), newPassword)]
               + (if Exits(choice) then [] else [Logout]), Completed)
  {
  }

  /** Requests that act on one user account. */
  predicate OnUser(c: Request)
  {
    c.CreateUser? || c.Deactivate? || c.ResetPassword? || c.Reactivate? || c.QueryUser? || c.MakeAdmin?
    || c.QueryAdmin? || c.MakeRegular?
  }

  /**
   * A branch's request acts on a user exactly for the flags that take a
   * localpart, and names that user; such a flag is set only with a
   * non-empty localpart.
   */
  lemma FlagRequestUser(args: Args, choice: Option<Flag>, user: string, newPassword: string)
    ensures OnUser(FlagRequest(choice, user, newPassword)) <==> choice.Some? && TakesUser(choice.value)
    ensures OnUser(FlagRequest(choice, user, newPassword)) ==> FlagRequest(choice, user, newPassword).user == user
    ensures choice.Some? && TakesUser(choice.value) && IsSet(args, choice.value) ==> Given(Arg(args, choice.value))
  {
  }

  /** After the login the script sends at most one request of its own, and at most one logout. */
  lemma {:induction false} UserAdminAtMostOneAction(args: Args, cfg: ConfigFile, password: string, newPassword: string,
                                                    session: Option<string>)
    ensures |UserAdminRun(args, cfg, password, newPassword, session).sent| <= 3
  {
    if ResolveAll(cfg, Overrides(args.ad, args.au, args.ap)).Resolved? && session.Some? {
      UserAdminSession(args, cfg, password, newPassword, session);
    }
  }

  /**
   * `c` names the user of the chosen flag: a flag that takes a localpart,
   * given non-empty, qualified with `serverName`.
   */
  predicate NamesChosenUser(args: Args, serverName: string, c: Request)
    requires OnUser(c)
  {
    var choice := Chosen(args);
    && choice.Some? && TakesUser(choice.value) && Given(Arg(args, choice.value))
    && c.user == FqUser(Arg(args, choice.value).value, serverName)
  }

  /** The chosen branch's request, when it acts on a user, names the chosen flag's non-empty localpart. */
  lemma ChosenTarget(args: Args, serverName: string, newPassword: string)
    ensures var choice := Chosen(args);
      var c := FlagRequest(choice, FqUser(Localpart(args, choice), serverName), newPassword);
      OnUser(c) ==> NamesChosenUser(args, serverName, c)
  {
    var choice := Chosen(args);
    var user := FqUser(Localpart(args, choice), serverName);
    FlagRequestUser(args, choice, user, newPassword);
    if OnUser(FlagRequest(choice, user, newPassword)) {
      assert IsSet(args, choice.value);
      assert Localpart(args, choice) == Arg(args, choice.value).value;
    }
  }

  /**
   * A request acting on a user names the non-empty localpart of the chosen
   * flag, qualified with the resolved server name.
   */
  lemma {:induction false} UserAdminTargets(args: Args, cfg: ConfigFile, password: string, newPassword: string,
                                            session: Option<string>)
    ensures var run := UserAdminRun(args, cfg, password, newPassword, session);
      var r := ResolveAll(cfg, Overrides(args.ad, args.au, args.ap));
      forall c :: c in run.sent && OnUser(c) ==> NamesChosenUser(args, r.serverName, c)
  {
    var r := ResolveAll(cfg, Overrides(args.ad, args.au, args.ap));
    var sent := UserAdminRun(args, cfg, password, newPassword, session).sent;
    if r.Resolved? && session.Some? {
      var choice := Chosen(args);
      var c := FlagRequest(choice, FqUser(Localpart(args, choice), r.serverName), newPassword);
      var tail := if Exits(choice) then [] else [Logout];
      UserAdminSession(args, cfg, password, newPassword, session);
      assert sent == [Login(FqUser(r.admin, r.serverName), password)] + [c] + tail;
      ChosenTarget(args, r.serverName, newPassword);
      forall x | x in sent && OnUser(x)
        ensures NamesChosenUser(args, r.serverName, x)
      {
        assert x == c;
      }
    }
  }

  /**
   * A run that gets past the login ends with exactly one logout: the
   * everywhere-logout of -at, which exits, or otherwise the plain one,
   * also when there is nothing to do.
   */
  lemma {:induction false} UserAdminLogsOutOnce(args: Args, cfg: ConfigFile, password: string, newPassword: string,
                                                session: Option<string>)
    ensures var run := UserAdminRun(args, cfg, password, newPassword, session);
      run.halt == Completed ==>
        && Count(run.sent, Logout) + Count(run.sent, LogoutAll) == 1
        && (run.sent[|run.sent| - 1] == LogoutAll <==> Chosen(args) == Some(At))
        && (run.sent[|run.sent| - 1] == Logout <==> Chosen(args) != Some(At))
  {
    var run := UserAdminRun(args, cfg, password, newPassword, session);
    if run.halt == Completed {
      var r := ResolveAll(cfg, Overrides(args.ad, args.au, args.ap));
      var choice := Chosen(args);
      var user := FqUser(Localpart(args, choice), r.serverName);
      var c := FlagRequest(choice, user, newPassword);
      var login := [Login(FqUser(r.admin, r.serverName), password)];
      var tail := if Exits(choice) then [] else [Logout];
      UserAdminSession(args, cfg, password, newPassword, session);
      FlagRequestLogouts(choice, user, newPassword);
      CountAppend(login, [c], Logout);
      CountAppend(login + [c], tail, Logout);
      CountAppend(login, [c], LogoutAll);
      CountAppend(login + [c], tail, LogoutAll);
      assert [c][..0] == [] && [Logout][..0] == [] && login[..0] == [];
    }
  }

  /**
   * With nothing to do the script logs in and straight out again, sending
   * no administration request.
   */
  lemma UserAdminNothingToDo(args: Args, cfg: ConfigFile, password: string, newPassword: string,
                             session: Option<string>)
    requires forall f :: !IsSet(args, f)
    ensures var run := UserAdminRun(args, cfg, password, newPassword, session);
      run.halt == Completed ==> |run.sent| == 2 && run.sent[1] == Logout
  {
    ChosenIs(args, |Chain|);
  }

  /** At most one action flag appears, as the mutually exclusive group enforces. */
  predicate Exclusive(args: Args)
  {
    forall f, g :: Present(args, f) && Present(args, g) ==> f == g
  }

  /**
   * With the flags mutually exclusive, the chain runs the one flag given,
   * and a flag given with an empty localpart counts as nothing to do.
   */
  lemma {:induction false} ExclusiveDispatch(args: Args, f: Flag)
    requires Exclusive(args) && Present(args, f)
    ensures IsSet(args, f) ==> Chosen(args) == Some(f)
    ensures !IsSet(args, f) ==> Chosen(args) == None
  {
    var k := Position(f);
    forall j | 0 <= j < |Chain| && j != k
      ensures !IsSet(args, Chain[j])
    {
      var g := Chain[j];
      assert g != f;
      assert !Present(args, g);
    }
    if IsSet(args, f) {
      ChosenIs(args, k);
    } else {
      ChosenIs(args, |Chain|);
    }
  }
}
