// What the two command-line tools, rooms-admin.py and user-admin.py, share:
// the fully qualified user id and the rule by which a config.json value and
// an optional override flag decide a setting.

module Config {
  import opened Wire

  /** fq_user: a fully qualified user id `@localpart:server`. */
  function FqUser(user: string, serverName: string): string
  {
    "@" + user + ":" + serverName
  }

  /** The id is '@', the localpart, ':' and the server name, in that order. */
  lemma FqUserParts(user: string, serverName: string)
    ensures var id := FqUser(user, serverName);
      && |id| == |user| + |serverName| + 2
      && id[0] == '@' && id[1..|user| + 1] == user && id[|user| + 1] == ':' && id[|user| + 2..] == serverName
  {
    var id := FqUser(user, serverName);
    assert id[1..|user| + 1] == user;
    assert id[|user| + 2..] == serverName;
  }

  /**
   * A localpart holds no ':', so the id names its user and server
   * unambiguously: distinct localparts give distinct ids.
   */
  lemma FqUserInjective(u1: string, s1: string, u2: string, s2: string)
    requires ':' !in u1 && ':' !in u2
    requires FqUser(u1, s1) == FqUser(u2, s2)
    ensures u1 == u2 && s1 == s2
  {
    FqUserParts(u1, s1);
    FqUserParts(u2, s2);
    var id := FqUser(u1, s1);
    var m := if |u1| <= |u2| then |u1| else |u2|;
    assert id[m + 1] == ':';
    assert forall j :: 0 <= j < |u1| ==> id[j + 1] == u1[j];
    assert forall j :: 0 <= j < |u2| ==> id[j + 1] == u2[j];
  }

  /**
   * One setting of main: `configured` from config.json, `placeholder` the
   * value create_config writes, `flag` the override. The guard is written
   * `configured == '' or configured == placeholder and flag == None`, which
   * Python reads as `'' or (placeholder and no flag)`. None means exit().
   */
  function Resolve(configured: string, placeholder: string, flag: Option<string>): Option<string>
  {
    if configured == "" || (configured == placeholder && flag.None?) then None
    else if flag.Some? then flag
    else Some(configured)
  }

  /**
   * The resolution rule case by case: an empty value exits even when the
   * flag is given; the placeholder exits only without the flag; otherwise a
   * given flag, even an empty one, replaces the value.
   */
  lemma ResolveRules(configured: string, placeholder: string, flag: Option<string>)
    requires placeholder != ""
    ensures configured == "" ==> Resolve(configured, placeholder, flag) == None
    ensures configured == placeholder ==> (Resolve(configured, placeholder, flag) == None <==> flag.None?)
    ensures configured != "" && flag.Some? ==> Resolve(configured, placeholder, flag) == flag
    ensures configured != "" && configured != placeholder && flag.None? ==>
      Resolve(configured, placeholder, flag) == Some(configured)
  {
  }

  /**
   * The truth value `if args.x:` gives an optional string argument: it
   * was given and is not empty.
   */
  predicate Given(flag: Option<string>)
  {
    flag.Some? && flag.value != ""
  }

  /** The three settings of config.json that the tools check. */
  datatype ConfigFile = ConfigFile(serverName: string, publicBaseurl: string, admin: string)

  /** The override flags -ad, -au and -ap. */
  datatype Overrides = Overrides(ad: Option<string>, au: Option<string>, ap: Option<string>)

  /** The globals after main's checks, or the setting whose check called exit(). */
  datatype Resolution =
    | Resolved(serverName: string, admin: string, publicBaseurl: string)
    | Rejected(setting: string)

  /** The checks in main's order: server_name, then admin, then public_baseurl. */
  function ResolveAll(cfg: ConfigFile, flags: Overrides): (r: Resolution)
    ensures r.Resolved? <==>
      && Resolve(cfg.serverName, "example.com", flags.ad).Some?
      && Resolve(cfg.admin, "youradmin", flags.au).Some?
      && Resolve(cfg.publicBaseurl, "https://matrix.example.com", flags.ap).Some?
  {
    var server := Resolve(cfg.serverName, "example.com", flags.ad);
    var admin := Resolve(cfg.admin, "youradmin", flags.au);
    var baseUrl := Resolve(cfg.publicBaseurl, "https://matrix.example.com", flags.ap);
    if server.None? then Rejected("server_name")
    else if admin.None? then Rejected("admin")
    else if baseUrl.None? then Rejected("public_baseurl")
    else Resolved(server.value, admin.value, baseUrl.value)
  }

  /**
   * The part of main that reads config.json into the globals server_name,
   * public_baseurl and admin and then checks and overrides them one by one.
   */
  method ResolveGlobals(cfg: ConfigFile, flags: Overrides) returns (r: Resolution)
    ensures r == ResolveAll(cfg, flags)
    ensures r.Rejected? ==> r.setting in {"server_name", "admin", "public_baseurl"}
    ensures r.Resolved? && flags.ad.Some? ==> r.serverName == flags.ad.value
    ensures r.Resolved? && flags.ad.None? ==> r.serverName == cfg.serverName
  {
    var serverName := cfg.serverName;
    var publicBaseurl := cfg.publicBaseurl;
    var admin := cfg.admin;

    // Python's `and` binds tighter than `or`; the grouping below is the one it applies.
    if serverName == "" || (serverName == "example.com" && flags.ad.None?) {
      return Rejected("server_name");
    }
    if flags.ad.Some? {
      serverName := flags.ad.value;
    }

    if admin == "" || (admin == "youradmin" && flags.au.None?) {
      return Rejected("admin");
    }
    if flags.au.Some? {
      admin := flags.au.value;
    }

    if publicBaseurl == "" || (publicBaseurl == "https://matrix.example.com" && flags.ap.None?) {
      return Rejected("public_baseurl");
    }
    if flags.ap.Some? {
      publicBaseurl := flags.ap.value;
    }

    r := Resolved(serverName, admin, publicBaseurl);
  }
}
