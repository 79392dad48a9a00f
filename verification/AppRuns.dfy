/** What holds in every state that requests and restarts can reach. */
module AppRuns {
  import opened CStrings
  import opened Json
  import J = Json
  import opened JsonUtil
  import opened ConfigKeys
  import opened Config
  import opened ProfileLookup
  import opened AppModel

  // ---------- restarting rebuilds the configuration ----------

  /** Memory holds what a start would read: the file with the stored settings laid over it. */
  ghost predicate Synced(s: State, base: Settings) {
    && Complete(base)
    && s.cfg == Overlay(base, s.settings)
    && ActiveProfile in s.settings
    && (s.settings[ActiveProfile] == "" ==> ActiveId(base) == "")
  }

  /** A field and its row in the table, updated together. */
  lemma Together(base: Settings, c: Settings, table: map<Setting, string>, f: Setting, v: Value)
    requires Complete(base) && c == Overlay(base, table) && IsStored(f) && f != ActiveProfile && FitsSetting(f, v)
    ensures c[f := v] == Overlay(base, table[f := ValueText(v)])
  {
    hide FitsSetting, Stored, ValueText, OverlayPlace;
    StoredText(f, v);
  }

  lemma SaveSynced(s: State, base: Settings, body: string)
    requires Synced(s, base)
    ensures Synced(AfterSaveSettings(s, body), base)
  {
    assert !IsSaved(ActiveProfile);
    hide FitsSetting, Stored, ValueText, Requested, SavePlace, OverlayPlace;
    OverlayComplete(base, s.settings);
    var c := SavedConfig(s.cfg, body);
    SavedComplete(s.cfg, body);
    var table := SavedTable(s.settings, c);
    forall f: Setting ensures c[f] == Overlaid(base[f], f, table) {
      StoredText(f, c[f]);
      if IsSaved(f) {
        SavedIsStored(f);
      }
    }
    assert c == Overlay(base, table);
  }

  lemma ScheduleStored()
    ensures IsStored(ScheduledRebootEnabled) && IsStored(ScheduledRebootHour) && IsStored(ScheduledRebootMinute)
  {}

  lemma RebootSynced(s: State, base: Settings, body: string)
    requires Synced(s, base)
    ensures Synced(AfterScheduledReboot(s, body), base)
  {
    ScheduleStored();
    hide Overlay, IntegerValue, OverlayPlace, IsStored, Dec;
    var enabled := if IntegerValue(body, "enabled", 0) != 0 then 1 else 0;
    var hour, minute := IntegerValue(body, "hour", 3), IntegerValue(body, "minute", 30);
    if 0 <= hour <= 23 && 0 <= minute <= 59 {
      var table1 := s.settings[ScheduledRebootEnabled := Dec(enabled)];
      var table2 := table1[ScheduledRebootHour := Dec(hour)];
      Together(base, s.cfg, s.settings, ScheduledRebootEnabled, Number(enabled));
      Together(base, Overlay(base, table1), table1, ScheduledRebootHour, Number(hour));
      Together(base, Overlay(base, table2), table2, ScheduledRebootMinute, Number(minute));
    }
  }

  lemma PasswordSynced(s: State, base: Settings, body: string)
    requires Synced(s, base)
    ensures Synced(AfterPassword(s, body), base)
  {
    hide Overlay, StringValue, Stored;
    match (StringValue(body, "username"), StringValue(body, "password"))
    case (Some(user), Some(pass)) =>
      var u, p := Stored(AuthUser, user), Stored(AuthPass, pass);
      StoredFits(AuthUser, user);
      StoredFits(AuthPass, pass);
      Together(base, s.cfg, s.settings, AuthUser, u);
      var table := s.settings[AuthUser := ValueText(u)];
      Together(base, Overlay(base, table), table, AuthPass, p);
    case _ =>
  }

  lemma ActivateSynced(s: State, base: Settings, body: string)
    requires Synced(s, base)
    ensures Synced(AfterActivate(s, body), base)
  {
    hide StringValue, Stored;
    match RequestedId(body)
    case None =>
    case Some(id) =>
      var t := AfterActivate(s, body);
      if id in s.profiles {
        assert t.cfg == Overlay(base, t.settings);
      }
  }

  lemma BootSynced(s: State, files: Files, discovered: Option<string>)
    ensures Synced(Booted(s, files, discovered), BaseConfig(files))
  {
    hide FitsSetting, Stored, Imported, ProfileFile, Loaded;
    var base := BaseConfig(files);
    BaseComplete(files);
    var settings := if ActiveProfile in s.settings && s.settings[ActiveProfile] != "" then s.settings
                    else s.settings[ActiveProfile := ActiveId(base)];
    var c := Overlay(base, settings);
    if Moves(c, discovered) {
      var path := Take(discovered.value, 127);
      PathFits(path);
      Together(base, c, settings, OfonoModemPath, Text(path));
    }
  }

  lemma PathFits(path: string)
    requires |path| <= 127
    ensures FitsSetting(OfonoModemPath, Text(path))
  {}

  lemma StepSynced(s: State, base: Settings, r: Request)
    requires Synced(s, base) && (r.Restart? ==> BaseConfig(r.files) == base)
    ensures Synced(Next(s, r), base)
  {
    hide Synced, AfterSaveSettings, AfterScheduledReboot, AfterPassword, AfterActivate, AfterDelete, AfterSaveProfile,
      AfterBands, Booted, BaseConfig, Overlay;
    match r {
      case SaveSettings(body) => SaveSynced(s, base, body);
      case ScheduledReboot(body) => RebootSynced(s, base, body);
      case Password(body) => PasswordSynced(s, base, body);
      case Activate(body) => ActivateSynced(s, base, body);
      case Restart(files, discovered) => BootSynced(s, files, discovered);
      case _ => ElsewhereSynced(s, base, r);
    }
  }

  /** Requests that do not touch the configuration. */
  lemma ElsewhereSynced(s: State, base: Settings, r: Request)
    requires Synced(s, base) && (r.Delete? || r.SaveProfile? || r.Bands?)
    ensures Synced(Next(s, r), base)
  {
    hide Synced, AfterSaveSettings, AfterScheduledReboot, AfterPassword, AfterActivate, Booted, Loaded, Overlay,
      StringValue, Parsed, TtlValue, BandsAnswer;
    SyncedElsewhere(s, Next(s, r), base);
  }

  lemma SyncedElsewhere(s: State, t: State, base: Settings)
    requires Synced(s, base) && t.cfg == s.cfg && t.settings == s.settings
    ensures Synced(t, base)
  {}

  /** The configuration files stay the same. */
  ghost predicate SameConfig(rs: seq<Request>, files: Files) {
    forall r | r in rs && r.Restart? :: r.files.config == files.config && r.files.localConfig == files.localConfig
  }

  lemma {:induction false} RunSynced(s: State, files: Files, rs: seq<Request>)
    requires Synced(s, BaseConfig(files)) && SameConfig(rs, files)
    ensures Synced(Run(s, rs), BaseConfig(files))
    decreases |rs|
  {
    hide Synced, Next;
    if rs != [] {
      assert rs[0] in rs;
      StepSynced(s, BaseConfig(files), rs[0]);
      RunSynced(Next(s, rs[0]), files, rs[1..]);
    }
  }

  /** The states that a first start with an empty database and any requests and restarts after it lead to. */
  ghost predicate Reachable(files: Files, s: State) {
    exists first: Option<string>, rs: seq<Request> :: SameConfig(rs, files) && s == Run(Start(files, first), rs)
  }

  lemma ReachableSynced(files: Files, s: State)
    requires Reachable(files, s)
    ensures Synced(s, BaseConfig(files))
  {
    hide Booted, Run, Loaded;
    var first: Option<string>, rs: seq<Request> :| SameConfig(rs, files) && s == Run(Start(files, first), rs);
    BootSynced(State(map[], map[], map[], map[], [], 0), files, first);
    RunSynced(Start(files, first), files, rs);
  }

  /** One more request leads to a reachable state. */
  lemma ReachableNext(files: Files, s: State, r: Request)
    requires Reachable(files, s) && SameConfig([r], files)
    ensures Reachable(files, Next(s, r))
  {
    hide Booted, Run, Loaded, Next, Start;
    var first: Option<string>, rs: seq<Request> :| SameConfig(rs, files) && s == Run(Start(files, first), rs);
    RunSnoc(Start(files, first), rs, r);
    forall q | q in rs + [r] && q.Restart?
      ensures q.files.config == files.config && q.files.localConfig == files.localConfig
    {
      assert q in rs || q in [r];
    }
    assert SameConfig(rs + [r], files);
  }

  lemma {:induction false} RunSnoc(s: State, rs: seq<Request>, r: Request)
    ensures Run(s, rs + [r]) == Next(Run(s, rs), r)
    decreases |rs|
  {
    hide Next;
    if rs == [] {
      assert [] + [r] == [r] && [r][1..] == [];
    } else {
      assert (rs + [r])[1..] == rs[1..] + [r];
      RunSnoc(Next(s, rs[0]), rs[1..], r);
    }
  }

  /** In every reachable state a restart gives back the configuration and the settings table, exactly when modem
      discovery does not find another path. */
  lemma RestartIsIdentityIff(files: Files, s: State, again: Files, discovered: Option<string>)
    requires Reachable(files, s) && again.config == files.config && again.localConfig == files.localConfig
    requires discovered.Some? ==> |discovered.value| <= 127
    ensures var t := Booted(s, again, discovered);
      (t.cfg == s.cfg && t.settings == s.settings <==> !Moves(s.cfg, discovered))
      && (Moves(s.cfg, discovered) ==> t.cfg == s.cfg[OfonoModemPath := Text(discovered.value)])
  {
    hide Booted, Reachable, Loaded;
    ReachableSynced(files, s);
    Reboot(s, again, discovered);
  }

  /** A modem that answers at the configured path does not move. */
  lemma AnsweringModemStays(c: Settings)
    requires Complete(c)
    ensures !Moves(c, Some(Take(ModemPath(c), 127)))
  {
    assert FitsSetting(OfonoModemPath, c[OfonoModemPath]);
  }

  /** Restarting in a state that memory and table agree on. */
  lemma Reboot(s: State, files: Files, discovered: Option<string>)
    requires Synced(s, BaseConfig(files))
    requires discovered.Some? ==> |discovered.value| <= 127
    ensures var t := Booted(s, files, discovered);
      (t.cfg == s.cfg && t.settings == s.settings <==> !Moves(s.cfg, discovered))
      && (Moves(s.cfg, discovered) ==> t.cfg == s.cfg[OfonoModemPath := Text(discovered.value)])
  {
    hide Imported, ProfileFile, Overlay, Loaded;
    var base := BaseConfig(files);
    var settings := if ActiveProfile in s.settings && s.settings[ActiveProfile] != "" then s.settings
                    else s.settings[ActiveProfile := ActiveId(base)];
    assert settings == s.settings;
    if Moves(s.cfg, discovered) {
      var d := s.cfg[OfonoModemPath := Text(discovered.value)];
      assert ModemPath(d) == discovered.value;
    }
  }

  // ---------- from the JSON of a request to the configuration after a restart ----------

  /** The value of a field after a request whose body is a JSON tree. */
  function FromTree(tree: Json, f: Setting, current: Value): Value {
    match current
    case Text(_) => (match TreeString(tree, Name(f)) case None => current case Some(t) => Stored(f, t))
    case Number(n) => Number(TreeInteger(tree, Name(f), n))
  }

  /** A saved field takes the value that the tree of the body has for its key, whatever the layout of the body. */
  lemma SettingFromJson(s: State, before: string, d: Doc, after: string, f: Setting)
    requires Complete(s.cfg) && IsSaved(f)
    requires WellFormed(d) && AllWs(before) && AllWs(after) && Searchable(d, Name(f))
    requires TreeString(J.Value(d), Name(f)).Some? ==> Decodable(TreeString(J.Value(d), Name(f)).value)
    ensures var t := AfterSaveSettings(s, Printed(before, d, after));
      f in t.cfg && t.cfg[f] == FromTree(J.Value(d), f, s.cfg[f])
  {
    RequestedFromJson(s.cfg[f], before, d, after, f);
    SavedComplete(s.cfg, Printed(before, d, after));
    hide Requested, FromTree, Printed, J.Value, Complete, IsSaved;
  }

  lemma RequestedFromJson(v: Value, before: string, d: Doc, after: string, f: Setting)
    requires WellFormed(d) && AllWs(before) && AllWs(after) && Searchable(d, Name(f))
    requires TreeString(J.Value(d), Name(f)).Some? ==> Decodable(TreeString(J.Value(d), Name(f)).value)
    ensures Requested(v, f, Printed(before, d, after)) == FromTree(J.Value(d), f, v)
  {
    NameShort(f);
    hide Name, Stored, TreeString, TreeInteger, StringValue, IntegerValue, Printed, J.Value, WellFormed, Searchable,
      Decodable, AllWs;
    match v
    case Text(_) => StringInDoc(before, d, after, Name(f));
    case Number(n) => IntegerInDoc(before, d, after, Name(f), n);
  }

  /** What a request saves is what the daemon runs with after the next restart. */
  lemma SavedSurvivesRestart(files: Files, s: State, before: string, d: Doc, after: string, f: Setting,
                             again: Files, discovered: Option<string>)
    requires Reachable(files, s) && again.config == files.config && again.localConfig == files.localConfig
    requires IsSaved(f) && WellFormed(d) && AllWs(before) && AllWs(after) && Searchable(d, Name(f))
    requires TreeString(J.Value(d), Name(f)).Some? ==> Decodable(TreeString(J.Value(d), Name(f)).value)
    requires discovered.Some? ==> |discovered.value| <= 127
    requires !Moves(AfterSaveSettings(s, Printed(before, d, after)).cfg, discovered)
    ensures var t := Booted(AfterSaveSettings(s, Printed(before, d, after)), again, discovered);
      f in s.cfg && f in t.cfg && t.cfg[f] == FromTree(J.Value(d), f, s.cfg[f])
  {
    hide *;
    var body := Printed(before, d, after);
    ReachableComplete(files, s);
    SettingFromJson(s, before, d, after, f);
    SaveReachable(files, s, body);
    RestartIsIdentityIff(files, AfterSaveSettings(s, body), again, discovered);
  }

  lemma ReachableComplete(files: Files, s: State)
    requires Reachable(files, s)
    ensures Complete(s.cfg) && forall f: Setting :: f in s.cfg
  {
    hide Reachable, Loaded, FitsSetting;
    ReachableSynced(files, s);
    OverlayComplete(BaseConfig(files), s.settings);
  }

  lemma SaveReachable(files: Files, s: State, body: string)
    requires Reachable(files, s)
    ensures Reachable(files, AfterSaveSettings(s, body))
  {
    hide Reachable, AfterSaveSettings;
    var r := SaveSettings(body);
    assert [r][0] == r;
    ReachableNext(files, s, r);
  }

  // ---------- profiles ----------

  ghost predicate ActiveStored(s: State) {
    ActiveId(s.cfg) in s.profiles
  }

  /** The request activates a stored profile whose shortened id is not stored. */
  predicate LosesActive(s: State, r: Request) {
    && r.Activate? && RequestedId(r.body).Some?
    && var id := RequestedId(r.body).value;
      id in s.profiles && Take(id, 127) !in s.profiles
  }

  /** Once the active id names a stored profile it always does, except after activating an id too long for memory. */
  lemma ActiveStaysIff(s: State, base: Settings, r: Request)
    requires Synced(s, base) && ActiveStored(s) && (r.Restart? ==> BaseConfig(r.files) == base)
    ensures ActiveStored(Next(s, r)) <==> !LosesActive(s, r)
  {
    hide Loaded, StringValue, IntegerValue, CommandValue, TtlValue, Parsed, Requested;
    OverlayComplete(base, s.settings);
    match r {
      case SaveSettings(body) =>
      case ScheduledReboot(body) =>
      case Password(body) =>
      case Activate(body) =>
        if RequestedId(body).Some? && RequestedId(body).value in s.profiles {
          ActivatedId(s, body);
        }
      case Delete(body) =>
        assert FitsSetting(ActiveProfile, s.cfg[ActiveProfile]);
      case SaveProfile(body) =>
      case Bands(query, now, response, later) =>
      case Restart(files, discovered) =>
        RestartKeepsActive(s, files, discovered);
    }
  }

  lemma ActivatedId(s: State, body: string)
    requires RequestedId(body).Some? && RequestedId(body).value in s.profiles
    ensures ActiveId(AfterActivate(s, body).cfg) == Take(RequestedId(body).value, 127)
  {
    hide StringValue;
  }

  lemma RestartKeepsActive(s: State, files: Files, discovered: Option<string>)
    requires Synced(s, BaseConfig(files))
    ensures ActiveId(Booted(s, files, discovered).cfg) == ActiveId(s.cfg)
    ensures s.profiles.Keys <= Booted(s, files, discovered).profiles.Keys
  {
    hide ProfileFile, Overlay, Loaded;
    var base := BaseConfig(files);
    var settings := if ActiveProfile in s.settings && s.settings[ActiveProfile] != "" then s.settings
                    else s.settings[ActiveProfile := ActiveId(base)];
    assert settings == s.settings;
  }

  /** Over any run that activates only ids which fit, a stored active profile stays stored. */
  lemma {:induction false} ActiveStays(s: State, files: Files, rs: seq<Request>)
    requires Synced(s, BaseConfig(files)) && SameConfig(rs, files) && ActiveStored(s)
    requires forall r | r in rs && r.Activate? && RequestedId(r.body).Some? :: |RequestedId(r.body).value| <= 127
    ensures ActiveStored(Run(s, rs))
    decreases |rs|
  {
    hide Synced, ActiveStored, Next, RequestedId;
    if rs != [] {
      assert rs[0] in rs;
      StepSynced(s, BaseConfig(files), rs[0]);
      ActiveStaysIff(s, BaseConfig(files), rs[0]);
      ActiveStays(Next(s, rs[0]), files, rs[1..]);
    }
  }

  /** A deletion removes the named profile, which is not the active one, and nothing else. */
  lemma DeleteSparesActive(s: State, body: string)
    requires Complete(s.cfg)
    ensures var t := AfterDelete(s, body);
      t.profiles == s.profiles ||
      (RequestedId(body).Some? && RequestedId(body).value != ActiveId(s.cfg) &&
       t.profiles == s.profiles - {RequestedId(body).value})
    ensures ActiveId(s.cfg) in s.profiles ==>
      ActiveId(s.cfg) in AfterDelete(s, body).profiles &&
      AfterDelete(s, body).profiles[ActiveId(s.cfg)] == s.profiles[ActiveId(s.cfg)]
  {
    hide StringValue;
    assert FitsSetting(ActiveProfile, s.cfg[ActiveProfile]);
  }

  // ---------- the cache ----------

  /** The last probe with a key. */
  ghost function LastProbe(probes: seq<(CacheKey, CacheRow)>, k: CacheKey): Option<CacheRow>
    decreases |probes|
  {
    if probes == [] then None
    else if probes[|probes| - 1].0 == k then Some(probes[|probes| - 1].1)
    else LastProbe(probes[..|probes| - 1], k)
  }

  /** Every row belongs to a stored profile and is what the last probe with its key returned. */
  ghost predicate CacheSound(s: State) {
    forall k | k in s.cache ::
      && k.profile in s.profiles
      && s.cache[k].parsed == Parsed(s.cache[k].raw)
      && LastProbe(s.probes, k) == Some(s.cache[k])
  }

  lemma LastProbeSnoc(probes: seq<(CacheKey, CacheRow)>, k: CacheKey, row: CacheRow, other: CacheKey)
    ensures LastProbe(probes + [(k, row)], other) == if other == k then Some(row) else LastProbe(probes, other)
  {
    var all := probes + [(k, row)];
    assert all[..|all| - 1] == probes;
  }

  lemma StepCacheSound(s: State, r: Request)
    requires CacheSound(s)
    ensures CacheSound(Next(s, r))
  {
    hide Loaded, StringValue, IntegerValue, CommandValue, TtlValue, Parsed, LastProbe, Requested, Overlay;
    match r {
      case Bands(query, now, response, later) => BandsCacheSound(s, query, now, response, later);
      case Delete(body) =>
      case SaveProfile(body) =>
      case Restart(files, discovered) =>
      case SaveSettings(body) =>
      case ScheduledReboot(body) =>
      case Password(body) =>
      case Activate(body) =>
    }
  }

  lemma BandsCacheSound(s: State, query: Option<string>, now: int, response: Response, later: int)
    requires CacheSound(s)
    ensures CacheSound(AfterBands(s, query, now, response, later))
  {
    hide CommandValue, TtlValue, Parsed, LastProbe, Refreshes;
    var t := AfterBands(s, query, now, response, later);
    var k := BandKey(s.cfg);
    if BandsAnswer(s, query, now, response).Probed? {
      forall other | other in t.cache ensures LastProbe(t.probes, other) == Some(t.cache[other]) {
        LastProbeSnoc(s.probes, k, t.cache[k], other);
      }
    }
  }

  lemma {:induction false} RunCacheSound(s: State, rs: seq<Request>)
    requires CacheSound(s)
    ensures CacheSound(Run(s, rs))
    decreases |rs|
  {
    hide CacheSound, Next;
    if rs != [] {
      StepCacheSound(s, rs[0]);
      RunCacheSound(Next(s, rs[0]), rs[1..]);
    }
  }

  /** Requests look at a clock that does not run backwards. */
  ghost predicate Timely(s: State, rs: seq<Request>)
    decreases |rs|
  {
    rs == [] ||
    ((rs[0].Bands? ==> s.clock <= rs[0].now <= rs[0].later) && Timely(Next(s, rs[0]), rs[1..]))
  }

  ghost predicate RowsPast(s: State) {
    forall k | k in s.cache :: s.cache[k].updatedAt <= s.clock
  }

  lemma StepRowsPast(s: State, r: Request)
    requires RowsPast(s) && (r.Bands? ==> s.clock <= r.now <= r.later)
    ensures RowsPast(Next(s, r))
  {
    hide Loaded, StringValue, IntegerValue, CommandValue, TtlValue, Parsed, Requested, Overlay, Refreshes;
    match r {
      case Bands(query, now, response, later) =>
      case Delete(body) =>
      case SaveProfile(body) =>
      case Restart(files, discovered) =>
      case SaveSettings(body) =>
      case ScheduledReboot(body) =>
      case Password(body) =>
      case Activate(body) =>
    }
  }

  lemma {:induction false} RunRowsPast(s: State, rs: seq<Request>)
    requires RowsPast(s) && Timely(s, rs)
    ensures RowsPast(Run(s, rs))
    decreases |rs|
  {
    hide RowsPast, Next;
    if rs != [] {
      StepRowsPast(s, rs[0]);
      RunRowsPast(Next(s, rs[0]), rs[1..]);
    }
  }

  lemma StartSound(files: Files, first: Option<string>)
    ensures CacheSound(Start(files, first)) && RowsPast(Start(files, first))
  {
    hide Loaded, Overlay, Imported;
  }

  /** The states that requests lead to when the clock does not run backwards. */
  ghost predicate TimelyReachable(files: Files, s: State) {
    exists first: Option<string>, rs: seq<Request> :: Timely(Start(files, first), rs) && s == Run(Start(files, first), rs)
  }

  lemma ReachableSound(files: Files, s: State)
    requires TimelyReachable(files, s)
    ensures CacheSound(s) && RowsPast(s)
  {
    hide Start, Run, Timely, CacheSound, RowsPast;
    var first: Option<string>, rs: seq<Request> :| Timely(Start(files, first), rs) && s == Run(Start(files, first), rs);
    StartSound(files, first);
    RunCacheSound(Start(files, first), rs);
    RunRowsPast(Start(files, first), rs);
  }

  /** In every state reached from an empty database, an answer from the cache is the latest probe for the active profile
      and modem path, parsed, and no older than the time to live recorded with it. */
  lemma ServedIsLatest(files: Files, s: State, query: Option<string>, now: int, response: Response)
    requires TimelyReachable(files, s) && s.clock <= now
    ensures var answer := BandsAnswer(s, query, now, response);
      answer.Served? ==>
        && ActiveId(s.cfg) in s.profiles
        && LastProbe(s.probes, BandKey(s.cfg)).Some?
        && var row := LastProbe(s.probes, BandKey(s.cfg)).value;
          answer.json == row.parsed == Parsed(row.raw) && 0 <= now - row.updatedAt <= row.ttl
  {
    hide TimelyReachable, LastProbe, Parsed, CommandValue, Refreshes;
    ReachableSound(files, s);
  }
}
