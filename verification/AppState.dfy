/** src/http.c, src/profile.c and src/main.c: the handlers and the start of the daemon, on its real state.

    Every method is proved against the function of `AppModel` with the same purpose. */
module AppState {
  import opened CStrings
  import opened CharArrays
  import opened JsonUtil
  import opened ConfigKeys
  import opened Config
  import opened Payload
  import opened ProfileLookup
  import opened AtParsers
  import opened AtResponse
  import opened AppModel

  // ---------- the order of assignments ----------

  /** The order in which it stores them. */
  function StorePlace(f: Setting): nat {
    match f
    case SmsForwardEnabled => 0
    case SmsForwardMode => 1
    case SmtpHost => 2
    case SmtpPort => 3
    case SmtpUser => 4
    case SmtpPass => 5
    case SmtpFrom => 6
    case SmtpTo => 7
    case SmsWebhookUrl => 8
    case OfonoModemPath => 9
    case WanIface => 10
    case AtTimeoutMs => 11
    case AllowDangerousAt => 12
    case _ => 13
  }

  lemma SaveNumbersOrder()
    ensures SavePlace(SmsForwardEnabled) == 0
    ensures SavePlace(SmtpPort) == 1
    ensures SavePlace(AtTimeoutMs) == 2
    ensures SavePlace(AllowDangerousAt) == 3
  {}

  lemma SaveMailOrder()
    ensures SavePlace(SmsForwardMode) == 4
    ensures SavePlace(SmtpHost) == 5
    ensures SavePlace(SmtpUser) == 6
    ensures SavePlace(SmtpPass) == 7
    ensures SavePlace(SmtpFrom) == 8
    ensures SavePlace(SmtpTo) == 9
  {}

  lemma SaveOtherOrder()
    ensures SavePlace(SmsWebhookUrl) == 10
    ensures SavePlace(OfonoModemPath) == 11
    ensures SavePlace(WanIface) == 12
  {}

  lemma StoreSmtpOrder()
    ensures StorePlace(SmsForwardEnabled) == 0
    ensures StorePlace(SmsForwardMode) == 1
    ensures StorePlace(SmtpHost) == 2
    ensures StorePlace(SmtpPort) == 3
  {}

  lemma StoreMailOrder()
    ensures StorePlace(SmtpUser) == 4
    ensures StorePlace(SmtpPass) == 5
    ensures StorePlace(SmtpFrom) == 6
  {}

  lemma StoreTargetsOrder()
    ensures StorePlace(SmtpTo) == 7
    ensures StorePlace(SmsWebhookUrl) == 8
    ensures StorePlace(OfonoModemPath) == 9
  {}

  lemma StoreOtherOrder()
    ensures StorePlace(WanIface) == 10
    ensures StorePlace(AtTimeoutMs) == 11
    ensures StorePlace(AllowDangerousAt) == 12
  {}

  lemma OverlayRebootOrder()
    ensures OverlayPlace(ScheduledRebootEnabled) == 1
    ensures OverlayPlace(ScheduledRebootHour) == 2
    ensures OverlayPlace(ScheduledRebootMinute) == 3
    ensures OverlayPlace(SmsForwardEnabled) == 4
  {}

  lemma OverlayMailOrder()
    ensures OverlayPlace(SmsForwardMode) == 5
    ensures OverlayPlace(SmtpHost) == 6
    ensures OverlayPlace(SmtpPort) == 7
    ensures OverlayPlace(SmtpUser) == 8
  {}

  lemma OverlayTargetsOrder()
    ensures OverlayPlace(SmtpPass) == 9
    ensures OverlayPlace(SmtpFrom) == 10
    ensures OverlayPlace(SmtpTo) == 11
    ensures OverlayPlace(SmsWebhookUrl) == 12
  {}

  lemma OverlayOtherOrder()
    ensures OverlayPlace(OfonoModemPath) == 13
    ensures OverlayPlace(WanIface) == 14
    ensures OverlayPlace(AtTimeoutMs) == 15
    ensures OverlayPlace(AllowDangerousAt) == 16
    ensures OverlayPlace(AuthUser) == 17
    ensures OverlayPlace(AuthPass) == 18
  {}

  lemma SavePlaces(f: Setting)
    ensures forall g: Setting | SavePlace(g) == SavePlace(f) < 13 :: g == f
  {}

  lemma StorePlaces(f: Setting)
    ensures StorePlace(f) < 13 <==> IsSaved(f)
    ensures forall g: Setting | StorePlace(g) == StorePlace(f) < 13 :: g == f
  {}

  lemma OverlayPlaces(f: Setting)
    ensures forall g: Setting | OverlayPlace(g) == OverlayPlace(f) < 19 :: g == f
  {}

  lemma ActiveFirst(f: Setting)
    requires OverlayPlace(f) > 0
    ensures f != ActiveProfile
  {}

  /** The configuration after the first `n` assignments. */
  ghost function SavedUpTo(c: Settings, body: string, n: nat): (d: Settings)
    ensures d.Keys == c.Keys
    ensures forall f: Setting | f in c :: d[f] == if SavePlace(f) < n then Requested(c[f], f, body) else c[f]
  {
    map f: Setting | f in c :: if SavePlace(f) < n then Requested(c[f], f, body) else c[f]
  }

  /** The settings table after the first `n` rows have been written. */
  ghost function TableUpTo(table: map<Setting, string>, c: Settings, n: nat): (t: map<Setting, string>)
    requires Complete(c)
    ensures forall f: Setting :: f in t <==> f in table || StorePlace(f) < n
    ensures forall f: Setting | f in t :: t[f] == if StorePlace(f) < n then ValueText(c[f]) else table[f]
  {
    map f: Setting | f in table || StorePlace(f) < n :: if StorePlace(f) < n then ValueText(c[f]) else table[f]
  }

  /** The configuration when the first `n` stored settings have been laid over it. */
  ghost function OverlayUpTo(base: Settings, table: map<Setting, string>, n: nat): (c: Settings)
    ensures c.Keys == base.Keys
    ensures forall f: Setting | f in base :: c[f] == if OverlayPlace(f) < n then Overlaid(base[f], f, table) else base[f]
  {
    map f: Setting | f in base :: if OverlayPlace(f) < n then Overlaid(base[f], f, table) else base[f]
  }

  lemma SavedStep(c: Settings, body: string, f: Setting)
    requires Complete(c) && SavePlace(f) < 13
    ensures SavedUpTo(c, body, SavePlace(f) + 1) == SavedUpTo(c, body, SavePlace(f))[f := Requested(c[f], f, body)]
    ensures SavedUpTo(c, body, SavePlace(f))[f] == c[f]
  {
    SavePlaces(f);
    hide Requested, SavePlace, FitsSetting;
  }

  /** A field the request does not name keeps its value. */
  lemma SameUpdate(c: Settings, body: string, f: Setting)
    requires Complete(c) && SavePlace(f) < 13
    ensures SavedUpTo(c, body, SavePlace(f))[f := c[f]] == SavedUpTo(c, body, SavePlace(f))
  {
    SavedStep(c, body, f);
    hide SavePlace, Requested;
  }

  lemma TableStep(table: map<Setting, string>, c: Settings, f: Setting)
    requires Complete(c) && StorePlace(f) < 13
    ensures TableUpTo(table, c, StorePlace(f) + 1) == TableUpTo(table, c, StorePlace(f))[f := ValueText(c[f])]
  {
    StorePlaces(f);
    hide ValueText, StorePlace, FitsSetting;
  }

  lemma OverlayStep(base: Settings, table: map<Setting, string>, f: Setting)
    requires Complete(base) && 0 < OverlayPlace(f) < 19
    ensures var before, after := OverlayUpTo(base, table, OverlayPlace(f)), OverlayUpTo(base, table, OverlayPlace(f) + 1);
      after == if f in table then before[f := Stored(f, table[f])] else before
  {
    OverlayPlaces(f);
    OverlaidIs(base[f], f, table);
    hide Stored, Overlaid, OverlayPlace, FitsSetting;
  }

  lemma OverlaidIs(v: Value, f: Setting, table: map<Setting, string>)
    requires 0 < OverlayPlace(f) < 19
    ensures Overlaid(v, f, table) == if f in table then Stored(f, table[f]) else v
  {
    ActiveFirst(f);
    hide Stored, OverlayPlace;
  }

  lemma SavedEnds(c: Settings, body: string)
    ensures SavedUpTo(c, body, 0) == c && SavedUpTo(c, body, 13) == SavedConfig(c, body)
  {
    hide Requested, SavePlace;
  }

  lemma TableEnds(table: map<Setting, string>, c: Settings)
    requires Complete(c)
    ensures TableUpTo(table, c, 0) == table && TableUpTo(table, c, 13) == SavedTable(table, c)
  {
    hide StorePlace, IsSaved, ValueText;
    forall f: Setting ensures StorePlace(f) < 13 <==> IsSaved(f) {
      StorePlaces(f);
    }
  }

  lemma OverlayEnds(base: Settings, table: map<Setting, string>)
    ensures OverlayUpTo(base, table, 0) == base && OverlayUpTo(base, table, 19) == Overlay(base, table)
  {
    hide OverlayPlace, Stored;
  }

  /** `app_state`, with the tables of its database. */
  class AppState {
    const cfg: AppConfig
    var settings: map<Setting, string>
    var profiles: map<string, ProfileRow>
    var cache: map<CacheKey, CacheRow>
    ghost var probes: seq<(CacheKey, CacheRow)>
    ghost var clock: int

    ghost function Abs(): State
      reads this, cfg
    {
      State(cfg.Values(), settings, profiles, cache, probes, clock)
    }

    ghost predicate Valid()
      reads this, cfg
    {
      Complete(cfg.Values())
    }

    constructor ()
      ensures fresh(cfg)
      ensures settings == map[] && profiles == map[] && cache == map[] && probes == [] && clock == 0
    {
      cfg := new AppConfig();
      settings, profiles, cache, probes, clock := map[], map[], map[], [], 0;
    }

    lemma FieldsInUse()
      ensures ActiveId(cfg.Values()) == cfg.activeProfile && ModemPath(cfg.Values()) == cfg.ofonoModemPath
      ensures PathOf(cfg.Values()) == cfg.profilePath
    {}

    lemma LoginInUse()
      ensures AuthUser in cfg.Values() && cfg.Values()[AuthUser] == Text(cfg.authUser)
      ensures AuthPass in cfg.Values() && cfg.Values()[AuthPass] == Text(cfg.authPass)
    {}

    // ---------- settings ----------

    method ApiSystemScheduledReboot(body: string) returns (ok: bool)
      requires Valid()
      modifies this, cfg
      ensures Valid() && Abs() == AfterScheduledReboot(old(Abs()), body)
      ensures !ok ==> Abs() == old(Abs())
      ensures ok <==> 0 <= IntegerValue(body, "hour", 3) <= 23 && 0 <= IntegerValue(body, "minute", 30) <= 59
    {
      hide IntegerValue, Dec, AppConfig.Values, AppConfig.Get;
      var enabled := JsonGetInt(body, "enabled", 0);
      var hour := JsonGetInt(body, "hour", 3);
      var minute := JsonGetInt(body, "minute", 30);
      if hour < 0 || hour > 23 || minute < 0 || minute > 59 {
        return false;
      }
      var flag := if enabled != 0 then 1 else 0;
      cfg.SetNumber(ScheduledRebootEnabled, flag);
      cfg.SetNumber(ScheduledRebootHour, hour);
      cfg.SetNumber(ScheduledRebootMinute, minute);
      settings := settings[ScheduledRebootEnabled := Dec(flag)];
      settings := settings[ScheduledRebootHour := Dec(hour)];
      settings := settings[ScheduledRebootMinute := Dec(minute)];
      ok := true;
    }

    method ApiSystemPassword(body: string) returns (ok: bool)
      requires Valid()
      modifies this, cfg
      ensures Valid() && Abs() == AfterPassword(old(Abs()), body)
      ensures !ok ==> Abs() == old(Abs())
      ensures ok <==> StringValue(body, "username").Some? && StringValue(body, "password").Some? &&
                      StringValue(body, "username").value != "" && StringValue(body, "password").value != ""
    {
      hide StringValue, Stored, AppConfig.Values, AppConfig.Get, FitsSetting;
      var user := JsonGetString(body, "username");
      var pass := JsonGetString(body, "password");
      if user.None? || pass.None? || user.value == "" || pass.value == "" {
        return false;
      }
      StoredFits(AuthUser, user.value);
      StoredFits(AuthPass, pass.value);
      cfg.CopyText(AuthUser, user.value);
      cfg.CopyText(AuthPass, pass.value);
      LoginInUse();
      settings := settings[AuthUser := cfg.authUser];
      settings := settings[AuthPass := cfg.authPass];
      ok := true;
    }

    /** A field that the request may name takes its value; the request uses the key of the configuration file. */
    method SaveField(body: string, f: Setting, ghost c: Settings)
      requires SavePlace(f) < 13
      requires Complete(c) && cfg.Values() == SavedUpTo(c, body, SavePlace(f))
      modifies cfg
      ensures cfg.Values() == SavedUpTo(c, body, SavePlace(f) + 1)
    {
      hide IntegerValue, StringValue, Name, Stored, SavePlace, SavedUpTo;
      SavedStep(c, body, f);
      if Capacity(f).Some? {
        var s := JsonGetString(body, Name(f));
        assert c[f] == Text(cfg.TextOf(f));
        SameUpdate(c, body, f);
        if s.Some? {
          cfg.CopyText(f, s.value);
        }
      } else {
        var n := JsonGetInt(body, Name(f), cfg.NumberOf(f));
        assert c[f] == Number(cfg.NumberOf(f));
        cfg.SetNumber(f, n);
      }
    }

    /** The value of a field, stored in the table. */
    method Store(f: Setting, ghost table: map<Setting, string>, ghost c: Settings)
      requires StorePlace(f) < 13 && cfg.Values() == c && Complete(c) && settings == TableUpTo(table, c, StorePlace(f))
      modifies this`settings
      ensures settings == TableUpTo(table, c, StorePlace(f) + 1)
    {
      hide Dec, StorePlace, TableUpTo, FitsSetting;
      TableStep(table, c, f);
      if Capacity(f).Some? {
        settings := settings[f := cfg.TextOf(f)];
      } else {
        settings := settings[f := Dec(cfg.NumberOf(f))];
      }
    }

    method ApiSystemSettingsSave(body: string)
      requires Valid()
      modifies this, cfg
      ensures Valid() && Abs() == AfterSaveSettings(old(Abs()), body)
    {
      hide Requested, FitsSetting, AppConfig.Values, AppConfig.Get;
      ghost var s := Abs();
      SaveFields(body, s.cfg);
      SavedComplete(s.cfg, body);
      StoreFields(s.settings);
    }

    method SaveFields(body: string, ghost c: Settings)
      requires Complete(c) && cfg.Values() == c
      modifies cfg
      ensures cfg.Values() == SavedConfig(c, body)
    {
      hide SavedUpTo, SavedConfig, Complete, AppConfig.Values, AppConfig.Get;
      SavedEnds(c, body);
      SaveNumbers(body, c);
      SaveMail(body, c);
      SaveOther(body, c);
    }

    method SaveNumbers(body: string, ghost c: Settings)
      requires Complete(c) && cfg.Values() == SavedUpTo(c, body, 0)
      modifies cfg
      ensures cfg.Values() == SavedUpTo(c, body, 4)
    {
      hide *;
      SaveNumbersOrder();
      SaveField(body, SmsForwardEnabled, c);
      SaveField(body, SmtpPort, c);
      SaveField(body, AtTimeoutMs, c);
      SaveField(body, AllowDangerousAt, c);
    }

    method SaveMail(body: string, ghost c: Settings)
      requires Complete(c) && cfg.Values() == SavedUpTo(c, body, 4)
      modifies cfg
      ensures cfg.Values() == SavedUpTo(c, body, 10)
    {
      hide *;
      SaveMailOrder();
      SaveField(body, SmsForwardMode, c);
      SaveField(body, SmtpHost, c);
      SaveField(body, SmtpUser, c);
      SaveField(body, SmtpPass, c);
      SaveField(body, SmtpFrom, c);
      SaveField(body, SmtpTo, c);
    }

    method SaveOther(body: string, ghost c: Settings)
      requires Complete(c) && cfg.Values() == SavedUpTo(c, body, 10)
      modifies cfg
      ensures cfg.Values() == SavedUpTo(c, body, 13)
    {
      hide *;
      SaveOtherOrder();
      SaveField(body, SmsWebhookUrl, c);
      SaveField(body, OfonoModemPath, c);
      SaveField(body, WanIface, c);
    }

    method StoreFields(ghost table: map<Setting, string>)
      requires Valid() && settings == table
      modifies this`settings
      ensures settings == SavedTable(table, cfg.Values())
    {
      hide TableUpTo, SavedTable, Complete, AppConfig.Values, AppConfig.Get;
      ghost var c := cfg.Values();
      TableEnds(table, c);
      StoreSmtp(table, c);
      StoreMail(table, c);
      StoreTargets(table, c);
      StoreOther(table, c);
    }

    method StoreSmtp(ghost table: map<Setting, string>, ghost c: Settings)
      requires cfg.Values() == c && Complete(c) && settings == TableUpTo(table, c, 0)
      modifies this`settings
      ensures settings == TableUpTo(table, c, 4)
    {
      hide *;
      StoreSmtpOrder();
      Store(SmsForwardEnabled, table, c);
      Store(SmsForwardMode, table, c);
      Store(SmtpHost, table, c);
      Store(SmtpPort, table, c);
    }

    method StoreMail(ghost table: map<Setting, string>, ghost c: Settings)
      requires cfg.Values() == c && Complete(c) && settings == TableUpTo(table, c, 4)
      modifies this`settings
      ensures settings == TableUpTo(table, c, 7)
    {
      hide *;
      StoreMailOrder();
      Store(SmtpUser, table, c);
      Store(SmtpPass, table, c);
      Store(SmtpFrom, table, c);
    }

    method StoreTargets(ghost table: map<Setting, string>, ghost c: Settings)
      requires cfg.Values() == c && Complete(c) && settings == TableUpTo(table, c, 7)
      modifies this`settings
      ensures settings == TableUpTo(table, c, 10)
    {
      hide *;
      StoreTargetsOrder();
      Store(SmtpTo, table, c);
      Store(SmsWebhookUrl, table, c);
      Store(OfonoModemPath, table, c);
    }

    method StoreOther(ghost table: map<Setting, string>, ghost c: Settings)
      requires cfg.Values() == c && Complete(c) && settings == TableUpTo(table, c, 10)
      modifies this`settings
      ensures settings == TableUpTo(table, c, 13)
    {
      hide *;
      StoreOtherOrder();
      Store(WanIface, table, c);
      Store(AtTimeoutMs, table, c);
      Store(AllowDangerousAt, table, c);
    }

    // ---------- profiles ----------

    method ApiProfilesActivate(body: string) returns (ok: bool)
      requires Valid()
      modifies this, cfg
      ensures Valid() && Abs() == AfterActivate(old(Abs()), body)
      ensures ok <==> RequestedId(body).Some? && RequestedId(body).value in old(profiles)
    {
      hide StringValue;
      var id := JsonGetString(body, "id");
      if id.None? || id.value == "" {
        return false;
      }
      if id.value !in profiles {
        return false;
      }
      StoredFits(ActiveProfile, id.value);
      cfg.CopyText(ActiveProfile, id.value);
      settings := settings[ActiveProfile := id.value];
      ok := true;
    }

    method ApiProfilesDelete(body: string) returns (ok: bool)
      requires Valid()
      modifies this
      ensures Valid() && Abs() == AfterDelete(old(Abs()), body)
      ensures ok <==> (RequestedId(body).Some? && RequestedId(body).value in old(profiles) &&
                       RequestedId(body).value != old(cfg.activeProfile))
    {
      hide StringValue;
      var id := JsonGetString(body, "id");
      if id.None? || id.value == "" {
        return false;
      }
      if id.value == cfg.activeProfile {
        return false;
      }
      if id.value !in profiles {
        return false;
      }
      profiles := profiles - {id.value};
      cache := map k | k in cache && k.profile != id.value :: cache[k];
      ok := true;
    }

    method ApiProfilesSave(body: string) returns (ok: bool)
      requires Valid()
      modifies this
      ensures Valid() && Abs() == AfterSaveProfile(old(Abs()), body)
      ensures !ok ==> Abs() == old(Abs())
      ensures ok <==> |body| >= 2 && StringValue(body, "id").Some? && StringValue(body, "name").Some? &&
                      StringValue(body, "id").value != "" && StringValue(body, "name").value != ""
    {
      hide StringValue;
      if |body| < 2 {
        return false;
      }
      var id := JsonGetString(body, "id");
      var name := JsonGetString(body, "name");
      if id.None? || name.None? || id.value == "" || name.value == "" {
        return false;
      }
      profiles := profiles[id.value := ProfileRow(name.value, body)];
      ok := true;
    }

    // ---------- bands ----------

    /** The capability cache in front of a probe of the modem. */
    method ApiNetworkBands(query: Option<string>, now: int, response: Response, later: int) returns (answer: Answer)
      requires Valid()
      modifies this
      ensures Valid() && Abs() == AfterBands(old(Abs()), query, now, response, later)
      ensures answer == BandsAnswer(old(Abs()), query, now, response)
    {
      hide CommandValue, TtlValue, Parsed, Find, AppConfig.Values, AppConfig.Get, ActiveId, ModemPath, Complete;
      FieldsInUse();
      clock := now;
      var refresh := Find(if query.None? then "" else query.value, "refresh=1").Some?;
      var key := CacheKey(cfg.activeProfile, BAND, cfg.ofonoModemPath);
      if !refresh && key in cache && cache[key].updatedAt + cache[key].ttl >= now {
        return Served(cache[key].parsed);
      }
      if cfg.activeProfile !in profiles {
        return Failed("active profile not found");
      }
      var profile := profiles[cfg.activeProfile].json;
      var cmd := GetCapabilityCommand(profile, BAND, "discovery.command");
      var ttl := GetCapabilityTtl(profile, BAND, TTL_DEFAULT);
      if cmd.None? {
        return Failed("network.band discovery command not configured");
      }
      var raw := if response.out.None? then "" else response.out.value;
      var parsed := ParseBands(raw);
      PutCache(key, CacheRow(raw, parsed, later, ttl));
      answer := Probed(response.exitCode == 0, parsed);
    }

    /** `db_put_capability_cache`: inserts the row or replaces the one with its key. */
    method PutCache(key: CacheKey, row: CacheRow)
      modifies this`cache, this`probes, this`clock
      ensures cache == old(cache)[key := row] && probes == old(probes) + [(key, row)] && clock == row.updatedAt
    {
      cache := cache[key := row];
      probes := probes + [(key, row)];
      clock := row.updatedAt;
    }

    static method ParseBands(raw: string) returns (parsed: string)
      ensures parsed == Parsed(raw)
    {
      hide ResponseMembers, ObjectText, PayloadOf;
      parsed := ParseAtResponseJson(Some("gtact"), Some(raw));
    }

    // ---------- start ----------

    /** `profile_import_file`. */
    method ProfileImportFile(texts: map<string, string>, path: string, fallbackId: string) returns (rc: int)
      modifies this`profiles
      ensures rc == if path in texts then 0 else -1
      ensures profiles == if path in texts then Imported(old(profiles), texts[path], fallbackId) else old(profiles)
    {
      hide StringValue;
      if path !in texts {
        return -1;
      }
      var json := texts[path];
      var id := JsonGetString(json, "id");
      var name := JsonGetString(json, "name");
      if id.None? {
        id := Some(fallbackId);
      }
      if name.None? {
        name := id;
      }
      profiles := profiles[id.value := ProfileRow(name.value, json)];
      rc := 0;
    }

    method ImportAtStart(texts: map<string, string>)
      modifies this`profiles
      ensures profiles == match ProfileFile(cfg.profilePath, texts)
        case None => old(profiles)
        case Some(json) => Imported(old(profiles), json, cfg.activeProfile)
    {
      hide Imported;
      var rc := ProfileImportFile(texts, cfg.profilePath, cfg.activeProfile);
      if rc != 0 && cfg.profilePath == DEFAULT_PROFILE && LOCAL_PROFILE in texts {
        rc := ProfileImportFile(texts, LOCAL_PROFILE, cfg.activeProfile);
      }
    }

    /** The stored active profile, or else the one of the file, which is then stored. */
    method OverlayActive(ghost base: Settings)
      requires Complete(base) && cfg.Values() == base
      modifies this`settings, cfg
      ensures settings == if ActiveProfile in old(settings) && old(settings)[ActiveProfile] != "" then old(settings)
                          else old(settings)[ActiveProfile := ActiveId(base)]
      ensures cfg.Values() == OverlayUpTo(base, settings, 1)
    {
      hide Stored;
      assert FitsSetting(ActiveProfile, base[ActiveProfile]);
      if ActiveProfile in settings && settings[ActiveProfile] != "" {
        cfg.CopyText(ActiveProfile, settings[ActiveProfile]);
      } else {
        settings := settings[ActiveProfile := cfg.activeProfile];
        StoredText(ActiveProfile, base[ActiveProfile]);
      }
    }

    /** A stored setting, if there is one, laid over a field. */
    method OverlayField(f: Setting, ghost base: Settings)
      requires 0 < OverlayPlace(f) < 19
      requires Complete(base) && cfg.Values() == OverlayUpTo(base, settings, OverlayPlace(f))
      modifies cfg
      ensures cfg.Values() == OverlayUpTo(base, settings, OverlayPlace(f) + 1)
    {
      hide Take, Atoi, OverlayPlace, OverlayUpTo, AppConfig.Values, AppConfig.Get;
      OverlayStep(base, settings, f);
      if f in settings {
        if Capacity(f).Some? {
          cfg.CopyText(f, settings[f]);
        } else {
          cfg.SetNumber(f, Atoi(settings[f]));
        }
      }
    }

    method OverlayFields(ghost base: Settings)
      requires Complete(base) && cfg.Values() == OverlayUpTo(base, settings, 1)
      modifies cfg
      ensures cfg.Values() == Overlay(base, settings)
    {
      hide OverlayUpTo, Overlay, Complete, AppConfig.Values, AppConfig.Get;
      OverlayEnds(base, settings);
      OverlayReboot(base);
      OverlayMail(base);
      OverlayTargets(base);
      OverlayOther(base);
    }

    method OverlayReboot(ghost base: Settings)
      requires Complete(base) && cfg.Values() == OverlayUpTo(base, settings, 1)
      modifies cfg
      ensures cfg.Values() == OverlayUpTo(base, settings, 5)
    {
      hide *;
      OverlayRebootOrder();
      OverlayField(ScheduledRebootEnabled, base);
      OverlayField(ScheduledRebootHour, base);
      OverlayField(ScheduledRebootMinute, base);
      OverlayField(SmsForwardEnabled, base);
    }

    method OverlayMail(ghost base: Settings)
      requires Complete(base) && cfg.Values() == OverlayUpTo(base, settings, 5)
      modifies cfg
      ensures cfg.Values() == OverlayUpTo(base, settings, 9)
    {
      hide *;
      OverlayMailOrder();
      OverlayField(SmsForwardMode, base);
      OverlayField(SmtpHost, base);
      OverlayField(SmtpPort, base);
      OverlayField(SmtpUser, base);
    }

    method OverlayTargets(ghost base: Settings)
      requires Complete(base) && cfg.Values() == OverlayUpTo(base, settings, 9)
      modifies cfg
      ensures cfg.Values() == OverlayUpTo(base, settings, 13)
    {
      hide *;
      OverlayTargetsOrder();
      OverlayField(SmtpPass, base);
      OverlayField(SmtpFrom, base);
      OverlayField(SmtpTo, base);
      OverlayField(SmsWebhookUrl, base);
    }

    method OverlayOther(ghost base: Settings)
      requires Complete(base) && cfg.Values() == OverlayUpTo(base, settings, 13)
      modifies cfg
      ensures cfg.Values() == OverlayUpTo(base, settings, 19)
    {
      hide *;
      OverlayOtherOrder();
      OverlayField(OfonoModemPath, base);
      OverlayField(WanIface, base);
      OverlayField(AtTimeoutMs, base);
      OverlayField(AllowDangerousAt, base);
      OverlayField(AuthUser, base);
      OverlayField(AuthPass, base);
    }

    /** `main` up to the server loop. */
    method StartUp(files: Files, discovered: Option<string>)
      requires files.config.Some? ==> NulFree(files.config.value)
      requires files.localConfig.Some? ==> NulFree(files.localConfig.value)
      modifies this, cfg
      ensures Valid() && Abs() == Booted(old(Abs()), files, discovered)
    {
      hide Loaded, Imported, ProfileFile, Overlay, Take, FitsSetting, AppConfig.Values, AppConfig.Get, ActiveId, PathOf,
        Complete;
      ghost var s := Abs();
      var rc := ConfigLoad(cfg, files.config);
      if rc != 0 && files.localConfig.Some? {
        rc := ConfigLoad(cfg, files.localConfig);
      }
      ghost var base := BaseConfig(files);
      BaseComplete(files);
      FieldsInUse();
      ImportAtStart(files.texts);
      LayStored(base);
      FollowModem(discovered);
    }

    /** The stored settings laid over the configuration of the file. */
    method LayStored(ghost base: Settings)
      requires Complete(base) && cfg.Values() == base
      modifies this`settings, cfg
      ensures Valid()
      ensures settings == if ActiveProfile in old(settings) && old(settings)[ActiveProfile] != "" then old(settings)
                          else old(settings)[ActiveProfile := ActiveId(base)]
      ensures cfg.Values() == Overlay(base, settings)
    {
      hide Overlay, OverlayUpTo, AppConfig.Values, AppConfig.Get, ActiveId, Complete;
      OverlayActive(base);
      OverlayFields(base);
      OverlayComplete(base, settings);
    }

    /** A modem discovered at another path is used from now on. */
    method FollowModem(discovered: Option<string>)
      requires Valid()
      modifies this`settings, cfg
      ensures Valid()
      ensures var path := if discovered.Some? then Take(discovered.value, 127) else "";
        && cfg.Values() == (if Moves(old(cfg.Values()), discovered) then old(cfg.Values())[OfonoModemPath := Text(path)]
                            else old(cfg.Values()))
        && settings == if Moves(old(cfg.Values()), discovered) then old(settings)[OfonoModemPath := path] else old(settings)
    {
      hide Take;
      if discovered.Some? && discovered.value != "" && discovered.value != cfg.ofonoModemPath {
        StoredFits(OfonoModemPath, discovered.value);
        cfg.CopyText(OfonoModemPath, discovered.value);
        settings := settings[OfonoModemPath := cfg.ofonoModemPath];
      }
    }
  }
}
