/** What requests with a JSON body do, in terms of the tree of the body, whatever its layout: the members that are read,
    the fields and rows that change, and what stays. */
module RequestResults {
  import opened CStrings
  import opened Json
  import J = Json
  import opened JsonUtil
  import opened ConfigKeys
  import opened Config
  import opened ProfileLookup
  import opened ProfileBlocks
  import opened AppModel
  import opened AppRuns

  /** A body is a document with any layout. */
  predicate IsBody(before: string, d: Doc, after: string) {
    WellFormed(d) && AllWs(before) && AllWs(after)
  }

  /** A string of the tree that the decoder gives back. */
  predicate Readable(v: Json, key: string) {
    TreeString(v, key).Some? ==> Decodable(TreeString(v, key).value)
  }

  lemma TextOfBody(before: string, d: Doc, after: string, key: string)
    requires IsBody(before, d, after) && Searchable(d, key) && |key| <= 20 && Readable(J.Value(d), key)
    ensures StringValue(Printed(before, d, after), key) == TreeString(J.Value(d), key)
  {
    hide StringValue, TreeString, Printed, Searchable, J.Value, Decodable;
    StringInDoc(before, d, after, key);
  }

  lemma NumberOfBody(before: string, d: Doc, after: string, key: string, fallback: int)
    requires IsBody(before, d, after) && Searchable(d, key) && |key| <= 20
    ensures IntegerValue(Printed(before, d, after), key, fallback) == TreeInteger(J.Value(d), key, fallback)
  {
    hide IntegerValue, TreeInteger, Printed, Searchable, J.Value;
    IntegerInDoc(before, d, after, key, fallback);
  }

  // ---------- the settings page ----------

  /** The thirteen keys that the settings request reads, and no other field changes. */
  lemma SavedFields(f: Setting)
    ensures IsSaved(f) <==>
            f in {SmsForwardEnabled, SmsForwardMode, SmtpHost, SmtpPort, SmtpUser, SmtpPass, SmtpFrom, SmtpTo, SmsWebhookUrl,
                  OfonoModemPath, WanIface, AtTimeoutMs, AllowDangerousAt}
  {}

  lemma OtherFieldsStay(s: State, body: string, f: Setting)
    requires Complete(s.cfg) && !IsSaved(f)
    ensures var t := AfterSaveSettings(s, body);
      && f in t.cfg && t.cfg[f] == s.cfg[f]
      && (f in s.settings <==> f in t.settings) && (f in s.settings ==> t.settings[f] == s.settings[f])
  {
    hide Requested, FitsSetting;
    SavedComplete(s.cfg, body);
  }

  // ---------- the scheduled reboot ----------

  lemma ScheduleNumbers(before: string, d: Doc, after: string)
    requires IsBody(before, d, after) && Searchable(d, "enabled") && Searchable(d, "hour") && Searchable(d, "minute")
    ensures var body, v := Printed(before, d, after), J.Value(d);
      && IntegerValue(body, "enabled", 0) == TreeInteger(v, "enabled", 0)
      && IntegerValue(body, "hour", 3) == TreeInteger(v, "hour", 3)
      && IntegerValue(body, "minute", 30) == TreeInteger(v, "minute", 30)
  {
    assert |"enabled"| <= 20 && |"hour"| <= 20 && |"minute"| <= 20;
    hide IntegerValue, TreeInteger, Printed, Searchable, J.Value, IsBody;
    NumberOfBody(before, d, after, "enabled", 0);
    NumberOfBody(before, d, after, "hour", 3);
    NumberOfBody(before, d, after, "minute", 30);
  }

  /** A schedule in range goes to memory and table, each number into the field of its name; any other changes nothing. */
  lemma ScheduleFromJson(s: State, before: string, d: Doc, after: string)
    requires IsBody(before, d, after) && Searchable(d, "enabled") && Searchable(d, "hour") && Searchable(d, "minute")
    ensures var t, v := Next(s, ScheduledReboot(Printed(before, d, after))), J.Value(d);
      var enabled := if TreeInteger(v, "enabled", 0) != 0 then 1 else 0;
      var hour, minute := TreeInteger(v, "hour", 3), TreeInteger(v, "minute", 30);
      if 0 <= hour <= 23 && 0 <= minute <= 59 then
        && t.cfg == s.cfg[ScheduledRebootHour := Number(hour)][ScheduledRebootMinute := Number(minute)]
                         [ScheduledRebootEnabled := Number(enabled)]
        && t.settings == s.settings[ScheduledRebootHour := Dec(hour)][ScheduledRebootMinute := Dec(minute)]
                                   [ScheduledRebootEnabled := Dec(enabled)]
        && t == s.(cfg := t.cfg, settings := t.settings)
      else t == s
  {
    ScheduleNumbers(before, d, after);
    hide *;
    ScheduleEffect(s, Printed(before, d, after));
  }

  lemma ScheduleEffect(s: State, body: string)
    ensures var t := Next(s, ScheduledReboot(body));
      var enabled := if IntegerValue(body, "enabled", 0) != 0 then 1 else 0;
      var hour, minute := IntegerValue(body, "hour", 3), IntegerValue(body, "minute", 30);
      if 0 <= hour <= 23 && 0 <= minute <= 59 then
        && t.cfg == s.cfg[ScheduledRebootHour := Number(hour)][ScheduledRebootMinute := Number(minute)]
                         [ScheduledRebootEnabled := Number(enabled)]
        && t.settings == s.settings[ScheduledRebootHour := Dec(hour)][ScheduledRebootMinute := Dec(minute)]
                                   [ScheduledRebootEnabled := Dec(enabled)]
        && t == s.(cfg := t.cfg, settings := t.settings)
      else t == s
  {
    hide IntegerValue, Dec;
  }

  /** A restart that keeps the configuration files changes no field but the modem path. */
  lemma KeptByRestart(files: Files, s: State, again: Files, discovered: Option<string>, f: Setting)
    requires Reachable(files, s) && again.config == files.config && again.localConfig == files.localConfig
    requires (discovered.Some? ==> |discovered.value| <= 127) && f != OfonoModemPath
    ensures f in s.cfg && f in Booted(s, again, discovered).cfg && Booted(s, again, discovered).cfg[f] == s.cfg[f]
  {
    hide Reachable, Booted, Moves;
    ReachableComplete(files, s);
    RestartIsIdentityIff(files, s, again, discovered);
  }

  /** So the daemon still has the requested schedule after the next restart. */
  lemma ScheduleSurvivesRestart(files: Files, s: State, before: string, d: Doc, after: string, again: Files,
                                discovered: Option<string>)
    requires Reachable(files, s) && again.config == files.config && again.localConfig == files.localConfig
    requires discovered.Some? ==> |discovered.value| <= 127
    requires IsBody(before, d, after) && Searchable(d, "enabled") && Searchable(d, "hour") && Searchable(d, "minute")
    requires 0 <= TreeInteger(J.Value(d), "hour", 3) <= 23 && 0 <= TreeInteger(J.Value(d), "minute", 30) <= 59
    ensures var c := Booted(Next(s, ScheduledReboot(Printed(before, d, after))), again, discovered).cfg;
      && ScheduledRebootHour in c && c[ScheduledRebootHour] == Number(TreeInteger(J.Value(d), "hour", 3))
      && ScheduledRebootMinute in c && c[ScheduledRebootMinute] == Number(TreeInteger(J.Value(d), "minute", 30))
      && ScheduledRebootEnabled in c
      && c[ScheduledRebootEnabled] == Number(if TreeInteger(J.Value(d), "enabled", 0) != 0 then 1 else 0)
  {
    var r := ScheduledReboot(Printed(before, d, after));
    var t := Next(s, r);
    hide *;
    ScheduleFromJson(s, before, d, after);
    RequestReachable(files, s, r);
    KeptByRestart(files, t, again, discovered, ScheduledRebootHour);
    KeptByRestart(files, t, again, discovered, ScheduledRebootMinute);
    KeptByRestart(files, t, again, discovered, ScheduledRebootEnabled);
  }

  lemma RequestReachable(files: Files, s: State, r: Request)
    requires Reachable(files, s) && !r.Restart?
    ensures Reachable(files, Next(s, r))
  {
    hide Reachable, Next;
    assert [r][0] == r;
    ReachableNext(files, s, r);
  }

  // ---------- the password ----------

  /** User and password of the request go, cut to their arrays, into the fields of their names, or nothing changes. */
  lemma PasswordFromJson(s: State, before: string, d: Doc, after: string)
    requires IsBody(before, d, after) && Searchable(d, "username") && Searchable(d, "password")
    requires Readable(J.Value(d), "username") && Readable(J.Value(d), "password")
    ensures var t, user, pass := Next(s, Password(Printed(before, d, after))), TreeString(J.Value(d), "username"),
                                 TreeString(J.Value(d), "password");
      if user.Some? && pass.Some? && user.value != "" && pass.value != "" then
        && t.cfg == s.cfg[AuthPass := Text(Take(pass.value, 127))][AuthUser := Text(Take(user.value, 63))]
        && t.settings == s.settings[AuthPass := Take(pass.value, 127)][AuthUser := Take(user.value, 63)]
        && t == s.(cfg := t.cfg, settings := t.settings)
      else t == s
  {
    assert |"username"| <= 20 && |"password"| <= 20;
    hide *;
    TextOfBody(before, d, after, "username");
    TextOfBody(before, d, after, "password");
    PasswordEffect(s, Printed(before, d, after), TreeString(J.Value(d), "username"), TreeString(J.Value(d), "password"));
  }

  lemma PasswordEffect(s: State, body: string, user: Option<string>, pass: Option<string>)
    requires StringValue(body, "username") == user && StringValue(body, "password") == pass
    ensures var t := Next(s, Password(body));
      if user.Some? && pass.Some? && user.value != "" && pass.value != "" then
        && t.cfg == s.cfg[AuthPass := Text(Take(pass.value, 127))][AuthUser := Text(Take(user.value, 63))]
        && t.settings == s.settings[AuthPass := Take(pass.value, 127)][AuthUser := Take(user.value, 63)]
        && t == s.(cfg := t.cfg, settings := t.settings)
      else t == s
  {
    hide StringValue, Take;
    if user.Some? && pass.Some? {
      var u, p := Take(user.value, 63), Take(pass.value, 127);
      UpdatesCommute(s.cfg, AuthUser, Text(u), AuthPass, Text(p));
      UpdatesCommute(s.settings, AuthUser, u, AuthPass, p);
    }
  }

  lemma UpdatesCommute<V>(m: map<Setting, V>, f: Setting, v: V, g: Setting, w: V)
    requires f != g
    ensures m[f := v][g := w] == m[g := w][f := v]
  {}

  // ---------- profiles ----------

  /** An id that is stored becomes the active one: whole in the table, cut to 127 bytes in memory. */
  lemma ActivateFromJson(s: State, before: string, d: Doc, after: string)
    requires IsBody(before, d, after) && Searchable(d, "id") && Readable(J.Value(d), "id")
    ensures var t, id := Next(s, Activate(Printed(before, d, after))), TreeString(J.Value(d), "id");
      if id.Some? && id.value != "" && id.value in s.profiles then
        t == s.(cfg := s.cfg[ActiveProfile := Text(Take(id.value, 127))], settings := s.settings[ActiveProfile := id.value])
      else t == s
  {
    assert |"id"| <= 20;
    hide *;
    TextOfBody(before, d, after, "id");
    ActivateEffect(s, Printed(before, d, after), TreeString(J.Value(d), "id"));
  }

  lemma ActivateEffect(s: State, body: string, id: Option<string>)
    requires StringValue(body, "id") == id
    ensures var t := Next(s, Activate(body));
      if id.Some? && id.value != "" && id.value in s.profiles then
        t == s.(cfg := s.cfg[ActiveProfile := Text(Take(id.value, 127))], settings := s.settings[ActiveProfile := id.value])
      else t == s
  {
    hide StringValue, Take;
  }

  /** A stored profile that is not the active one goes, with its cache rows and no others; otherwise nothing changes. */
  lemma DeleteFromJson(s: State, before: string, d: Doc, after: string)
    requires IsBody(before, d, after) && Searchable(d, "id") && Readable(J.Value(d), "id")
    requires ActiveProfile in s.cfg
    ensures var t, id := Next(s, Delete(Printed(before, d, after))), TreeString(J.Value(d), "id");
      if id.Some? && id.value != "" && id.value in s.profiles && s.cfg[ActiveProfile] != Text(id.value) then
        && id.value !in t.profiles && t.profiles == s.profiles - {id.value}
        && (forall k :: k in t.cache <==> k in s.cache && k.profile != id.value)
        && (forall k | k in t.cache :: t.cache[k] == s.cache[k])
        && t == s.(profiles := t.profiles, cache := t.cache)
      else t == s
  {
    assert |"id"| <= 20;
    hide *;
    TextOfBody(before, d, after, "id");
    DeleteEffect(s, Printed(before, d, after), TreeString(J.Value(d), "id"));
  }

  lemma DeleteEffect(s: State, body: string, id: Option<string>)
    requires StringValue(body, "id") == id && ActiveProfile in s.cfg
    ensures var t := Next(s, Delete(body));
      if id.Some? && id.value != "" && id.value in s.profiles && s.cfg[ActiveProfile] != Text(id.value) then
        && id.value !in t.profiles && t.profiles == s.profiles - {id.value}
        && (forall k :: k in t.cache <==> k in s.cache && k.profile != id.value)
        && (forall k | k in t.cache :: t.cache[k] == s.cache[k])
        && t == s.(profiles := t.profiles, cache := t.cache)
      else t == s
  {
    hide StringValue;
  }

  /** A body with an id and a name becomes the row of that id; the row holds the whole body. */
  lemma SaveProfileFromJson(s: State, before: string, d: Doc, after: string)
    requires IsBody(before, d, after) && Searchable(d, "id") && Searchable(d, "name")
    requires Readable(J.Value(d), "id") && Readable(J.Value(d), "name") && |Printed(before, d, after)| >= 2
    ensures var body := Printed(before, d, after);
      var t, id, name := Next(s, SaveProfile(body)), TreeString(J.Value(d), "id"), TreeString(J.Value(d), "name");
      if id.Some? && name.Some? && id.value != "" && name.value != "" then
        t == s.(profiles := s.profiles[id.value := ProfileRow(name.value, body)])
      else t == s
  {
    assert |"id"| <= 20 && |"name"| <= 20;
    hide *;
    TextOfBody(before, d, after, "id");
    TextOfBody(before, d, after, "name");
    SaveProfileEffect(s, Printed(before, d, after), TreeString(J.Value(d), "id"), TreeString(J.Value(d), "name"));
  }

  lemma SaveProfileEffect(s: State, body: string, id: Option<string>, name: Option<string>)
    requires StringValue(body, "id") == id && StringValue(body, "name") == name && |body| >= 2
    ensures var t := Next(s, SaveProfile(body));
      if id.Some? && name.Some? && id.value != "" && name.value != "" then
        t == s.(profiles := s.profiles[id.value := ProfileRow(name.value, body)])
      else t == s
  {
    hide StringValue;
  }

  /** The profile file becomes the row of its own id, or of the configured one; its name is its own, or that id. */
  lemma ImportFromJson(profiles: map<string, ProfileRow>, before: string, d: Doc, after: string, fallbackId: string)
    requires IsBody(before, d, after) && Searchable(d, "id") && Searchable(d, "name")
    requires Readable(J.Value(d), "id") && Readable(J.Value(d), "name")
    ensures var text, id, name := Printed(before, d, after), TreeString(J.Value(d), "id"), TreeString(J.Value(d), "name");
      var key := if id.Some? then id.value else fallbackId;
      Imported(profiles, text, fallbackId) ==
      profiles[key := ProfileRow(if name.Some? then name.value else key, text)]
  {
    assert |"id"| <= 20 && |"name"| <= 20;
    TextOfBody(before, d, after, "id");
    TextOfBody(before, d, after, "name");
    hide StringValue, TreeString, Printed, Searchable, J.Value, IsBody, Readable;
  }

  /** Which file that is. */
  lemma FileOfProfile(path: string, texts: map<string, string>)
    ensures path in texts ==> ProfileFile(path, texts) == Some(texts[path])
    ensures path !in texts && path == "./profiles/fm650.json" && "./fm650.json" in texts ==>
              ProfileFile(path, texts) == Some(texts["./fm650.json"])
    ensures path !in texts && !(path == "./profiles/fm650.json" && "./fm650.json" in texts) ==>
              ProfileFile(path, texts) == None
  {}

  // ---------- the first start ----------

  /** Discovery finds a modem at another path than the configured one. */
  predicate FindsOther(base: Settings, discovered: Option<string>)
    requires OfonoModemPath in base
  {
    discovered.Some? && discovered.value != "" && base[OfonoModemPath] != Text(discovered.value)
  }

  /** A first start runs with the configuration file, or the local one if that is missing, and stores no more than the
      active profile; a modem found at another path is followed and stored. */
  lemma FirstStart(files: Files, discovered: Option<string>)
    ensures var base, t := Loaded(if files.config.Some? then files.config else files.localConfig), Start(files, discovered);
      && Complete(base) && base[ActiveProfile].Text?
      && t.cache == map[] && t.probes == []
      && if FindsOther(base, discovered) then
           && t.cfg == base[OfonoModemPath := Text(Take(discovered.value, 127))]
           && t.settings == map[ActiveProfile := base[ActiveProfile].s, OfonoModemPath := Take(discovered.value, 127)]
         else
           t.cfg == base && t.settings == map[ActiveProfile := base[ActiveProfile].s]
  {
    var base := BaseConfig(files);
    BaseComplete(files);
    OnlyActive(base);
    hide Loaded, StringValue, ProfileFile, Overlay, Complete;
  }

  /** Laying the active profile over itself changes nothing. */
  lemma OnlyActive(base: Settings)
    requires Complete(base)
    ensures base[ActiveProfile].Text? && base[OfonoModemPath].Text?
    ensures Overlay(base, map[ActiveProfile := base[ActiveProfile].s]) == base
  {
    assert FitsSetting(ActiveProfile, base[ActiveProfile]) && FitsSetting(OfonoModemPath, base[OfonoModemPath]);
    var table := map[ActiveProfile := base[ActiveProfile].s];
    forall f: Setting
      ensures Overlaid(base[f], f, table) == base[f]
    {}
  }

  // ---------- the band cache ----------

  /** The daemon runs with this active profile and modem path. */
  predicate Runs(s: State, id: string, path: string) {
    && ActiveProfile in s.cfg && s.cfg[ActiveProfile] == Text(id)
    && OfonoModemPath in s.cfg && s.cfg[OfonoModemPath] == Text(path)
  }

  predicate AsksRefresh(query: Option<string>) {
    query.Some? && Find(query.value, "refresh=1").Some?
  }

  /** The table has a row for the active profile and modem path that has not expired. */
  predicate Fresh(s: State, id: string, path: string, now: int) {
    var k := CacheKey(id, "network.band", path);
    k in s.cache && s.cache[k].updatedAt + s.cache[k].ttl >= now
  }

  lemma NoQueryNoRefresh()
    ensures Find("", "refresh=1").None?
  {
    assert !Occurs("", "refresh=1", 0);
  }

  /** The cache answers exactly when no refresh is asked for and it has a fresh row, and then with that row's text. */
  lemma ServedIff(s: State, id: string, path: string, query: Option<string>, now: int, response: Response)
    requires Runs(s, id, path)
    ensures BandsAnswer(s, query, now, response).Served? <==> !AsksRefresh(query) && Fresh(s, id, path, now)
    ensures !AsksRefresh(query) && Fresh(s, id, path, now) ==>
              BandsAnswer(s, query, now, response) == Served(s.cache[CacheKey(id, "network.band", path)].parsed)
  {
    NoQueryNoRefresh();
    hide Find, Parsed, CommandValue;
  }

  /** Otherwise the modem is probed if the profile has the command, and the answer is recorded with the time to live of
      the profile. */
  lemma ProbeRecorded(s: State, id: string, path: string, query: Option<string>, now: int, response: Response, later: int)
    requires Runs(s, id, path) && (AsksRefresh(query) || !Fresh(s, id, path, now))
    ensures var answer, t := BandsAnswer(s, query, now, response), AfterBands(s, query, now, response, later);
      var out := if response.out.Some? then response.out.value else "";
      if id !in s.profiles then answer == Failed("active profile not found") && t == s.(clock := now)
      else if CommandValue(s.profiles[id].json, "network.band", "discovery.command").None? then
        answer == Failed("network.band discovery command not configured") && t == s.(clock := now)
      else
        var k := CacheKey(id, "network.band", path);
        var row := CacheRow(out, Parsed(out), later, TtlValue(s.profiles[id].json, "network.band", 86400));
        && answer == Probed(response.exitCode == 0, Parsed(out))
        && t == s.(cache := s.cache[k := row], probes := s.probes + [(k, row)], clock := later)
  {
    NoQueryNoRefresh();
    hide Find, Parsed, CommandValue, TtlValue;
  }

  /** A profile in which the discovery of the bands can be looked up. */
  predicate HasBands(before: string, d: Doc, after: string) {
    && IsBody(before, d, after)
    && Searchable(d, "network.band") && Searchable(d, "discovery.command") && Searchable(d, "discovery")
    && Searchable(d, "command") && Searchable(d, "cache_ttl_sec")
    && ObjectOrAbsent(J.Value(d), "network.band")
    && (TreeObject(J.Value(d), "network.band").Some? ==>
          ObjectOrAbsent(TreeObject(J.Value(d), "network.band").value, "discovery"))
    && (TreeCommand(J.Value(d), "network.band", "discovery.command").Some? ==>
          Decodable(TreeCommand(J.Value(d), "network.band", "discovery.command").value))
  }

  /** With the profile's tree: a refresh probes exactly when the tree has a discovery command, and the new row lives as
      long as the tree says, or a day. */
  lemma ProbeFromJson(s: State, id: string, path: string, before: string, d: Doc, after: string, query: Option<string>,
                      now: int, response: Response, later: int)
    requires Runs(s, id, path) && (AsksRefresh(query) || !Fresh(s, id, path, now))
    requires id in s.profiles && s.profiles[id].json == Printed(before, d, after) && HasBands(before, d, after)
    ensures var answer, t := BandsAnswer(s, query, now, response), AfterBands(s, query, now, response, later);
      var out := if response.out.Some? then response.out.value else "";
      var k := CacheKey(id, "network.band", path);
      if TreeCommand(J.Value(d), "network.band", "discovery.command").Some? then
        && answer == Probed(response.exitCode == 0, Parsed(out))
        && k in t.cache && t.cache[k] == CacheRow(out, Parsed(out), later, TreeTtl(J.Value(d), "network.band", 86400))
      else answer.Failed? && t.cache == s.cache
  {
    BandsInDoc(before, d, after);
    hide *;
    ProbeRecorded(s, id, path, query, now, response, later);
  }

  lemma BandsInDoc(before: string, d: Doc, after: string)
    requires HasBands(before, d, after)
    ensures var json, v := Printed(before, d, after), J.Value(d);
      && CommandValue(json, "network.band", "discovery.command") == TreeCommand(v, "network.band", "discovery.command")
      && TtlValue(json, "network.band", 86400) == TreeTtl(v, "network.band", 86400)
  {
    assert |"network.band"| == 12 && |"discovery.command"| == 17;
    hide CommandValue, TtlValue, TreeCommand, TreeTtl, TreeObject, Printed, Searchable, J.Value, ObjectOrAbsent, Decodable;
    CommandInDoc(before, d, after, "network.band", "discovery.command");
    TtlInDoc(before, d, after, "network.band", 86400);
  }
}
