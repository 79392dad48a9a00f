/** The state that requests change and a restart rebuilds: src/http.c, src/db.c and src/main.c as functions.

    `AppState` proves that the request handlers compute these functions. */
module AppModel {
  import opened CStrings
  import opened JsonUtil
  import opened ConfigKeys
  import opened Config
  import opened Payload
  import opened ProfileLookup
  import opened AtParsers

  // ---------- state ----------

  datatype ProfileRow = ProfileRow(name: string, json: string)

  /** The primary key of the cache table. */
  datatype CacheKey = CacheKey(profile: string, capability: string, path: string)

  datatype CacheRow = CacheRow(raw: string, parsed: string, updatedAt: int, ttl: int)

  /** The configuration in memory and the tables of the database; a key of the settings table is the name of a field.
      `probes` is the history of modem probes and `clock` the time of the last request that looked at the clock. */
  datatype State = State(
    cfg: Settings,
    settings: map<Setting, string>,
    profiles: map<string, ProfileRow>,
    cache: map<CacheKey, CacheRow>,
    probes: seq<(CacheKey, CacheRow)>,
    clock: int)

  /** The files a start of the daemon reads: its configuration file, the one it falls back to, and all others. */
  datatype Files = Files(config: Option<string>, localConfig: Option<string>, texts: map<string, string>)

  /** What `at_send` returns. */
  datatype Response = Response(exitCode: int, out: Option<string>)

  datatype Request =
    | SaveSettings(body: string)
    | ScheduledReboot(body: string)
    | Password(body: string)
    | Activate(body: string)
    | Delete(body: string)
    | SaveProfile(body: string)
    | Bands(query: Option<string>, now: int, response: Response, later: int)
    | Restart(files: Files, discovered: Option<string>)

  // ---------- requests that change the configuration ----------

  /** The fields `api_system_settings_save` takes from a request, in the order of its assignments. */
  function SavePlace(f: Setting): nat {
    match f
    case SmsForwardEnabled => 0
    case SmtpPort => 1
    case AtTimeoutMs => 2
    case AllowDangerousAt => 3
    case SmsForwardMode => 4
    case SmtpHost => 5
    case SmtpUser => 6
    case SmtpPass => 7
    case SmtpFrom => 8
    case SmtpTo => 9
    case SmsWebhookUrl => 10
    case OfonoModemPath => 11
    case WanIface => 12
    case _ => 13
  }

  /** The fields that are kept in the settings table, in the order in which `main` lays them over the configuration. */
  function OverlayPlace(f: Setting): nat {
    match f
    case ActiveProfile => 0
    case ScheduledRebootEnabled => 1
    case ScheduledRebootHour => 2
    case ScheduledRebootMinute => 3
    case SmsForwardEnabled => 4
    case SmsForwardMode => 5
    case SmtpHost => 6
    case SmtpPort => 7
    case SmtpUser => 8
    case SmtpPass => 9
    case SmtpFrom => 10
    case SmtpTo => 11
    case SmsWebhookUrl => 12
    case OfonoModemPath => 13
    case WanIface => 14
    case AtTimeoutMs => 15
    case AllowDangerousAt => 16
    case AuthUser => 17
    case AuthPass => 18
    case _ => 19
  }

  predicate IsSaved(f: Setting) {
    SavePlace(f) < 13
  }

  predicate IsStored(f: Setting) {
    OverlayPlace(f) < 19
  }

  lemma SavedIsStored(f: Setting)
    requires IsSaved(f)
    ensures IsStored(f) && f != ActiveProfile
  {}

  /** The value of a field after a request that may name it. */
  function Requested(v: Value, f: Setting, body: string): Value {
    match v
    case Text(_) => (match StringValue(body, Name(f)) case None => v case Some(t) => Stored(f, t))
    case Number(n) => Number(IntegerValue(body, Name(f), n))
  }

  ghost function SavedConfig(c: Settings, body: string): (d: Settings)
    ensures d.Keys == c.Keys
    ensures forall f: Setting | f in c :: d[f] == if IsSaved(f) then Requested(c[f], f, body) else c[f]
  {
    map f: Setting | f in c :: if IsSaved(f) then Requested(c[f], f, body) else c[f]
  }

  lemma RequestedFits(v: Value, f: Setting, body: string)
    requires FitsSetting(f, v)
    ensures FitsSetting(f, Requested(v, f, body))
  {
    hide StringValue, Atoi;
    match v
    case Text(_) =>
      match StringValue(body, Name(f)) {
        case None =>
        case Some(t) => StoredFits(f, t);
      }
    case Number(n) =>
  }

  lemma SavedComplete(c: Settings, body: string)
    requires Complete(c)
    ensures Complete(SavedConfig(c, body))
  {
    hide FitsSetting, Requested;
    var d := SavedConfig(c, body);
    forall f: Setting ensures FitsSetting(f, d[f]) {
      assert FitsSetting(f, c[f]);
      RequestedFits(c[f], f, body);
    }
  }

  ghost function SavedTable(table: map<Setting, string>, c: Settings): (t: map<Setting, string>)
    requires Complete(c)
    ensures forall f: Setting :: f in t <==> f in table || IsSaved(f)
    ensures forall f: Setting | f in t :: t[f] == if IsSaved(f) then ValueText(c[f]) else table[f]
  {
    map f: Setting | f in table || IsSaved(f) :: if IsSaved(f) then ValueText(c[f]) else table[f]
  }

  ghost function AfterSaveSettings(s: State, body: string): State {
    var c := SavedConfig(s.cfg, body);
    if Complete(c) then s.(cfg := c, settings := SavedTable(s.settings, c)) else s
  }

  function AfterScheduledReboot(s: State, body: string): State {
    var enabled := if IntegerValue(body, "enabled", 0) != 0 then 1 else 0;
    var hour := IntegerValue(body, "hour", 3);
    var minute := IntegerValue(body, "minute", 30);
    if hour < 0 || hour > 23 || minute < 0 || minute > 59 then s else
    s.(cfg := s.cfg[ScheduledRebootEnabled := Number(enabled)][ScheduledRebootHour := Number(hour)]
                   [ScheduledRebootMinute := Number(minute)],
       settings := s.settings[ScheduledRebootEnabled := Dec(enabled)][ScheduledRebootHour := Dec(hour)]
                             [ScheduledRebootMinute := Dec(minute)])
  }

  function AfterPassword(s: State, body: string): State {
    match (StringValue(body, "username"), StringValue(body, "password"))
    case (Some(user), Some(pass)) =>
      if user == "" || pass == "" then s else
      var u, p := Stored(AuthUser, user), Stored(AuthPass, pass);
      s.(cfg := s.cfg[AuthUser := u][AuthPass := p],
         settings := s.settings[AuthUser := ValueText(u)][AuthPass := ValueText(p)])
    case _ => s
  }

  // ---------- profiles ----------

  /** The profile a request names; nothing if it names none. */
  function RequestedId(body: string): Option<string> {
    match StringValue(body, "id")
    case None => None
    case Some(id) => if id == "" then None else Some(id)
  }

  /** The table keeps the whole id, memory what fits. */
  function AfterActivate(s: State, body: string): State {
    match RequestedId(body)
    case None => s
    case Some(id) =>
      if id !in s.profiles then s
      else s.(cfg := s.cfg[ActiveProfile := Stored(ActiveProfile, id)], settings := s.settings[ActiveProfile := id])
  }

  function WithoutProfile(cache: map<CacheKey, CacheRow>, id: string): map<CacheKey, CacheRow> {
    map k | k in cache && k.profile != id :: cache[k]
  }

  function AfterDelete(s: State, body: string): State {
    match RequestedId(body)
    case None => s
    case Some(id) =>
      if ActiveProfile in s.cfg && s.cfg[ActiveProfile] == Text(id) then s
      else if id !in s.profiles then s
      else s.(profiles := s.profiles - {id}, cache := WithoutProfile(s.cache, id))
  }

  /** `profile_import_json`. */
  function AfterSaveProfile(s: State, body: string): State {
    if |body| < 2 then s else
    match (StringValue(body, "id"), StringValue(body, "name"))
    case (Some(id), Some(name)) =>
      if id == "" || name == "" then s else s.(profiles := s.profiles[id := ProfileRow(name, body)])
    case _ => s
  }

  // ---------- the capability cache ----------

  const BAND := "network.band"

  predicate Refreshes(query: Option<string>) {
    Find(if query.None? then "" else query.value, "refresh=1").Some?
  }

  function ActiveId(c: Settings): string {
    if ActiveProfile in c && c[ActiveProfile].Text? then c[ActiveProfile].s else ""
  }

  function ModemPath(c: Settings): string {
    if OfonoModemPath in c && c[OfonoModemPath].Text? then c[OfonoModemPath].s else ""
  }

  function BandKey(c: Settings): CacheKey {
    CacheKey(ActiveId(c), BAND, ModemPath(c))
  }

  /** `db_get_capability_cache`: a row that has not expired. */
  function Cached(s: State, now: int): Option<CacheRow> {
    var k := BandKey(s.cfg);
    if k in s.cache && s.cache[k].updatedAt + s.cache[k].ttl >= now then Some(s.cache[k]) else None
  }

  /** `parse_at_response_json` with the parser `gtact`. */
  ghost function Parsed(raw: string): string {
    ObjectText(ResponseMembers(Gtact, PayloadOf(raw)))
  }

  datatype Answer = Served(json: string) | Probed(ok: bool, json: string) | Failed(error: string)

  ghost function BandsAnswer(s: State, query: Option<string>, now: int, response: Response): Answer {
    if !Refreshes(query) && Cached(s, now).Some? then Served(Cached(s, now).value.parsed)
    else if ActiveId(s.cfg) !in s.profiles then Failed("active profile not found")
    else
      match CommandValue(s.profiles[ActiveId(s.cfg)].json, BAND, "discovery.command")
      case None => Failed("network.band discovery command not configured")
      case Some(_) => Probed(response.exitCode == 0, Parsed(OutText(response)))
  }

  function OutText(response: Response): string {
    if response.out.None? then "" else response.out.value
  }

  const TTL_DEFAULT: int := 86400

  ghost function AfterBands(s: State, query: Option<string>, now: int, response: Response, later: int): State {
    match BandsAnswer(s, query, now, response)
    case Probed(_, parsed) =>
      var k := BandKey(s.cfg);
      var ttl := TtlValue(s.profiles[k.profile].json, BAND, TTL_DEFAULT);
      var row := CacheRow(OutText(response), parsed, later, ttl);
      s.(cache := s.cache[k := row], probes := s.probes + [(k, row)], clock := later)
    case _ => s.(clock := now)
  }

  // ---------- start and restart ----------

  ghost function BaseConfig(files: Files): Settings {
    Loaded(if files.config.None? then files.localConfig else files.config)
  }

  /** The configuration from the file with the stored settings laid over it. */
  ghost function Overlay(base: Settings, table: map<Setting, string>): (c: Settings)
    ensures c.Keys == base.Keys
    ensures forall f: Setting | f in base :: c[f] == Overlaid(base[f], f, table)
  {
    map f: Setting | f in base :: Overlaid(base[f], f, table)
  }

  function Overlaid(v: Value, f: Setting, table: map<Setting, string>): Value {
    if IsStored(f) && f in table && (f == ActiveProfile ==> table[f] != "") then Stored(f, table[f]) else v
  }

  lemma OverlayComplete(base: Settings, table: map<Setting, string>)
    requires Complete(base)
    ensures Complete(Overlay(base, table))
  {
    hide FitsSetting, Stored;
    forall f: Setting ensures FitsSetting(f, Overlaid(base[f], f, table)) {
      assert FitsSetting(f, base[f]);
      if f in table {
        StoredFits(f, table[f]);
      }
    }
  }

  lemma LoadedComplete(file: Option<string>)
    ensures Complete(Loaded(file))
  {
    DefaultsComplete();
    match file
    case None =>
    case Some(text) =>
      EffectsComplete(Defaults(), Chunks(text));
      var c := Effects(Defaults(), Chunks(text));
      forall f: Setting ensures f in Loaded(file) && FitsSetting(f, Loaded(file)[f]) {
        assert FitsSetting(f, c[f]);
      }
  }

  lemma BaseComplete(files: Files)
    ensures Complete(BaseConfig(files))
  {
    LoadedComplete(if files.config.None? then files.localConfig else files.config);
  }

  /** `profile_import_file` on the text of a file. */
  function Imported(profiles: map<string, ProfileRow>, json: string, fallbackId: string): map<string, ProfileRow> {
    profiles[FileId(json, fallbackId) := FileRow(json, fallbackId)]
  }

  function FileId(json: string, fallbackId: string): string {
    match StringValue(json, "id") case None => fallbackId case Some(id) => id
  }

  function FileRow(json: string, fallbackId: string): ProfileRow {
    ProfileRow(match StringValue(json, "name") case None => FileId(json, fallbackId) case Some(name) => name, json)
  }

  const DEFAULT_PROFILE := "./profiles/fm650.json"

  const LOCAL_PROFILE := "./fm650.json"

  /** The profile file that is imported at start. */
  function ProfileFile(path: string, texts: map<string, string>): Option<string> {
    if path in texts then Some(texts[path])
    else if path == DEFAULT_PROFILE && LOCAL_PROFILE in texts then Some(texts[LOCAL_PROFILE])
    else None
  }

  function PathOf(c: Settings): string {
    if ProfilePath in c && c[ProfilePath].Text? then c[ProfilePath].s else ""
  }

  ghost function Booted(s: State, files: Files, discovered: Option<string>): State {
    var base := BaseConfig(files);
    var profiles := match ProfileFile(PathOf(base), files.texts)
      case None => s.profiles
      case Some(json) => Imported(s.profiles, json, ActiveId(base));
    var settings := if ActiveProfile in s.settings && s.settings[ActiveProfile] != "" then s.settings
                    else s.settings[ActiveProfile := ActiveId(base)];
    var c := Overlay(base, settings);
    if Moves(c, discovered) then
      var path := Take(discovered.value, 127);
      s.(cfg := c[OfonoModemPath := Text(path)], settings := settings[OfonoModemPath := path], profiles := profiles)
    else
      s.(cfg := c, settings := settings, profiles := profiles)
  }

  /** Discovery finds a modem at another path. */
  predicate Moves(c: Settings, discovered: Option<string>) {
    discovered.Some? && discovered.value != "" && discovered.value != ModemPath(c)
  }

  // ---------- steps and runs ----------

  ghost function Next(s: State, r: Request): State {
    match r
    case SaveSettings(body) => AfterSaveSettings(s, body)
    case ScheduledReboot(body) => AfterScheduledReboot(s, body)
    case Password(body) => AfterPassword(s, body)
    case Activate(body) => AfterActivate(s, body)
    case Delete(body) => AfterDelete(s, body)
    case SaveProfile(body) => AfterSaveProfile(s, body)
    case Bands(query, now, response, later) => AfterBands(s, query, now, response, later)
    case Restart(files, discovered) => Booted(s, files, discovered)
  }

  ghost function Run(s: State, rs: seq<Request>): State
    decreases |rs|
  {
    if rs == [] then s else Run(Next(s, rs[0]), rs[1..])
  }

  /** The first start, with an empty database. */
  ghost function Start(files: Files, discovered: Option<string>): State {
    Booted(State(map[], map[], map[], map[], [], 0), files, discovered)
  }
}
