/** src/config.c: the configuration and the file it is loaded from. */
module Config {
  import opened CStrings
  import opened CharArrays
  import opened ConfigKeys

  const DEFAULT_PORT: int := 4242

  const DEFAULT_TIMEOUT: int := 3000

  function Default(f: Setting): Value {
    match f
    case ListenHost => Text("0.0.0.0")
    case ListenPort => Number(4242)
    case DbPath => Text("./data/cellmgr.db")
    case ProfilePath => Text("./profiles/fm650.json")
    case ActiveProfile => Text("fibocom-fm650")
    case OfonoBackend => Text("dbus-send")
    case OfonoDestination => Text("org.ofono")
    case OfonoModemPath => Text("/ril_0")
    case AtBackend => Text("ofono-sendatcmd")
    case AtTimeoutMs => Number(3000)
    case AuthEnabled => Number(0)
    case AuthUser => Text("admin")
    case AuthPass => Text("admin")
    case AllowDangerousAt => Number(0)
    case WanIface => Text("rmnet_data0")
    case SampleIntervalMs => Number(1000)
    case ScheduledRebootEnabled => Number(0)
    case ScheduledRebootHour => Number(3)
    case ScheduledRebootMinute => Number(30)
    case SmsForwardEnabled => Number(0)
    case SmsForwardMode => Text("smtp")
    case SmtpHost => Text("")
    case SmtpPort => Number(25)
    case SmtpUser => Text("")
    case SmtpPass => Text("")
    case SmtpFrom => Text("")
    case SmtpTo => Text("")
    case SmsWebhookUrl => Text("")
  }

  ghost function Defaults(): (c: Settings)
    ensures forall f: Setting :: f in c && c[f] == Default(f)
  {
    map f: Setting | true :: Default(f)
  }

  /** The position of a field in the chain of comparisons in `set_key`. */
  function Place(f: Setting): nat {
    match f
    case ListenHost => 0
    case ListenPort => 1
    case DbPath => 2
    case ProfilePath => 3
    case ActiveProfile => 4
    case OfonoBackend => 5
    case OfonoDestination => 6
    case OfonoModemPath => 7
    case AtBackend => 8
    case AtTimeoutMs => 9
    case AuthEnabled => 10
    case AuthUser => 11
    case AuthPass => 12
    case AllowDangerousAt => 13
    case WanIface => 14
    case SampleIntervalMs => 15
    case ScheduledRebootEnabled => 16
    case ScheduledRebootHour => 17
    case ScheduledRebootMinute => 18
    case SmsForwardEnabled => 19
    case SmsForwardMode => 20
    case SmtpHost => 21
    case SmtpPort => 22
    case SmtpUser => 23
    case SmtpPass => 24
    case SmtpFrom => 25
    case SmtpTo => 26
    case SmsWebhookUrl => 27
  }

  ghost predicate NoneBefore(key: string, n: nat) {
    forall f: Setting | Place(f) < n :: Name(f) != key
  }

  /** The only comparison that succeeds decides the field. */
  lemma Hit(f: Setting, key: string)
    requires Name(f) == key
    ensures SettingOf(key) == Some(f)
  {
    SettingOfName(f);
  }

  lemma Miss(key: string)
    requires NoneBefore(key, 28)
    ensures SettingOf(key).None?
  {
    if SettingOf(key).Some? {
      PlaceBound(SettingOf(key).value);
      assert false;
    }
  }

  lemma PlaceBound(f: Setting)
    ensures Place(f) < 28
  {}

  lemma Names1()
    ensures Name(ListenHost) == "listen_host" && Name(ListenPort) == "listen_port" && Name(DbPath) == "db_path"
    ensures Name(ProfilePath) == "profile_path" && Name(ActiveProfile) == "active_profile"
    ensures Name(OfonoBackend) == "ofono_backend" && Name(OfonoDestination) == "ofono_destination"
  {}

  lemma Passed1(key: string)
    requires key != "listen_host" && key != "listen_port" && key != "db_path" && key != "profile_path"
    requires key != "active_profile" && key != "ofono_backend" && key != "ofono_destination"
    ensures NoneBefore(key, 7)
  {}

  lemma Names2()
    ensures Name(OfonoModemPath) == "ofono_modem_path" && Name(AtBackend) == "at_backend"
    ensures Name(AtTimeoutMs) == "at_timeout_ms" && Name(AuthEnabled) == "auth_enabled"
    ensures Name(AuthUser) == "auth_user" && Name(AuthPass) == "auth_pass"
    ensures Name(AllowDangerousAt) == "allow_dangerous_at"
  {}

  lemma Passed2(key: string)
    requires NoneBefore(key, 7)
    requires key != "ofono_modem_path" && key != "at_backend" && key != "at_timeout_ms" && key != "auth_enabled"
    requires key != "auth_user" && key != "auth_pass" && key != "allow_dangerous_at"
    ensures NoneBefore(key, 14)
  {}

  lemma Names3()
    ensures Name(WanIface) == "wan_iface" && Name(SampleIntervalMs) == "sample_interval_ms"
    ensures Name(ScheduledRebootEnabled) == "scheduled_reboot_enabled"
    ensures Name(ScheduledRebootHour) == "scheduled_reboot_hour"
    ensures Name(ScheduledRebootMinute) == "scheduled_reboot_minute"
    ensures Name(SmsForwardEnabled) == "sms_forward_enabled" && Name(SmsForwardMode) == "sms_forward_mode"
  {}

  lemma Passed3(key: string)
    requires NoneBefore(key, 14)
    requires key != "wan_iface" && key != "sample_interval_ms" && key != "scheduled_reboot_enabled"
    requires key != "scheduled_reboot_hour" && key != "scheduled_reboot_minute" && key != "sms_forward_enabled"
    requires key != "sms_forward_mode"
    ensures NoneBefore(key, 21)
  {}

  lemma Names4()
    ensures Name(SmtpHost) == "smtp_host" && Name(SmtpPort) == "smtp_port" && Name(SmtpUser) == "smtp_user"
    ensures Name(SmtpPass) == "smtp_pass" && Name(SmtpFrom) == "smtp_from" && Name(SmtpTo) == "smtp_to"
    ensures Name(SmsWebhookUrl) == "sms_webhook_url"
  {}

  lemma Passed4(key: string)
    requires NoneBefore(key, 21)
    requires key != "smtp_host" && key != "smtp_port" && key != "smtp_user" && key != "smtp_pass"
    requires key != "smtp_from" && key != "smtp_to" && key != "sms_webhook_url"
    ensures NoneBefore(key, 28)
  {}

  lemma NumbersStored(text: string)
    ensures forall f: Setting | Capacity(f).None? :: Stored(f, text) == Number(Atoi(text))
  {}

  /** `app_config`. */
  class AppConfig {
    var listenHost: string
    var listenPort: int
    var dbPath: string
    var profilePath: string
    var activeProfile: string
    var ofonoBackend: string
    var ofonoDestination: string
    var ofonoModemPath: string
    var atBackend: string
    var atTimeoutMs: int
    var authEnabled: int
    var authUser: string
    var authPass: string
    var allowDangerousAt: int
    var wanIface: string
    var sampleIntervalMs: int
    var scheduledRebootEnabled: int
    var scheduledRebootHour: int
    var scheduledRebootMinute: int
    var smsForwardEnabled: int
    var smsForwardMode: string
    var smtpHost: string
    var smtpPort: int
    var smtpUser: string
    var smtpPass: string
    var smtpFrom: string
    var smtpTo: string
    var smsWebhookUrl: string

    /** Fields not yet set. */
    constructor () {}

    ghost function Get(f: Setting): Value
      reads this
    {
      match f
      case ListenHost => Text(listenHost)
      case ListenPort => Number(listenPort)
      case DbPath => Text(dbPath)
      case ProfilePath => Text(profilePath)
      case ActiveProfile => Text(activeProfile)
      case OfonoBackend => Text(ofonoBackend)
      case OfonoDestination => Text(ofonoDestination)
      case OfonoModemPath => Text(ofonoModemPath)
      case AtBackend => Text(atBackend)
      case AtTimeoutMs => Number(atTimeoutMs)
      case AuthEnabled => Number(authEnabled)
      case AuthUser => Text(authUser)
      case AuthPass => Text(authPass)
      case AllowDangerousAt => Number(allowDangerousAt)
      case WanIface => Text(wanIface)
      case SampleIntervalMs => Number(sampleIntervalMs)
      case ScheduledRebootEnabled => Number(scheduledRebootEnabled)
      case ScheduledRebootHour => Number(scheduledRebootHour)
      case ScheduledRebootMinute => Number(scheduledRebootMinute)
      case SmsForwardEnabled => Number(smsForwardEnabled)
      case SmsForwardMode => Text(smsForwardMode)
      case SmtpHost => Text(smtpHost)
      case SmtpPort => Number(smtpPort)
      case SmtpUser => Text(smtpUser)
      case SmtpPass => Text(smtpPass)
      case SmtpFrom => Text(smtpFrom)
      case SmtpTo => Text(smtpTo)
      case SmsWebhookUrl => Text(smsWebhookUrl)
    }

    ghost function Values(): (c: Settings)
      reads this
      ensures forall f: Setting :: f in c && c[f] == Get(f)
    {
      map f: Setting | true :: Get(f)
    }

    ghost predicate ServerDefaults()
      reads this
    {
      && listenHost == "0.0.0.0" && listenPort == 4242 && dbPath == "./data/cellmgr.db"
      && profilePath == "./profiles/fm650.json" && activeProfile == "fibocom-fm650"
      && ofonoBackend == "dbus-send" && ofonoDestination == "org.ofono"
    }

    ghost predicate ModemDefaults()
      reads this
    {
      && ofonoModemPath == "/ril_0" && atBackend == "ofono-sendatcmd" && atTimeoutMs == 3000
      && authEnabled == 0 && authUser == "admin" && authPass == "admin" && allowDangerousAt == 0
    }

    ghost predicate ScheduleDefaults()
      reads this
    {
      && wanIface == "rmnet_data0" && sampleIntervalMs == 1000 && scheduledRebootEnabled == 0
      && scheduledRebootHour == 3 && scheduledRebootMinute == 30 && smsForwardEnabled == 0
      && smsForwardMode == "smtp"
    }

    ghost predicate MailDefaults()
      reads this
    {
      && smtpHost == "" && smtpPort == 25 && smtpUser == "" && smtpPass == "" && smtpFrom == "" && smtpTo == ""
      && smsWebhookUrl == ""
    }

    lemma DefaultValues()
      requires ServerDefaults() && ModemDefaults() && ScheduleDefaults() && MailDefaults()
      ensures Values() == Defaults()
    {}

    /** `config_defaults`. */
    method SetDefaults()
      modifies this
      ensures Values() == Defaults()
    {
      hide Values, Get;
      SetServerDefaults();
      SetModemDefaults();
      SetScheduleDefaults();
      SetMailDefaults();
      DefaultValues();
    }

    method SetServerDefaults()
      modifies `listenHost, `listenPort, `dbPath, `profilePath, `activeProfile, `ofonoBackend, `ofonoDestination
      ensures ServerDefaults()
    {
      listenHost := "0.0.0.0";
      listenPort := 4242;
      dbPath := "./data/cellmgr.db";
      profilePath := "./profiles/fm650.json";
      activeProfile := "fibocom-fm650";
      ofonoBackend := "dbus-send";
      ofonoDestination := "org.ofono";
    }

    method SetModemDefaults()
      modifies `ofonoModemPath, `atBackend, `atTimeoutMs, `authEnabled, `authUser, `authPass, `allowDangerousAt
      ensures ModemDefaults()
    {
      ofonoModemPath := "/ril_0";
      atBackend := "ofono-sendatcmd";
      atTimeoutMs := 3000;
      authEnabled := 0;
      authUser := "admin";
      authPass := "admin";
      allowDangerousAt := 0;
    }

    method SetScheduleDefaults()
      modifies `wanIface, `sampleIntervalMs, `scheduledRebootEnabled, `scheduledRebootHour
      modifies `scheduledRebootMinute, `smsForwardEnabled, `smsForwardMode
      ensures ScheduleDefaults()
    {
      wanIface := "rmnet_data0";
      sampleIntervalMs := 1000;
      scheduledRebootEnabled := 0;
      scheduledRebootHour := 3;
      scheduledRebootMinute := 30;
      smsForwardEnabled := 0;
      smsForwardMode := "smtp";
    }

    method SetMailDefaults()
      modifies `smtpHost, `smtpPort, `smtpUser, `smtpPass, `smtpFrom, `smtpTo, `smsWebhookUrl
      ensures MailDefaults()
    {
      smtpHost := "";
      smtpPort := 25;
      smtpUser := "";
      smtpPass := "";
      smtpFrom := "";
      smtpTo := "";
      smsWebhookUrl := "";
    }

    /** `set_key`. */
    method SetKey(key: string, value: string)
      modifies this
      ensures Values() == SetKeyed(old(Values()), key, value)
    {
      hide SettingOf, Name, NoneBefore, Atoi, Values, Get, Stored, FitsSetting;
      Names1();
      NumbersStored(value);
      if key == "listen_host" {
        Hit(ListenHost, key);
        CopyText(ListenHost, value);
      } else if key == "listen_port" {
        Hit(ListenPort, key);
        SetNumber(ListenPort, Atoi(value));
      } else if key == "db_path" {
        Hit(DbPath, key);
        CopyText(DbPath, value);
      } else if key == "profile_path" {
        Hit(ProfilePath, key);
        CopyText(ProfilePath, value);
      } else if key == "active_profile" {
        Hit(ActiveProfile, key);
        CopyText(ActiveProfile, value);
      } else if key == "ofono_backend" {
        Hit(OfonoBackend, key);
        CopyText(OfonoBackend, value);
      } else if key == "ofono_destination" {
        Hit(OfonoDestination, key);
        CopyText(OfonoDestination, value);
      } else {
        Passed1(key);
        SetKey2(key, value);
      }
    }

    method SetKey2(key: string, value: string)
      requires NoneBefore(key, 7)
      modifies this
      ensures Values() == SetKeyed(old(Values()), key, value)
    {
      hide SettingOf, Name, NoneBefore, Atoi, Values, Get, Stored, FitsSetting;
      Names2();
      NumbersStored(value);
      if key == "ofono_modem_path" {
        Hit(OfonoModemPath, key);
        CopyText(OfonoModemPath, value);
      } else if key == "at_backend" {
        Hit(AtBackend, key);
        CopyText(AtBackend, value);
      } else if key == "at_timeout_ms" {
        Hit(AtTimeoutMs, key);
        SetNumber(AtTimeoutMs, Atoi(value));
      } else if key == "auth_enabled" {
        Hit(AuthEnabled, key);
        SetNumber(AuthEnabled, Atoi(value));
      } else if key == "auth_user" {
        Hit(AuthUser, key);
        CopyText(AuthUser, value);
      } else if key == "auth_pass" {
        Hit(AuthPass, key);
        CopyText(AuthPass, value);
      } else if key == "allow_dangerous_at" {
        Hit(AllowDangerousAt, key);
        SetNumber(AllowDangerousAt, Atoi(value));
      } else {
        Passed2(key);
        SetKey3(key, value);
      }
    }

    method SetKey3(key: string, value: string)
      requires NoneBefore(key, 14)
      modifies this
      ensures Values() == SetKeyed(old(Values()), key, value)
    {
      hide SettingOf, Name, NoneBefore, Atoi, Values, Get, Stored, FitsSetting;
      Names3();
      NumbersStored(value);
      if key == "wan_iface" {
        Hit(WanIface, key);
        CopyText(WanIface, value);
      } else if key == "sample_interval_ms" {
        Hit(SampleIntervalMs, key);
        SetNumber(SampleIntervalMs, Atoi(value));
      } else if key == "scheduled_reboot_enabled" {
        Hit(ScheduledRebootEnabled, key);
        SetNumber(ScheduledRebootEnabled, Atoi(value));
      } else if key == "scheduled_reboot_hour" {
        Hit(ScheduledRebootHour, key);
        SetNumber(ScheduledRebootHour, Atoi(value));
      } else if key == "scheduled_reboot_minute" {
        Hit(ScheduledRebootMinute, key);
        SetNumber(ScheduledRebootMinute, Atoi(value));
      } else if key == "sms_forward_enabled" {
        Hit(SmsForwardEnabled, key);
        SetNumber(SmsForwardEnabled, Atoi(value));
      } else if key == "sms_forward_mode" {
        Hit(SmsForwardMode, key);
        CopyText(SmsForwardMode, value);
      } else {
        Passed3(key);
        SetKey4(key, value);
      }
    }

    method SetKey4(key: string, value: string)
      requires NoneBefore(key, 21)
      modifies this
      ensures Values() == SetKeyed(old(Values()), key, value)
    {
      hide SettingOf, Name, NoneBefore, Atoi, Values, Get, Stored, FitsSetting;
      Names4();
      NumbersStored(value);
      if key == "smtp_host" {
        Hit(SmtpHost, key);
        CopyText(SmtpHost, value);
      } else if key == "smtp_port" {
        Hit(SmtpPort, key);
        SetNumber(SmtpPort, Atoi(value));
      } else if key == "smtp_user" {
        Hit(SmtpUser, key);
        CopyText(SmtpUser, value);
      } else if key == "smtp_pass" {
        Hit(SmtpPass, key);
        CopyText(SmtpPass, value);
      } else if key == "smtp_from" {
        Hit(SmtpFrom, key);
        CopyText(SmtpFrom, value);
      } else if key == "smtp_to" {
        Hit(SmtpTo, key);
        CopyText(SmtpTo, value);
      } else if key == "sms_webhook_url" {
        Hit(SmsWebhookUrl, key);
        CopyText(SmsWebhookUrl, value);
      } else {
        Passed4(key);
        Miss(key);
      }
    }

    function TextOf(f: Setting): (s: string)
      requires Capacity(f).Some?
      reads this
      ensures Get(f) == Text(s)
    {
      match f
      case ListenHost => listenHost
      case DbPath => dbPath
      case ProfilePath => profilePath
      case ActiveProfile => activeProfile
      case OfonoBackend => ofonoBackend
      case OfonoDestination => ofonoDestination
      case OfonoModemPath => ofonoModemPath
      case AtBackend => atBackend
      case AuthUser => authUser
      case AuthPass => authPass
      case WanIface => wanIface
      case SmsForwardMode => smsForwardMode
      case SmtpHost => smtpHost
      case SmtpUser => smtpUser
      case SmtpPass => smtpPass
      case SmtpFrom => smtpFrom
      case SmtpTo => smtpTo
      case SmsWebhookUrl => smsWebhookUrl
    }

    function NumberOf(f: Setting): (n: int)
      requires Capacity(f).None?
      reads this
      ensures Get(f) == Number(n)
    {
      match f
      case ListenPort => listenPort
      case AtTimeoutMs => atTimeoutMs
      case AuthEnabled => authEnabled
      case AllowDangerousAt => allowDangerousAt
      case SampleIntervalMs => sampleIntervalMs
      case ScheduledRebootEnabled => scheduledRebootEnabled
      case ScheduledRebootHour => scheduledRebootHour
      case ScheduledRebootMinute => scheduledRebootMinute
      case SmsForwardEnabled => smsForwardEnabled
      case SmtpPort => smtpPort
    }

    /** `copy_value`, or `snprintf` with `%s`, into one of the arrays. */
    method CopyText(f: Setting, s: string)
      requires Capacity(f).Some?
      modifies this
      ensures Values() == old(Values())[f := Stored(f, s)]
    {
      hide Stored, Get, Capacity;
      ghost var before := Values();
      AssignText(f, s);
      OneUpdate(before, f, Stored(f, s));
    }

    method AssignText(f: Setting, s: string)
      requires Capacity(f).Some?
      modifies this
      ensures forall g: Setting :: Get(g) == if g == f then Stored(f, s) else old(Get(g))
    {
      var t := Take(s, Capacity(f).value);
      if Place(f) < 11 {
        AssignConnectionText(f, t);
      } else {
        AssignServiceText(f, t);
      }
    }

    method AssignConnectionText(f: Setting, t: string)
      requires Capacity(f).Some? && Place(f) < 11
      modifies this
      ensures forall g: Setting :: Get(g) == if g == f then Text(t) else old(Get(g))
    {
      match f {
        case ListenHost => listenHost := t;
        case DbPath => dbPath := t;
        case ProfilePath => profilePath := t;
        case ActiveProfile => activeProfile := t;
        case OfonoBackend => ofonoBackend := t;
        case OfonoDestination => ofonoDestination := t;
        case OfonoModemPath => ofonoModemPath := t;
        case AtBackend => atBackend := t;
      }
    }

    method AssignServiceText(f: Setting, t: string)
      requires Capacity(f).Some? && Place(f) >= 11
      modifies this
      ensures forall g: Setting :: Get(g) == if g == f then Text(t) else old(Get(g))
    {
      match f {
        case AuthUser => authUser := t;
        case AuthPass => authPass := t;
        case WanIface => wanIface := t;
        case SmsForwardMode => smsForwardMode := t;
        case SmtpHost => smtpHost := t;
        case SmtpUser => smtpUser := t;
        case SmtpPass => smtpPass := t;
        case SmtpFrom => smtpFrom := t;
        case SmtpTo => smtpTo := t;
        case SmsWebhookUrl => smsWebhookUrl := t;
      }
    }

    method SetNumber(f: Setting, n: int)
      requires Capacity(f).None?
      modifies this
      ensures Values() == old(Values())[f := Number(n)]
    {
      hide Get, Capacity;
      ghost var before := Values();
      AssignNumber(f, n);
      OneUpdate(before, f, Number(n));
    }

    method AssignNumber(f: Setting, n: int)
      requires Capacity(f).None?
      modifies this
      ensures forall g: Setting :: Get(g) == if g == f then Number(n) else old(Get(g))
    {
      match f {
        case ListenPort => listenPort := n;
        case AtTimeoutMs => atTimeoutMs := n;
        case AuthEnabled => authEnabled := n;
        case AllowDangerousAt => allowDangerousAt := n;
        case SampleIntervalMs => sampleIntervalMs := n;
        case ScheduledRebootEnabled => scheduledRebootEnabled := n;
        case ScheduledRebootHour => scheduledRebootHour := n;
        case ScheduledRebootMinute => scheduledRebootMinute := n;
        case SmsForwardEnabled => smsForwardEnabled := n;
        case SmtpPort => smtpPort := n;
      }
    }

    /** Seen as a map, an assignment to a field is one update. */
    lemma OneUpdate(before: Settings, f: Setting, v: Value)
      requires forall g: Setting :: g in before && Get(g) == if g == f then v else before[g]
      ensures Values() == before[f := v]
    {
      hide Get;
    }
  }

  // ---------- config_load ----------

  /** How many bytes `fgets` reads: up to a newline, and at most 511. */
  function ChunkLength(text: string): (n: nat)
    requires text != ""
    ensures 0 < n <= |text| && n <= 511
  {
    var n := Span(text, c => c != '\n');
    var m := if n < |text| then n + 1 else n;
    if m <= 511 then m else 511
  }

  /** The pieces in which the file is read. */
  function Chunks(text: string): seq<string>
    decreases |text|
  {
    if text == "" then [] else
    var n := ChunkLength(text);
    [text[..n]] + Chunks(text[n..])
  }

  /** The effect of a trimmed line: comments and lines without `=` have none. */
  ghost function TrimmedEffect(c: Settings, t: string): Settings {
    if t == "" || t[0] == '#' then c else
    var eq := Span(t, c => c != '=');
    if eq == |t| then c else SetKeyed(c, Trim(t[..eq]), Trim(t[eq + 1..]))
  }

  ghost function Effects(c: Settings, chunks: seq<string>): Settings
    decreases |chunks|
  {
    if chunks == [] then c else Effects(TrimmedEffect(c, Trim(chunks[0])), chunks[1..])
  }

  /** Values that the daemon cannot run with are replaced. */
  ghost function Repaired(c: Settings): Settings
    requires ListenPort in c && AtTimeoutMs in c && c[ListenPort].Number? && c[AtTimeoutMs].Number?
  {
    var d := if c[ListenPort].n <= 0 || c[ListenPort].n > 65535 then c[ListenPort := Number(DEFAULT_PORT)] else c;
    if c[AtTimeoutMs].n <= 0 then d[AtTimeoutMs := Number(DEFAULT_TIMEOUT)] else d
  }

  ghost function Loaded(file: Option<string>): Settings {
    match file
    case None => Defaults()
    case Some(text) =>
      DefaultsComplete();
      EffectsComplete(Defaults(), Chunks(text));
      Repaired(Effects(Defaults(), Chunks(text)))
  }

  lemma DefaultsComplete()
    ensures Complete(Defaults())
  {}

  lemma SetKeyedComplete(c: Settings, key: string, text: string)
    requires Complete(c)
    ensures Complete(SetKeyed(c, key, text))
  {
    hide Stored, FitsSetting, SettingOf;
    match SettingOf(key)
    case Some(f) => StoredFits(f, text);
    case None =>
  }

  lemma {:induction false} EffectsComplete(c: Settings, chunks: seq<string>)
    requires Complete(c)
    ensures Complete(Effects(c, chunks))
    ensures forall f: Setting | Capacity(f).None? :: f in Effects(c, chunks) && Effects(c, chunks)[f].Number?
    decreases |chunks|
  {
    hide TrimmedEffect, Trim;
    if chunks != [] {
      EffectComplete(c, Trim(chunks[0]));
      EffectsComplete(TrimmedEffect(c, Trim(chunks[0])), chunks[1..]);
    } else {
      NumbersComplete(c);
    }
  }

  lemma NumbersComplete(c: Settings)
    requires Complete(c)
    ensures forall f: Setting | Capacity(f).None? :: f in c && c[f].Number?
  {}

  lemma EffectComplete(c: Settings, t: string)
    requires Complete(c)
    ensures Complete(TrimmedEffect(c, t))
  {
    hide SetKeyed, Trim;
    var eq := Span(t, c => c != '=');
    if eq < |t| {
      SetKeyedComplete(c, Trim(t[..eq]), Trim(t[eq + 1..]));
    }
  }

  /** `fgets`: the next piece of the file in the line buffer. */
  method FGets(line: array<char>, text: string) returns (n: nat)
    requires line.Length == 512 && text != "" && NulFree(text)
    modifies line
    ensures n == ChunkLength(text) && Stores(line, 0, text[..n])
  {
    n := 0;
    var more := true;
    while more && n < |text| && n < 511
      invariant n <= |text| && n <= 511
      invariant line[..n] == text[..n]
      invariant forall i: nat | i + 1 < n :: text[i] != '\n'
      invariant more <==> (n == 0 || text[n - 1] != '\n')
    {
      line[n] := text[n];
      more := text[n] != '\n';
      n := n + 1;
    }
    line[n] := '\0';
    assert line[0..n] == line[..n];
    ChunkEnds(text, n);
  }

  lemma ChunkEnds(text: string, n: nat)
    requires 0 < n <= |text| && n <= 511
    requires forall i: nat | i + 1 < n :: text[i] != '\n'
    requires text[n - 1] == '\n' || n == |text| || n == 511
    ensures ChunkLength(text) == n
  {
    if text[n - 1] == '\n' {
      SpanUnique(text, c => c != '\n', n - 1);
    } else if n == |text| {
      SpanUnique(text, c => c != '\n', n);
    } else {
      assert Span(text, c => c != '\n') >= n;
    }
  }

  /** One line of the file: the body of the loop. */
  method HandleLine(cfg: AppConfig, line: array<char>, ghost text: string)
    requires Stores(line, 0, text)
    modifies cfg, line
    ensures cfg.Values() == TrimmedEffect(old(cfg.Values()), Trim(text))
  {
    hide SetKeyed, Trim;
    TrimInPlace(line, 0, text);
    ghost var t := Trim(text);
    assert line[0..|t|] == t;
    assert t != "" ==> line[0] == t[0];
    if line[0] == '\0' || line[0] == '#' {
      return;
    }
    var eq := 0;
    while line[eq] != '\0' && line[eq] != '='
      invariant eq <= |t|
      invariant forall i: nat | i < eq :: t[i] != '='
      decreases |t| - eq
    {
      assert line[eq] == t[eq];
      eq := eq + 1;
    }
    assert eq < |t| ==> line[eq] == t[eq];
    SpanUnique(t, c => c != '=', eq);
    if line[eq] == '\0' {
      return;
    }
    var key, value := SplitLine(line, t, eq);
    cfg.SetKey(key, value);
  }

  /** The line is cut at its first `=`, and both parts are trimmed. */
  method SplitLine(line: array<char>, ghost t: string, eq: nat) returns (key: string, value: string)
    requires Stores(line, 0, t) && eq < |t|
    modifies line
    ensures key == Trim(t[..eq]) && value == Trim(t[eq + 1..])
  {
    hide Trim;
    ghost var left, right := t[..eq], t[eq + 1..];
    assert line[0..eq] == line[0..|t|][..eq] && line[eq + 1..|t|] == line[0..|t|][eq + 1..];
    line[eq] := '\0';
    assert line[0..eq] == left && line[eq + 1..eq + 1 + |right|] == right;
    TrimInPlace(line, 0, left);
    assert line[eq + 1..eq + 1 + |right|] == right;
    ghost var name := Trim(left);
    TrimShorter(left);
    ghost var before := line[0..eq + 1];
    assert before[..|name|] == line[0..|name|] && before[|name|] == '\0';
    TrimInPlace(line, eq + 1, right);
    assert line[0..eq + 1] == before;
    assert line[0..|name|] == line[0..eq + 1][..|name|] && line[|name|] == line[0..eq + 1][|name|];
    key := ReadString(line, 0, name);
    value := ReadString(line, eq + 1, Trim(right));
  }

  lemma TrimShorter(s: string)
    ensures |Trim(s)| <= |s|
  {}

  /** `config_load`. */
  method ConfigLoad(cfg: AppConfig, file: Option<string>) returns (r: int)
    requires file.Some? ==> NulFree(file.value)
    modifies cfg
    ensures cfg.Values() == Loaded(file) && r == if file.Some? then 0 else -1
  {
    hide TrimmedEffect, Trim, ChunkLength;
    cfg.SetDefaults();
    if file.None? {
      return -1;
    }
    var text := file.value;
    var line := new char[512];
    var pos := 0;
    assert text[0..] == text;
    while pos < |text|
      invariant pos <= |text|
      invariant Effects(cfg.Values(), Chunks(text[pos..])) == Effects(Defaults(), Chunks(text))
      decreases |text| - pos
    {
      var n := FGets(line, text[pos..]);
      HandleLine(cfg, line, text[pos..][..n]);
      assert text[pos..][n..] == text[pos + n..];
      pos := pos + n;
    }
    DefaultsComplete();
    EffectsComplete(Defaults(), Chunks(text));
    Repair(cfg);
    r := 0;
  }

  method Repair(cfg: AppConfig)
    modifies cfg
    ensures cfg.Values() == Repaired(old(cfg.Values()))
  {
    if cfg.listenPort <= 0 || cfg.listenPort > 65535 {
      cfg.listenPort := DEFAULT_PORT;
    }
    if cfg.atTimeoutMs <= 0 {
      cfg.atTimeoutMs := DEFAULT_TIMEOUT;
    }
  }
}
