/** src/config.h: the fields of the configuration, and the keys that name them. */
module ConfigKeys {
  import opened CStrings

  datatype Setting =
    | ListenHost | ListenPort | DbPath | ProfilePath | ActiveProfile | OfonoBackend | OfonoDestination
    | OfonoModemPath | AtBackend | AtTimeoutMs | AuthEnabled | AuthUser | AuthPass | AllowDangerousAt
    | WanIface | SampleIntervalMs | ScheduledRebootEnabled | ScheduledRebootHour | ScheduledRebootMinute
    | SmsForwardEnabled | SmsForwardMode | SmtpHost | SmtpPort | SmtpUser | SmtpPass | SmtpFrom | SmtpTo
    | SmsWebhookUrl

  datatype Value = Text(s: string) | Number(n: int)

  /** Bytes that the array of a text field holds besides the NUL; `None` for an `int`. */
  function Capacity(f: Setting): Option<nat> {
    match f
    case ListenHost | OfonoBackend | AtBackend | AuthUser | WanIface => Some(63)
    case ActiveProfile | OfonoDestination | OfonoModemPath | AuthPass |
         SmtpHost | SmtpUser | SmtpPass | SmtpFrom | SmtpTo => Some(127)
    case DbPath | ProfilePath | SmsWebhookUrl => Some(255)
    case SmsForwardMode => Some(31)
    case _ => None
  }

  /** The key of a field in the configuration file. */
  function Name(f: Setting): string {
    match f
    case ListenHost => "listen_host"
    case ListenPort => "listen_port"
    case DbPath => "db_path"
    case ProfilePath => "profile_path"
    case ActiveProfile => "active_profile"
    case OfonoBackend => "ofono_backend"
    case OfonoDestination => "ofono_destination"
    case OfonoModemPath => "ofono_modem_path"
    case AtBackend => "at_backend"
    case AtTimeoutMs => "at_timeout_ms"
    case AuthEnabled => "auth_enabled"
    case AuthUser => "auth_user"
    case AuthPass => "auth_pass"
    case AllowDangerousAt => "allow_dangerous_at"
    case WanIface => "wan_iface"
    case SampleIntervalMs => "sample_interval_ms"
    case ScheduledRebootEnabled => "scheduled_reboot_enabled"
    case ScheduledRebootHour => "scheduled_reboot_hour"
    case ScheduledRebootMinute => "scheduled_reboot_minute"
    case SmsForwardEnabled => "sms_forward_enabled"
    case SmsForwardMode => "sms_forward_mode"
    case SmtpHost => "smtp_host"
    case SmtpPort => "smtp_port"
    case SmtpUser => "smtp_user"
    case SmtpPass => "smtp_pass"
    case SmtpFrom => "smtp_from"
    case SmtpTo => "smtp_to"
    case SmsWebhookUrl => "sms_webhook_url"
  }

  /** What `set_key` stores in a field for a text. */
  function Stored(f: Setting, text: string): Value {
    match Capacity(f)
    case Some(n) => Text(Take(text, n))
    case None => Number(Atoi(text))
  }

  /** The text of a value: `%s` and `%d`. */
  function ValueText(v: Value): string {
    match v
    case Text(s) => s
    case Number(n) => Dec(n)
  }

  /** Values that a field can hold. */
  predicate FitsSetting(f: Setting, v: Value) {
    match Capacity(f)
    case Some(n) => v.Text? && |v.s| <= n
    case None => v.Number? && IsInt(v.n)
  }

  /** Printing a value of a field and storing the text again changes nothing. */
  lemma StoredText(f: Setting, v: Value)
    requires FitsSetting(f, v)
    ensures Stored(f, ValueText(v)) == v
  {
    if v.Number? {
      AtoiDec(v.n, "");
      assert Dec(v.n) + "" == Dec(v.n);
    }
  }

  lemma StoredFits(f: Setting, text: string)
    ensures FitsSetting(f, Stored(f, text))
  {}

  /** The values of all fields. */
  type Settings = map<Setting, Value>

  ghost predicate Complete(c: Settings) {
    forall f: Setting :: f in c && FitsSetting(f, c[f])
  }

  /** Part of a key that no two keys share. */
  function Mark(s: string): (int, char, char, char)
    requires |s| >= 7
  {
    (|s|, s[|s| - 6], s[|s| - 4], s[|s| - 3])
  }

  function SettingMark(f: Setting): (int, char, char, char) {
    match f
    case ListenHost => (11, 'n', 'h', 'o')
    case ListenPort => (11, 'n', 'p', 'o')
    case DbPath => (7, 'b', 'p', 'a')
    case ProfilePath => (12, 'e', 'p', 'a')
    case ActiveProfile => (14, 'r', 'f', 'i')
    case OfonoBackend => (13, 'a', 'k', 'e')
    case OfonoDestination => (17, 'n', 't', 'i')
    case OfonoModemPath => (16, 'm', 'p', 'a')
    case AtBackend => (10, 'a', 'k', 'e')
    case AtTimeoutMs => (13, 'o', 't', '_')
    case AuthEnabled => (12, 'n', 'b', 'l')
    case AuthUser => (9, 'h', 'u', 's')
    case AuthPass => (9, 'h', 'p', 'a')
    case AllowDangerousAt => (18, 'o', 's', '_')
    case WanIface => (9, '_', 'f', 'a')
    case SampleIntervalMs => (18, 'v', 'l', '_')
    case ScheduledRebootEnabled => (24, 'n', 'b', 'l')
    case ScheduledRebootHour => (21, 't', 'h', 'o')
    case ScheduledRebootMinute => (23, 'm', 'n', 'u')
    case SmsForwardEnabled => (19, 'n', 'b', 'l')
    case SmsForwardMode => (16, 'd', 'm', 'o')
    case SmtpHost => (9, 'p', 'h', 'o')
    case SmtpPort => (9, 'p', 'p', 'o')
    case SmtpUser => (9, 'p', 'u', 's')
    case SmtpPass => (9, 'p', 'p', 'a')
    case SmtpFrom => (9, 'p', 'f', 'r')
    case SmtpTo => (7, 'm', 'p', '_')
    case SmsWebhookUrl => (15, 'o', '_', 'u')
  }

  predicate Marked(f: Setting) {
    |Name(f)| >= 7 && Mark(Name(f)) == SettingMark(f)
  }

  lemma NameMarked(f: Setting)
    ensures Marked(f)
  {
    hide Marked;
    if Capacity(f).Some? {
      TextMarked(f);
    } else {
      NumberMarked(f);
    }
  }

  lemma TextMarked(f: Setting)
    requires Capacity(f).Some?
    ensures Marked(f)
  {}

  lemma NumberMarked(f: Setting)
    requires Capacity(f).None?
    ensures Marked(f)
  {}

  lemma NameShort(f: Setting)
    ensures |Name(f)| <= 24
  {}

  lemma MarksDiffer(f: Setting, g: Setting)
    requires SettingMark(f) == SettingMark(g)
    ensures f == g
  {}

  /** The field that a key names. */
  ghost function SettingOf(key: string): (r: Option<Setting>)
    ensures r.Some? ==> Name(r.value) == key
    ensures r.None? ==> forall f: Setting :: Name(f) != key
  {
    if exists f: Setting :: Name(f) == key then
      var f: Setting :| Name(f) == key;
      Some(f)
    else
      None
  }

  lemma SettingOfName(f: Setting)
    ensures SettingOf(Name(f)) == Some(f)
  {
    hide Name, SettingMark;
    var r := SettingOf(Name(f));
    if r.Some? {
      NameMarked(f);
      NameMarked(r.value);
      MarksDiffer(f, r.value);
    }
  }

  /** The configuration after a line that assigns `text` to `key`. */
  ghost function SetKeyed(c: Settings, key: string, text: string): Settings {
    match SettingOf(key)
    case Some(f) => c[f := Stored(f, text)]
    case None => c
  }
}
