/** Configuration files: which line decides a field, and printing a configuration before loading it. */
module ConfigFile {
  import opened CStrings
  import opened ConfigKeys
  import opened Config

  // ---------- any file: the last line decides ----------

  /** The field and the text that a trimmed line assigns. */
  ghost function Assigns(t: string): Option<(Setting, string)> {
    if t == "" || t[0] == '#' then None else
    var eq := Span(t, c => c != '=');
    if eq == |t| then None else
    match SettingOf(Trim(t[..eq]))
    case None => None
    case Some(f) => Some((f, Trim(t[eq + 1..])))
  }

  /** The text assigned to a field by the last of the lines that assign to it. */
  ghost function LastText(chunks: seq<string>, f: Setting): Option<string>
    decreases |chunks|
  {
    if chunks == [] then None else
    match Assigns(Trim(chunks[|chunks| - 1]))
    case Some(a) => if a.0 == f then Some(a.1) else LastText(chunks[..|chunks| - 1], f)
    case None => LastText(chunks[..|chunks| - 1], f)
  }

  lemma EffectIs(c: Settings, t: string)
    ensures TrimmedEffect(c, t) == match Assigns(t) case None => c case Some(a) => c[a.0 := Stored(a.0, a.1)]
  {
    hide Stored, Trim;
  }

  lemma {:induction false} EffectsSnoc(c: Settings, chunks: seq<string>, last: string)
    ensures Effects(c, chunks + [last]) == TrimmedEffect(Effects(c, chunks), Trim(last))
    decreases |chunks|
  {
    hide TrimmedEffect, Trim;
    if chunks == [] {
      assert [] + [last] == [last] && [last][1..] == [];
    } else {
      assert (chunks + [last])[1..] == chunks[1..] + [last];
      EffectsSnoc(TrimmedEffect(c, Trim(chunks[0])), chunks[1..], last);
    }
  }

  /** The fold over the lines keeps, for each field, what the last line for it says. */
  lemma {:induction false} LastLineWins(c: Settings, chunks: seq<string>, f: Setting)
    requires Complete(c)
    ensures f in Effects(c, chunks)
    ensures Effects(c, chunks)[f] == match LastText(chunks, f) case None => c[f] case Some(s) => Stored(f, s)
    decreases |chunks|
  {
    hide Stored, Assigns, Trim, FitsSetting;
    if chunks != [] {
      var before, last := chunks[..|chunks| - 1], chunks[|chunks| - 1];
      assert chunks == before + [last];
      EffectsSnoc(c, before, last);
      LastLineWins(c, before, f);
      EffectIs(Effects(c, before), Trim(last));
    }
  }

  /** What a field holds after loading: what its last line assigns, or its default; a port outside 1..65535 becomes
      4242 and a timeout that is not positive 3000. */
  lemma FieldLoaded(text: string, f: Setting)
    ensures var v := match LastText(Chunks(text), f) case None => Default(f) case Some(s) => Stored(f, s);
      && f in Loaded(Some(text))
      && Loaded(Some(text))[f] ==
         if f == ListenPort && !(v.Number? && 1 <= v.n <= 65535) then Number(4242)
         else if f == AtTimeoutMs && !(v.Number? && 1 <= v.n) then Number(3000)
         else v
  {
    hide LastText, Effects, Chunks, Default, Atoi;
    DefaultsComplete();
    EffectsComplete(Defaults(), Chunks(text));
    LastLineWins(Defaults(), Chunks(text), f);
  }

  /** Without a file, the daemon listens on all addresses, talks to oFono through dbus-send and asks for no login. */
  lemma ConnectionWithoutFile()
    ensures var c := Loaded(None);
      && c[ListenHost] == Text("0.0.0.0") && c[ListenPort] == Number(4242)
      && c[DbPath] == Text("./data/cellmgr.db") && c[ProfilePath] == Text("./profiles/fm650.json")
      && c[ActiveProfile] == Text("fibocom-fm650") && c[OfonoBackend] == Text("dbus-send")
      && c[OfonoDestination] == Text("org.ofono") && c[OfonoModemPath] == Text("/ril_0")
      && c[AtBackend] == Text("ofono-sendatcmd") && c[AtTimeoutMs] == Number(3000)
  {}

  lemma AccessWithoutFile()
    ensures var c := Loaded(None);
      && c[AuthEnabled] == Number(0) && c[AuthUser] == Text("admin") && c[AuthPass] == Text("admin")
      && c[AllowDangerousAt] == Number(0) && c[WanIface] == Text("rmnet_data0") && c[SampleIntervalMs] == Number(1000)
  {
    hide Complete;
  }

  lemma JobsWithoutFile()
    ensures var c := Loaded(None);
      && c[ScheduledRebootEnabled] == Number(0) && c[ScheduledRebootHour] == Number(3)
      && c[ScheduledRebootMinute] == Number(30) && c[SmsForwardEnabled] == Number(0)
      && c[SmsForwardMode] == Text("smtp") && c[SmtpPort] == Number(25)
  {
    hide Complete;
  }

  lemma MailWithoutFile(f: Setting)
    requires f in {SmtpHost, SmtpUser, SmtpPass, SmtpFrom, SmtpTo, SmsWebhookUrl}
    ensures Loaded(None)[f] == Text("")
  {
    hide Complete;
  }

  // ---------- a printed configuration ----------

  datatype Assignment = Assignment(f: Setting, text: string)

  function LineText(a: Assignment): string {
    Name(a.f) + ("=" + a.text)
  }

  function FileText(lines: seq<Assignment>): string {
    if lines == [] then "" else LineText(lines[0]) + ("\n" + FileText(lines[1..]))
  }

  predicate OneLine(s: string) {
    forall i: nat | i < |s| :: s[i] != '\n'
  }

  /** A line that one call of `fgets` reads. */
  predicate IsLine(a: Assignment) {
    OneLine(a.text) && |LineText(a)| <= 510
  }

  predicate IsKeyChar(c: char) {
    'a' <= c <= 'z' || c == '_'
  }

  ghost predicate IsKey(s: string) {
    s != "" && forall i: nat | i < |s| :: IsKeyChar(s[i])
  }

  lemma NameChars1(f: Setting)
    requires 0 <= Place(f) < 7
    ensures IsKey(Name(f))
  {}

  lemma NameChars2(f: Setting)
    requires 7 <= Place(f) < 14
    ensures IsKey(Name(f))
  {}

  lemma NameChars3(f: Setting)
    requires 14 <= Place(f) < 18
    ensures IsKey(Name(f))
  {}

  lemma NameChars5(f: Setting)
    requires 18 <= Place(f) < 21
    ensures IsKey(Name(f))
  {}

  lemma NameChars4(f: Setting)
    requires 21 <= Place(f) < 28
    ensures IsKey(Name(f))
  {}

  lemma NameChars(f: Setting)
    ensures IsKey(Name(f))
  {
    hide Name, IsKey;
    if Place(f) < 7 {
      NameChars1(f);
    } else if Place(f) < 14 {
      NameChars2(f);
    } else if Place(f) < 18 {
      NameChars3(f);
    } else if Place(f) < 21 {
      NameChars5(f);
    } else {
      NameChars4(f);
    }
  }

  lemma TrimTrimmed(s: string)
    requires Trimmed(s)
    ensures Trim(s) == s
  {
    if s == "" {
      TrimBlank(s);
    } else {
      TrimPadded("", s, "");
      assert "" + s + "" == s;
    }
  }

  lemma {:induction false} TrimRightParts(s: string) returns (right: string)
    ensures s == TrimRight(s) + right && AllBlank(right)
  {
    if s == "" || !IsBlank(s[|s| - 1]) {
      right := "";
    } else {
      var r := TrimRightParts(s[..|s| - 1]);
      right := r + [s[|s| - 1]];
      assert s == s[..|s| - 1] + [s[|s| - 1]];
    }
  }

  /** Trimming cuts blanks off both ends. */
  lemma TrimParts(s: string) returns (left: string, right: string)
    ensures s == left + Trim(s) + right && AllBlank(left) && AllBlank(right) && Trimmed(Trim(s))
  {
    left := s[..Span(s, IsBlank)];
    right := TrimRightParts(TrimLeft(s));
    assert s == left + TrimLeft(s);
    assert forall c | c in left :: exists i: nat :: i < |left| && c == left[i] == s[i];
  }

  /** What reading the line of an assignment assigns. */
  lemma LineAssigns(a: Assignment)
    ensures Assigns(Trim(LineText(a) + "\n")) == Some((a.f, Trim(a.text)))
  {
    hide Name, Trim, SettingOf, IsBlank;
    var name := Name(a.f);
    var left, right := TrimParts(a.text);
    var core := Trim(a.text);
    NameChars(a.f);
    var kept := if core == "" then "" else left + core;
    var dropped := if core == "" then left + right else right;
    var t := name + ("=" + kept);
    LineTrimmed(name, left, core, kept);
    assert LineText(a) + "\n" == "" + t + (dropped + "\n");
    BlankEnd(left, right);
    TrimPadded("", t, dropped + "\n");
    NameBare(name);
    SpanUnique(t, c => c != '=', |name|);
    assert t[..|name|] == name && t[|name| + 1..] == kept;
    TrimTrimmed(name);
    if core == "" {
      TrimTrimmed("");
    } else {
      TrimPadded(left, core, "");
      assert left + core + "" == left + core;
    }
    SettingOfName(a.f);
  }

  lemma BlankEnd(left: string, right: string)
    requires AllBlank(left) && AllBlank(right)
    ensures AllBlank(right + "\n") && AllBlank(left + right + "\n") && AllBlank("")
  {}

  lemma NameBare(name: string)
    requires IsKey(name)
    ensures Trimmed(name) && name[0] != '#' && forall i: nat | i < |name| :: name[i] != '='
  {}

  lemma LineTrimmed(name: string, left: string, core: string, kept: string)
    requires IsKey(name) && Trimmed(core) && kept == if core == "" then "" else left + core
    ensures var t := name + ("=" + kept); Trimmed(t) && t != "" && t[0] == name[0]
  {
    var t := name + ("=" + kept);
    assert t[|t| - 1] == if core == "" then '=' else core[|core| - 1];
  }

  lemma LineBare(a: Assignment)
    requires IsLine(a)
    ensures OneLine(LineText(a))
  {
    hide Name;
    NameChars(a.f);
    var name, t := Name(a.f), LineText(a);
    forall i: nat | i < |t| ensures t[i] != '\n' {
      if i < |name| {
        assert t[i] == name[i];
      } else if i > |name| {
        assert t[i] == a.text[i - |name| - 1];
      }
    }
  }

  lemma FirstChunk(a: Assignment, rest: string)
    requires IsLine(a)
    ensures LineText(a) + ("\n" + rest) != ""
    ensures Chunks(LineText(a) + ("\n" + rest)) == [LineText(a) + "\n"] + Chunks(rest)
  {
    LineBare(a);
    hide LineText;
    var t := LineText(a);
    var s := t + ("\n" + rest);
    SpanUnique(s, c => c != '\n', |t|);
    assert s[..|t| + 1] == t + "\n" && s[|t| + 1..] == rest;
  }

  function Padded(lines: seq<Assignment>): (ts: seq<string>)
    ensures |ts| == |lines|
  {
    seq(|lines|, i requires 0 <= i < |lines| => LineText(lines[i]) + "\n")
  }

  lemma {:induction false} ChunksOfFile(lines: seq<Assignment>)
    requires forall i: nat | i < |lines| :: IsLine(lines[i])
    ensures Chunks(FileText(lines)) == Padded(lines)
  {
    hide IsLine, LineText;
    if lines == [] {
    } else {
      ChunksOfFile(lines[1..]);
      FirstChunk(lines[0], FileText(lines[1..]));
      assert Padded(lines) == [LineText(lines[0]) + "\n"] + Padded(lines[1..]);
    }
  }

  const ALL: seq<Setting> :=
    [
      ListenHost, ListenPort, DbPath, ProfilePath, ActiveProfile, OfonoBackend, OfonoDestination,
      OfonoModemPath, AtBackend, AtTimeoutMs, AuthEnabled, AuthUser, AuthPass, AllowDangerousAt, WanIface,
      SampleIntervalMs, ScheduledRebootEnabled, ScheduledRebootHour, ScheduledRebootMinute,
      SmsForwardEnabled, SmsForwardMode, SmtpHost, SmtpPort, SmtpUser, SmtpPass, SmtpFrom, SmtpTo,
      SmsWebhookUrl
    ]

  lemma AllSettings(f: Setting)
    ensures Place(f) < |ALL| && ALL[Place(f)] == f
  {}

  lemma PlaceOfAll(i: nat)
    requires i < |ALL|
    ensures Place(ALL[i]) == i
  {}

  /** One line for every field. */
  ghost function PrintConfig(c: Settings): (lines: seq<Assignment>)
    requires Complete(c)
    ensures |lines| == |ALL|
  {
    seq(|ALL|, i requires 0 <= i < |ALL| => Assignment(ALL[i], ValueText(c[ALL[i]])))
  }

  /** Configurations that a file can hold: in range, and with texts that trimming and lines leave alone. */
  ghost predicate IsPrintable(c: Settings) {
    && Complete(c)
    && c[ListenPort].Number? && 1 <= c[ListenPort].n <= 65535
    && c[AtTimeoutMs].Number? && 1 <= c[AtTimeoutMs].n
    && NoBreaks(c)
    && forall f: Setting | c[f].Text? :: Trimmed(c[f].s)
  }

  ghost predicate NoBreaks(c: Settings)
    requires Complete(c)
  {
    forall f: Setting | c[f].Text? :: OneLine(c[f].s)
  }

  /** No field is so large that its line would not fit the line buffer. */
  lemma LineFits(f: Setting, v: Value)
    requires FitsSetting(f, v) && (v.Text? ==> OneLine(v.s))
    ensures IsLine(Assignment(f, ValueText(v)))
  {
    NameShort(f);
    hide Name, Dec;
    if v.Number? {
      DecLength(v.n);
      DecTrimmed(v.n);
    }
  }

  lemma StoredBack(f: Setting, v: Value)
    requires FitsSetting(f, v)
    ensures Stored(f, Trim(ValueText(v))) == v <==> (v.Text? ==> Trimmed(v.s))
  {
    hide Atoi, Dec;
    match v
    case Text(s) =>
      if Trimmed(s) {
        TrimTrimmed(s);
      } else {
        var left, right := TrimParts(s);
      }
    case Number(n) =>
      DecTrimmed(n);
      TrimTrimmed(Dec(n));
      AtoiDec(n, "");
      assert Dec(n) + "" == Dec(n);
  }

  lemma DecTrimmed(n: int)
    ensures Trimmed(Dec(n)) && OneLine(Dec(n))
  {
    var s := Dec(n);
    assert forall i: nat | i < |s| :: s[i] in s;
    assert s[0] in s && s[|s| - 1] in s;
  }

  /** A line for the field and none for it after that one. */
  lemma {:induction false} LastOf(lines: seq<Assignment>, f: Setting, i: nat)
    requires i < |lines| && lines[i].f == f && forall j: nat | i < j < |lines| :: lines[j].f != f
    ensures LastText(Padded(lines), f) == Some(Trim(lines[i].text))
    decreases |lines|
  {
    hide Assigns, Trim, LineText;
    var n := |lines| - 1;
    LineAssigns(lines[n]);
    assert Padded(lines)[n] == LineText(lines[n]) + "\n";
    if i < n {
      LastOf(lines[..n], f, i);
      assert Padded(lines)[..n] == Padded(lines[..n]);
    }
  }

  // ---------- what no file can make the daemon hold ----------

  /** A newline can only be the last byte of a piece. */
  lemma {:induction false} ChunksBreak(text: string)
    ensures forall s, i: nat | s in Chunks(text) && i + 1 < |s| :: s[i] != '\n'
    decreases |text|
  {
    if text != "" {
      var n := ChunkLength(text);
      ChunksBreak(text[n..]);
    }
  }

  lemma TrimOneLine(s: string)
    requires forall i: nat | i + 1 < |s| :: s[i] != '\n'
    ensures OneLine(Trim(s))
  {
    var left, right := TrimParts(s);
    var t := Trim(s);
    forall i: nat | i < |t| ensures t[i] != '\n' {
      assert t[i] == s[|left| + i];
      assert t[|t| - 1] == s[|left| + |t| - 1];
    }
  }

  lemma {:induction false} LastTextOneLine(chunks: seq<string>, f: Setting)
    requires forall s, i: nat | s in chunks && i + 1 < |s| :: s[i] != '\n'
    ensures LastText(chunks, f).Some? ==> OneLine(LastText(chunks, f).value)
    decreases |chunks|
  {
    hide Trim, OneLine;
    if chunks != [] {
      var t := Trim(chunks[|chunks| - 1]);
      TrimOneLine(chunks[|chunks| - 1]);
      AssignsOneLine(t);
      LastTextOneLine(chunks[..|chunks| - 1], f);
    }
  }

  lemma AssignsOneLine(t: string)
    requires OneLine(t)
    ensures Assigns(t).Some? ==> OneLine(Assigns(t).value.1)
  {
    hide Trim, SettingOf;
    var eq := Span(t, c => c != '=');
    if eq < |t| {
      TrimOneLine(t[eq + 1..]);
    }
  }

  /** No loaded text contains a newline. */
  lemma LoadedNoBreaks(text: string, c: Settings)
    requires Complete(c) && c == Loaded(Some(text))
    ensures NoBreaks(c)
  {
    hide LastText, Stored, Effects, Chunks, Default;
    var chunks := Chunks(text);
    DefaultsComplete();
    ChunksBreak(text);
    EffectsComplete(Defaults(), chunks);
    forall f: Setting | c[f].Text? ensures OneLine(c[f].s) {
      LastLineWins(Defaults(), chunks, f);
      LastTextOneLine(chunks, f);
      DefaultOneLine(f);
      if LastText(chunks, f).Some? {
        StoredOneLine(f, LastText(chunks, f).value);
      }
    }
  }

  lemma DefaultOneLine(f: Setting)
    ensures Default(f).Text? ==> OneLine(Default(f).s)
  {
    hide OneLine, Default;
    if Place(f) < 4 {
      DefaultOneLine1(f);
    } else if Place(f) < 8 {
      DefaultOneLine2(f);
    } else {
      DefaultOneLine3(f);
    }
  }

  lemma DefaultOneLine1(f: Setting)
    requires Place(f) < 4
    ensures Default(f).Text? ==> OneLine(Default(f).s)
  {}

  lemma DefaultOneLine2(f: Setting)
    requires 4 <= Place(f) < 8
    ensures Default(f).Text? ==> OneLine(Default(f).s)
  {}

  lemma DefaultOneLine3(f: Setting)
    requires 8 <= Place(f)
    ensures Default(f).Text? ==> OneLine(Default(f).s)
  {}

  lemma StoredOneLine(f: Setting, text: string)
    requires OneLine(text)
    ensures Stored(f, text).Text? ==> OneLine(Stored(f, text).s)
  {}

  // ---------- print, then load ----------

  /** What the lines of a printed configuration make of the fields, before the ranges are checked. */
  lemma PrintedEffects(c: Settings, f: Setting)
    requires Complete(c) && NoBreaks(c)
    ensures f in Effects(Defaults(), Chunks(FileText(PrintConfig(c))))
    ensures Effects(Defaults(), Chunks(FileText(PrintConfig(c))))[f] == Stored(f, Trim(ValueText(c[f])))
  {
    hide FileText, LastText, Padded, IsLine, ValueText, Stored, Default, Chunks, Effects, Trim;
    var lines := PrintConfig(c);
    forall i: nat | i < |lines| ensures IsLine(lines[i]) {
      LineFits(ALL[i], c[ALL[i]]);
    }
    ChunksOfFile(lines);
    DefaultsComplete();
    AllSettings(f);
    forall j: nat | Place(f) < j < |lines| ensures lines[j].f != f {
      PlaceOfAll(j);
    }
    LastOf(lines, f, Place(f));
    LastLineWins(Defaults(), Padded(lines), f);
  }

  /** Loading a printed configuration gives it back, exactly when its numbers are in range and its texts are
      trimmed and free of newlines. */
  lemma PrintLoadIff(c: Settings)
    requires Complete(c)
    ensures Loaded(Some(FileText(PrintConfig(c)))) == c <==> IsPrintable(c)
  {
    hide FileText, ValueText, Stored, Default, Chunks, Effects, Trim, Trimmed, OneLine, PrintConfig;
    var text := FileText(PrintConfig(c));
    var d := Effects(Defaults(), Chunks(text));
    DefaultsComplete();
    EffectsComplete(Defaults(), Chunks(text));
    var e := Loaded(Some(text));
    assert e == Repaired(d);
    if e == c {
      LoadedNoBreaks(text, c);
    }
    if NoBreaks(c) {
      forall f: Setting ensures d[f] == c[f] <==> (c[f].Text? ==> Trimmed(c[f].s)) {
        PrintedEffects(c, f);
        StoredBack(f, c[f]);
      }
      SameWhenInRange(c, d);
    }
  }

  lemma SameWhenInRange(c: Settings, d: Settings)
    requires Complete(c) && Complete(d) && NoBreaks(c)
    requires forall f: Setting :: d[f] == c[f] <==> (c[f].Text? ==> Trimmed(c[f].s))
    ensures c[ListenPort].Number? && c[AtTimeoutMs].Number? && d[ListenPort].Number? && d[AtTimeoutMs].Number?
    ensures Repaired(d) == c <==> IsPrintable(c)
  {
    hide Trimmed, OneLine;
    assert FitsSetting(ListenPort, c[ListenPort]) && FitsSetting(AtTimeoutMs, c[AtTimeoutMs]);
    assert FitsSetting(ListenPort, d[ListenPort]) && FitsSetting(AtTimeoutMs, d[AtTimeoutMs]);
    var e := Repaired(d);
    if IsPrintable(c) {
      assert forall f: Setting :: d[f] == c[f];
      assert d == c;
    } else if e == c {
      forall f: Setting | c[f].Text? ensures Trimmed(c[f].s) {
        assert FitsSetting(f, c[f]) && e[f] == d[f];
      }
    }
  }
}
