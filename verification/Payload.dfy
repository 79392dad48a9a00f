/** src/parsers.c: getting at the text of an AT response inside a D-Bus reply. */
module Payload {
  import opened CStrings
  import opened Buffer
  import opened JsonUtil

  // ---------- extract_quoted_after ----------

  /** The content of the string literal that `s` continues, decoded with a flag for a pending backslash. */
  function DecodeFlagged(s: string, escaped: bool): string {
    if s == "" then ""
    else if escaped then [Unbackslash(s[0])] + DecodeFlagged(s[1..], false)
    else if s[0] == '\\' then DecodeFlagged(s[1..], true)
    else if s[0] == '"' then ""
    else [s[0]] + DecodeFlagged(s[1..], false)
  }

  /** `strchr` for a double quote: the text after the first one. */
  function AfterQuote(s: string): Option<string> {
    var n := Span(s, c => c != '"');
    if n == |s| then None else Some(s[n + 1..])
  }

  function QuotedAfter(s: string): Option<string> {
    match AfterQuote(s)
    case None => None
    case Some(t) => Some(DecodeFlagged(t, false))
  }

  method ExtractQuotedAfter(s: string) returns (r: Option<string>)
    ensures r == QuotedAfter(s)
  {
    var start := AfterQuote(s);
    if start.None? {
      return None;
    }
    var t := start.value;
    var out := new Buf(64);
    var escaped := false;
    var p := 0;
    assert t[0..] == t;
    while p < |t|
      invariant p <= |t|
      invariant out.Valid() && fresh(out) && fresh(out.data)
      invariant out.text + DecodeFlagged(t[p..], escaped) == DecodeFlagged(t, false)
      decreases |t| - p
    {
      FlaggedStep(out.text, t, p, escaped);
      if escaped {
        match t[p] {
          case 'n' => out.AppendChar('\n');
          case 'r' => out.AppendChar('\r');
          case 't' => out.AppendChar('\t');
          case '"' => out.AppendChar('"');
          case '\\' => out.AppendChar('\\');
          case c => out.AppendChar(c);
        }
        escaped := false;
        p := p + 1;
        continue;
      }
      if t[p] == '\\' {
        escaped := true;
        p := p + 1;
        continue;
      }
      if t[p] == '"' {
        break;
      }
      out.AppendChar(t[p]);
      p := p + 1;
    }
    assert p == |t| ==> t[p..] == "" && out.text + "" == out.text;
    var text := out.CString();
    r := Some(text);
  }

  lemma FlaggedStep(before: string, t: string, p: nat, escaped: bool)
    requires p < |t|
    ensures before + DecodeFlagged(t[p..], escaped) ==
            if escaped then before + [Unbackslash(t[p])] + DecodeFlagged(t[p + 1..], false)
            else if t[p] == '\\' then before + DecodeFlagged(t[p + 1..], true)
            else if t[p] == '"' then before
            else before + [t[p]] + DecodeFlagged(t[p + 1..], false)
  {
    assert t[p..][1..] == t[p + 1..];
    var c := if escaped then Unbackslash(t[p]) else t[p];
    Assoc(before, [c], DecodeFlagged(t[p + 1..], false));
  }

  // ---------- the two decoders compared ----------

  /** No unescaped double quote closes the literal that `s` continues. */
  predicate Unterminated(s: string) {
    if s == "" then true
    else if s[0] == '"' then false
    else if s[0] == '\\' && |s| > 1 then Unterminated(s[2..])
    else Unterminated(s[1..])
  }

  /** How many backslashes `s` ends with. */
  function TrailingBackslashes(s: string): nat {
    if s == "" || s[|s| - 1] != '\\' then 0 else 1 + TrailingBackslashes(s[..|s| - 1])
  }

  /** The last backslash of `s` escapes nothing. */
  predicate DanglingBackslash(s: string) {
    TrailingBackslashes(s) % 2 == 1
  }

  lemma {:induction false} TrailingCons(c: char, s: string)
    ensures TrailingBackslashes([c] + s) ==
            TrailingBackslashes(s) + if TrailingBackslashes(s) == |s| && c == '\\' then 1 else 0
    ensures TrailingBackslashes(s) <= |s|
  {
    var t := [c] + s;
    if s == "" {
      assert t == [c] && t[..0] == "";
    } else {
      assert t[..|t| - 1] == [c] + s[..|s| - 1];
      TrailingCons(c, s[..|s| - 1]);
    }
  }

  /** An escaped character in front does not change the parity of the trailing backslashes. */
  lemma DanglingSkipsPair(s: string)
    requires |s| > 1 && s[0] == '\\'
    ensures DanglingBackslash(s) == DanglingBackslash(s[2..])
  {
    hide TrailingBackslashes;
    assert s == [s[0]] + s[1..] && s[1..] == [s[1]] + s[2..];
    TrailingCons(s[0], s[1..]);
    TrailingCons(s[1], s[2..]);
  }

  lemma DanglingSkipsPlain(s: string)
    requires s != "" && s[0] != '\\'
    ensures DanglingBackslash(s) == DanglingBackslash(s[1..])
  {
    assert s == [s[0]] + s[1..];
    TrailingCons(s[0], s[1..]);
  }

  /** The decoder of `json_get_string` and that of `extract_quoted_after` differ exactly on unterminated text that
      ends in a dangling backslash: there the first keeps the backslash and the second drops it. */
  lemma {:induction false} DecodersAgreeIff(s: string)
    ensures Decode(s) == DecodeFlagged(s, false) <==> !(Unterminated(s) && DanglingBackslash(s))
    ensures Unterminated(s) && DanglingBackslash(s) ==> Decode(s) == DecodeFlagged(s, false) + "\\"
  {
    if s == "" || s[0] == '"' {
    } else if s[0] == '\\' && |s| > 1 {
      DecodersAgreeIff(s[2..]);
      DanglingSkipsPair(s);
      assert s[1..][1..] == s[2..];
      SameHead(Unbackslash(s[1]), Decode(s[2..]), DecodeFlagged(s[2..], false));
    } else if s[0] == '\\' {
      assert s == "\\" && s[1..] == "" && s[..0] == "";
      assert TrailingBackslashes(s) == 1;
      assert Decode(s) == "\\" && DecodeFlagged(s, false) == "";
    } else {
      DecodersAgreeIff(s[1..]);
      DanglingSkipsPlain(s);
      SameHead(s[0], Decode(s[1..]), DecodeFlagged(s[1..], false));
    }
  }

  lemma SameHead(c: char, s: string, t: string)
    ensures [c] + s == [c] + t <==> s == t
    ensures s == t + "\\" ==> [c] + s == ([c] + t) + "\\"
  {
    assert ([c] + s)[1..] == s && ([c] + t)[1..] == t;
  }

  // ---------- normalized_at_payload ----------

  /** The quoted text after `string `, or the whole response if there is none. */
  function PayloadOf(raw: string): string {
    match Find(raw, "string ")
    case None => raw
    case Some(i) =>
      match QuotedAfter(raw[i..])
      case None => raw
      case Some(s) => s
  }

  method NormalizedAtPayload(raw: Option<string>) returns (payload: string)
    ensures payload == if raw.None? then "" else PayloadOf(raw.value)
  {
    if raw.None? {
      return "";
    }
    var i := Find(raw.value, "string ");
    if i.None? {
      return raw.value;
    }
    var s := ExtractQuotedAfter(raw.value[i.value..]);
    payload := if s.Some? then s.value else raw.value;
  }

  /** Text that is the same inside a string literal. */
  predicate IsUnquoted(s: string) {
    forall i: nat | i < |s| :: s[i] != '"' && s[i] != '\\'
  }

  lemma {:induction false} DecodePlain(s: string, rest: string)
    requires IsUnquoted(s)
    ensures DecodeFlagged(s + ("\"" + rest), false) == s
  {
    var t := s + ("\"" + rest);
    if s == "" {
      assert t[0] == '"';
    } else {
      assert t[1..] == s[1..] + ("\"" + rest);
      DecodePlain(s[1..], rest);
    }
  }

  /** The payload of a D-Bus reply is the text of its first string, up to the first double quote: a response that
      itself contains one is cut there. */
  lemma PayloadReceived(before: string, s: string, rest: string)
    requires Find(before + "string ", "string ") == Some(|before|) && IsUnquoted(s)
    ensures PayloadOf(before + ("string \"" + (s + ("\"" + rest)))) == s
  {
    var tail := "string \"" + (s + ("\"" + rest));
    var raw := before + tail;
    FirstString(before, "\"" + (s + ("\"" + rest)));
    assert tail == "string " + ("\"" + (s + ("\"" + rest)));
    assert raw[|before|..] == tail;
    SpanUnique(tail, c => c != '"', 7);
    assert tail[8..] == s + ("\"" + rest);
    DecodePlain(s, rest);
  }

  lemma FirstString(before: string, rest: string)
    requires Find(before + "string ", "string ") == Some(|before|)
    ensures Find(before + ("string " + rest), "string ") == Some(|before|)
  {
    var short, raw := before + "string ", before + ("string " + rest);
    assert raw == short + rest && raw[|before|..] == "string " + rest;
    forall j: nat | j < |before|
      ensures !Occurs(raw, "string ", j)
    {
      assert !Occurs(short, "string ", j);
      assert raw[j..] == short[j..] + rest && |short[j..]| >= 7;
    }
    FindUnique(raw, "string ", |before|);
  }

  // ---------- find_line_prefix ----------

  /** A line of `raw` starts at `i` with `prefix`. */
  ghost predicate PrefixAt(raw: string, prefix: string, i: nat) {
    && Occurs(raw, prefix, i)
    && exists start: nat :: LineStart(raw, start, i)
  }

  /** A line starts at `i` after the line breaks from `start`, which is the start of the text or follows a \n. */
  ghost predicate LineStart(raw: string, start: nat, i: nat) {
    && start < |raw| && start <= i <= |raw|
    && (start == 0 || raw[start - 1] == '\n')
    && (forall k: nat | start <= k < i :: IsLineBreak(raw[k]))
    && (i < |raw| ==> !IsLineBreak(raw[i]))
  }

  ghost predicate FirstPrefixAt(raw: string, prefix: string, i: nat) {
    PrefixAt(raw, prefix, i) && forall j: nat | j < i :: !PrefixAt(raw, prefix, j)
  }

  /** The text after the first line prefix. */
  ghost function LineAfter(raw: string, prefix: string): (r: Option<string>)
    ensures r.Some? ==> exists i: nat :: FirstPrefixAt(raw, prefix, i) && r.value == raw[i + |prefix|..]
    ensures r.None? ==> forall i: nat :: !FirstPrefixAt(raw, prefix, i)
  {
    if exists i: nat :: FirstPrefixAt(raw, prefix, i) then
      var i: nat :| FirstPrefixAt(raw, prefix, i);
      Some(raw[i + |prefix|..])
    else
      None
  }

  lemma LineAfterIs(raw: string, prefix: string, i: nat)
    requires FirstPrefixAt(raw, prefix, i)
    ensures LineAfter(raw, prefix) == Some(raw[i + |prefix|..])
  {
    forall j: nat | FirstPrefixAt(raw, prefix, j)
      ensures j == i
    {}
  }

  lemma NoLineAfter(raw: string, prefix: string)
    requires forall i: nat | i <= |raw| :: !PrefixAt(raw, prefix, i)
    ensures LineAfter(raw, prefix) == None
  {}

  method FindLinePrefix(raw: string, prefix: string) returns (r: Option<string>)
    ensures r == LineAfter(raw, prefix)
  {
    var p := 0;
    while p < |raw|
      invariant p <= |raw|
      invariant p == 0 || raw[p - 1] == '\n'
      invariant forall j: nat | j < p || j == p == |raw| :: !PrefixAt(raw, prefix, j)
      decreases |raw| - p
    {
      ghost var start := p;
      while p < |raw| && IsLineBreak(raw[p])
        invariant start <= p <= |raw|
        invariant forall k: nat | start <= k < p :: IsLineBreak(raw[k])
        invariant forall j: nat | j < p :: !PrefixAt(raw, prefix, j)
        decreases |raw| - p
      {
        p := p + 1;
      }
      assert LineStart(raw, start, p);
      if prefix <= raw[p..] {
        assert PrefixAt(raw, prefix, p);
        LineAfterIs(raw, prefix, p);
        return Some(raw[p + |prefix|..]);
      }
      var n := Span(raw[p..], c => c != '\n');
      forall j: nat | p < j <= |raw| && (j <= p + n || j == p + n + 1 == |raw|)
        ensures !PrefixAt(raw, prefix, j)
      {
        NotALineStart(raw, p, j, n);
      }
      if p + n == |raw| {
        NoLineAfter(raw, prefix);
        return None;
      }
      p := p + n + 1;
    }
    NoLineAfter(raw, prefix);
    r := None;
  }

  /** No line starts behind the first character of a line up to its \n, nor behind that at the end of the text. */
  lemma NotALineStart(raw: string, p: nat, j: nat, n: nat)
    requires p < j <= |raw| && p + n <= |raw| && !IsLineBreak(raw[p]) && (j <= p + n || j == p + n + 1 == |raw|)
    requires forall k: nat | k < n :: raw[p..][k] != '\n'
    ensures forall start: nat :: !LineStart(raw, start, j)
  {
    forall start: nat
      ensures !LineStart(raw, start, j)
    {
      if p < start <= p + n {
        assert raw[p..][start - 1 - p] == raw[start - 1];
      }
    }
  }
}
