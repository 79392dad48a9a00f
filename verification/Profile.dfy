/** src/profile.c: cutting the block of a capability out of a profile, and the lookups built on it. */
module Profile {
  import opened CStrings
  import opened JsonUtil

  // ---------- braces outside string literals ----------

  /** `s` continues a string literal: the text after its closing quote, or nothing if it is not closed. */
  function AfterLiteral(s: string): (t: string)
    ensures |t| <= |s|
  {
    if s == "" then ""
    else if s[0] == '"' then s[1..]
    else if s[0] == '\\' then (if |s| == 1 then "" else AfterLiteral(s[2..]))
    else AfterLiteral(s[1..])
  }

  /** The characters of `s` outside its string literals. */
  function Code(s: string): string
    decreases |s|
  {
    if s == "" then ""
    else if s[0] == '"' then Code(AfterLiteral(s[1..]))
    else [s[0]] + Code(s[1..])
  }

  /** Opening braces minus closing braces. */
  function Nesting(code: string): int {
    if code == "" then 0 else Nesting(code[..|code| - 1]) + BraceValue(code[|code| - 1])
  }

  function BraceValue(c: char): int {
    if c == '{' then 1 else if c == '}' then -1 else 0
  }

  /** How many braces outside string literals are open at the end of `s`. */
  function Depth(s: string): int {
    Nesting(Code(s))
  }

  /** `text[..n]` is the shortest non-empty prefix whose braces outside string literals balance. */
  ghost predicate IsBlock(text: string, n: nat) {
    && 0 < n <= |text|
    && Depth(text[..n]) == 0
    && forall m: nat | 0 < m < n :: Depth(text[..m]) != 0
  }

  /** The block that starts with the opening brace of `text`, if its braces ever balance. */
  ghost function Block(text: string): (r: Option<string>)
    ensures r.Some? ==> exists n: nat :: IsBlock(text, n) && r.value == text[..n]
    ensures r.None? ==> forall n: nat :: !IsBlock(text, n)
  {
    if exists n: nat :: IsBlock(text, n) then
      var n: nat :| IsBlock(text, n);
      Some(text[..n])
    else
      None
  }

  lemma BlockUnique(text: string, n: nat)
    requires IsBlock(text, n)
    ensures Block(text) == Some(text[..n])
  {
    forall m: nat | IsBlock(text, m)
      ensures m == n
    {}
  }

  // ---------- the scanner's state is a function of the text read ----------

  /** `in_string` and `escaped`. */
  datatype Mode = Outside | Inside | Escaped

  function Next(mode: Mode, c: char): Mode {
    match mode
    case Outside => if c == '"' then Inside else Outside
    case Inside => if c == '\\' then Escaped else if c == '"' then Outside else Inside
    case Escaped => Inside
  }

  /** The scanner's mode after `s`, started outside. */
  function ModeAfter(s: string): Mode {
    if s == "" then Outside else Next(ModeAfter(s[..|s| - 1]), s[|s| - 1])
  }

  /** How the mode moves along `s`, one character at a time from the left. */
  function ModeFrom(mode: Mode, s: string): Mode
    decreases |s|
  {
    if s == "" then mode else ModeFrom(Next(mode, s[0]), s[1..])
  }

  /** The code of a text that is read from a given mode on. */
  function CodeFrom(mode: Mode, s: string): string
  {
    match mode
    case Outside => Code(s)
    case Inside => Code(AfterLiteral(s))
    case Escaped => if s == "" then "" else Code(AfterLiteral(s[1..]))
  }

  lemma {:induction false} CodeSnoc(mode: Mode, s: string, c: char)
    ensures ModeFrom(mode, s + [c]) == Next(ModeFrom(mode, s), c)
    ensures CodeFrom(mode, s + [c]) ==
            CodeFrom(mode, s) + if ModeFrom(mode, s) == Outside && c != '"' then [c] else ""
    decreases |s|
  {
    if s == "" {
      assert s + [c] == [c];
      assert [c][1..] == "";
      assert ModeFrom(Next(mode, c), "") == Next(mode, c);
    } else {
      var t := s[1..];
      assert (s + [c])[1..] == t + [c];
      CodeSnoc(Next(mode, s[0]), t, c);
      CodeHead(mode, s);
      CodeHead(mode, s + [c]);
    }
  }

  /** The code of a text is the code of its first character and of the rest. */
  lemma CodeHead(mode: Mode, s: string)
    requires s != ""
    ensures CodeFrom(mode, s) ==
            (if mode == Outside && s[0] != '"' then [s[0]] else "") + CodeFrom(Next(mode, s[0]), s[1..])
  {
    if mode == Inside && s[0] == '\\' && |s| > 1 {
      assert s[1..][1..] == s[2..];
    }
  }

  lemma {:induction false} ModeFromOutside(s: string)
    ensures ModeFrom(Outside, s) == ModeAfter(s)
    decreases |s|
  {
    if s != "" {
      var front, c := s[..|s| - 1], s[|s| - 1];
      ModeFromOutside(front);
      CodeSnoc(Outside, front, c);
      assert front + [c] == s;
    }
  }

  /** One more character changes mode and depth as one round of the scanning loop does. */
  lemma DepthSnoc(text: string, i: nat)
    requires i < |text|
    ensures ModeAfter(text[..i + 1]) == Next(ModeAfter(text[..i]), text[i])
    ensures Depth(text[..i + 1]) == Depth(text[..i]) + if ModeAfter(text[..i]) == Outside then BraceValue(text[i]) else 0
  {
    var s, c := text[..i], text[i];
    assert text[..i + 1] == s + [c];
    assert (s + [c])[..i] == s;
    ModeFromOutside(s);
    CodeSnoc(Outside, s, c);
    assert CodeFrom(Outside, s + [c]) == Code(s + [c]);
    assert (Code(s) + [c])[..|Code(s)|] == Code(s);
    assert Code(s) + "" == Code(s);
  }

  // ---------- find_capability_block ----------

  const BLOCK_NEEDLE_MAX: nat := 191

  /** The text from the first opening brace on that follows the quoted capability. */
  function CapabilityBrace(json: string, capability: string): (r: Option<string>)
    ensures r.Some? ==> r.value != "" && r.value[0] == '{'
  {
    match Find(json, Needle(capability, BLOCK_NEEDLE_MAX))
    case None => None
    case Some(p) =>
      var n := Span(json[p..], c => c != '{');
      if p + n == |json| then None else Some(json[p + n..])
  }

  ghost function CapabilityBlock(json: string, capability: string): Option<string> {
    match CapabilityBrace(json, capability)
    case None => None
    case Some(text) => Block(text)
  }

  method FindCapabilityBlock(json: string, capability: string) returns (r: Option<string>)
    ensures r == CapabilityBlock(json, capability)
  {
    var brace := CapabilityBrace(json, capability);
    if brace.None? {
      return None;
    }
    var text := brace.value;
    var depth, end := 0, 0;
    var inString, escaped := false, false;
    assert text[..0] == "";
    while end < |text|
      invariant end <= |text|
      invariant depth == Depth(text[..end])
      invariant ModeAfter(text[..end]) == if !inString then Outside else if escaped then Escaped else Inside
      invariant escaped ==> inString
      invariant end > 0 ==> depth > 0
      invariant forall m: nat | 0 < m <= end :: Depth(text[..m]) != 0
      decreases |text| - end
    {
      DepthSnoc(text, end);
      var c := text[end];
      if inString {
        if escaped {
          escaped := false;
        } else if c == '\\' {
          escaped := true;
        } else if c == '"' {
          inString := false;
        }
        end := end + 1;
        continue;
      }
      if c == '"' {
        inString := true;
      } else if c == '{' {
        depth := depth + 1;
      } else if c == '}' {
        depth := depth - 1;
        if depth == 0 {
          end := end + 1;
          BlockUnique(text, end);
          break;
        }
      }
      end := end + 1;
    }
    if depth != 0 {
      return None;
    }
    r := Some(text[..end]);
  }
}
