/** The C library operations the daemon relies on, as functions on strings.

    A C string is the sequence of its bytes without the terminating NUL; a byte is a `char`. A pointer into a
    string `s` is an index `p`, and what the pointer denotes is the suffix `s[p..]`. */
module CStrings {

  datatype Option<+T> = None | Some(value: T)

  /** `isspace` in the C locale: blank, \t, \n, \v, \f, \r. */
  predicate IsSpace(c: char) {
    c == ' ' || '\t' <= c <= '\r'
  }

  predicate IsDigit(c: char) {
    '0' <= c <= '9'
  }

  predicate IsLineBreak(c: char) {
    c == '\r' || c == '\n'
  }

  // ---------- strstr, strchr ----------

  /** `needle` occurs in `s` at index `i`. */
  predicate Occurs(s: string, needle: string, i: nat) {
    i <= |s| && needle <= s[i..]
  }

  /** `strstr`: the index of the leftmost occurrence. */
  function Find(s: string, needle: string): (r: Option<nat>)
    ensures r.Some? ==> Occurs(s, needle, r.value) && forall j: nat | j < r.value :: !Occurs(s, needle, j)
    ensures r.None? ==> forall j: nat :: !Occurs(s, needle, j)
  {
    FindFrom(s, needle, 0)
  }

  /** The leftmost occurrence at or after index `i`. */
  function FindFrom(s: string, needle: string, i: nat): (r: Option<nat>)
    ensures r.Some? ==> i <= r.value && Occurs(s, needle, r.value)
    ensures r.Some? ==> forall j: nat | i <= j < r.value :: !Occurs(s, needle, j)
    ensures r.None? ==> forall j: nat | i <= j :: !Occurs(s, needle, j)
    decreases |s| - i
  {
    if i > |s| then None
    else if Occurs(s, needle, i) then Some(i)
    else FindFrom(s, needle, i + 1)
  }

  lemma FindUnique(s: string, needle: string, i: nat)
    requires Occurs(s, needle, i)
    requires forall j: nat | j < i :: !Occurs(s, needle, j)
    ensures Find(s, needle) == Some(i)
  {}

  lemma OccursInSuffix(s: string, needle: string, p: nat, j: nat)
    requires p <= |s|
    ensures Occurs(s[p..], needle, j) <==> Occurs(s, needle, p + j)
  {
    if p + j <= |s| {
      assert s[p..][j..] == s[p + j..];
    }
  }

  /** Searching from a pointer into `s`, as an index of `s`. */
  lemma FindInSuffix(s: string, needle: string, p: nat)
    requires p <= |s|
    ensures Find(s[p..], needle) == match FindFrom(s, needle, p) case None => None case Some(i) => Some(i - p)
  {
    match FindFrom(s, needle, p)
    case Some(i) =>
      OccursInSuffix(s, needle, p, i - p);
      forall j: nat | j < i - p
        ensures !Occurs(s[p..], needle, j)
      {
        OccursInSuffix(s, needle, p, j);
      }
      FindUnique(s[p..], needle, i - p);
    case None =>
      forall j: nat
        ensures !Occurs(s[p..], needle, j)
      {
        OccursInSuffix(s, needle, p, j);
      }
  }

  // ---------- strspn, strcspn, strtok_r ----------

  /** How many leading characters of `s` satisfy `p`. */
  function Span(s: string, p: char -> bool): (n: nat)
    ensures n <= |s|
    ensures forall i: nat | i < n :: p(s[i])
    ensures n < |s| ==> !p(s[n])
  {
    SpanFrom(s, p, 0)
  }

  function SpanFrom(s: string, p: char -> bool, i: nat): (n: nat)
    requires i <= |s|
    ensures i <= n <= |s|
    ensures forall j: nat | i <= j < n :: p(s[j])
    ensures n < |s| ==> !p(s[n])
    decreases |s| - i
  {
    if i == |s| || !p(s[i]) then i else SpanFrom(s, p, i + 1)
  }

  lemma SpanUnique(s: string, p: char -> bool, n: nat)
    requires n <= |s|
    requires forall i: nat | i < n :: p(s[i])
    requires n < |s| ==> !p(s[n])
    ensures Span(s, p) == n
  {
    assert Span(s, p) >= n && Span(s, p) <= n;
  }

  /** The text after its leading delimiters. */
  function DropDelims(s: string, isDelim: char -> bool): (t: string)
    ensures |t| <= |s|
    ensures t != "" ==> !isDelim(t[0])
  {
    s[Span(s, isDelim)..]
  }

  /** Length of the token that `s` starts with. */
  function TokenLength(s: string, isDelim: char -> bool): (n: nat)
    ensures n <= |s|
    ensures forall i: nat | i < n :: !isDelim(s[i])
    ensures n < |s| ==> isDelim(s[n])
    ensures s != "" && !isDelim(s[0]) ==> n > 0
  {
    Span(s, c => !isDelim(c))
  }

  /** All the tokens `strtok_r` delivers for `s`: its maximal non-empty pieces without delimiters, in order. */
  function Tokens(s: string, isDelim: char -> bool): (ts: seq<string>)
    ensures forall t | t in ts :: t != "" && forall c | c in t :: !isDelim(c)
    decreases |s|
  {
    var t := DropDelims(s, isDelim);
    if t == "" then [] else
    var n := TokenLength(t, isDelim);
    [t[..n]] + Tokens(t[n..], isDelim)
  }

  /** The non-empty lines of `s`. */
  function Lines(s: string): seq<string> {
    Tokens(s, IsLineBreak)
  }

  /** One call of `strtok_r`: the next token, if any, and the text that is left. */
  method StrTok(save: string, isDelim: char -> bool) returns (tok: Option<string>, rest: string)
    ensures tok.None? ==> Tokens(save, isDelim) == []
    ensures tok.Some? ==> Tokens(save, isDelim) == [tok.value] + Tokens(rest, isDelim) && |rest| < |save|
  {
    var t := DropDelims(save, isDelim);
    if t == "" {
      return None, "";
    }
    var n := TokenLength(t, isDelim);
    tok := Some(t[..n]);
    rest := t[n..];
  }

  /** A token between delimiters is delivered first. */
  lemma TokensStep(before: string, token: string, rest: string, isDelim: char -> bool)
    requires forall i: nat | i < |before| :: isDelim(before[i])
    requires token != "" && forall i: nat | i < |token| :: !isDelim(token[i])
    requires rest == "" || isDelim(rest[0])
    ensures Tokens(before + (token + rest), isDelim) == [token] + Tokens(rest, isDelim)
  {
    var s, t := before + (token + rest), token + rest;
    SpanUnique(s, isDelim, |before|);
    assert DropDelims(s, isDelim) == t;
    SpanUnique(t, c => !isDelim(c), |token|);
    assert t[..|token|] == token && t[|token|..] == rest;
  }

  lemma TokensEnd(s: string, isDelim: char -> bool)
    requires forall i: nat | i < |s| :: isDelim(s[i])
    ensures Tokens(s, isDelim) == []
  {
    SpanUnique(s, isDelim, |s|);
  }

  // ---------- trim_in_place, as a function ----------

  predicate IsBlank(c: char) {
    c == ' ' || c == '\t' || c == '\r' || c == '\n'
  }

  function TrimLeft(s: string): (t: string)
    ensures |t| <= |s|
    ensures t != "" ==> !IsBlank(t[0])
  {
    s[Span(s, IsBlank)..]
  }

  function TrimRight(s: string): (t: string)
    ensures t <= s
    ensures t != "" ==> !IsBlank(t[|t| - 1])
  {
    if s == "" || !IsBlank(s[|s| - 1]) then s else TrimRight(s[..|s| - 1])
  }

  /** The longest part of `s` that neither starts nor ends with a blank. */
  function Trim(s: string): string {
    TrimRight(TrimLeft(s))
  }

  predicate Trimmed(s: string) {
    s == "" || (!IsBlank(s[0]) && !IsBlank(s[|s| - 1]))
  }

  predicate AllBlank(s: string) {
    forall c | c in s :: IsBlank(c)
  }

  lemma TrimBlank(s: string)
    requires AllBlank(s)
    ensures Trim(s) == ""
  {
    SpanUnique(s, IsBlank, |s|);
  }

  /** Blanks around a trimmed text are all that trimming removes. */
  lemma TrimPadded(left: string, s: string, right: string)
    requires AllBlank(left) && AllBlank(right) && Trimmed(s) && s != ""
    ensures Trim(left + s + right) == s
  {
    var t := left + s + right;
    SpanUnique(t, IsBlank, |left|);
    assert TrimLeft(t) == s + right;
    TrimRightPadded(s, right);
  }

  lemma {:induction false} TrimRightPadded(s: string, right: string)
    requires AllBlank(right)
    requires s == "" || !IsBlank(s[|s| - 1])
    ensures TrimRight(s + right) == s
  {
    if right == "" {
      assert s + right == s;
    } else {
      var t := s + right;
      assert t[..|t| - 1] == s + right[..|right| - 1];
      TrimRightPadded(s, right[..|right| - 1]);
    }
  }

  // ---------- bounded copies ----------

  /** What `snprintf(dst, n + 1, "%s", s)` stores. */
  function Take(s: string, n: nat): (t: string)
    ensures t <= s && |t| == (if |s| <= n then |s| else n)
  {
    if |s| <= n then s else s[..n]
  }

  // ---------- decimal integers: %d, atoi ----------

  const INT_MIN: int := -0x8000_0000
  const INT_MAX: int := 0x7fff_ffff
  const LONG_MIN: int := -0x8000_0000_0000_0000
  const LONG_MAX: int := 0x7fff_ffff_ffff_ffff

  predicate IsInt(n: int) {
    INT_MIN <= n <= INT_MAX
  }

  function DigitValue(c: char): (n: int)
    requires IsDigit(c)
  {
    c as int - '0' as int
  }

  function DigitChar(d: nat): (c: char)
    requires d < 10
    ensures IsDigit(c) && DigitValue(c) == d
  {
    ('0' as int + d) as char
  }

  /** Decimal digits of a natural number, without leading zeros. */
  function DecNat(n: nat): (s: string)
    ensures s != ""
    ensures forall c | c in s :: IsDigit(c)
    ensures |s| > 1 ==> s[0] != '0'
    ensures n > 0 ==> s[0] != '0'
    ensures DigitsValue(s) == n
  {
    if n < 10 then
      [DigitChar(n)]
    else
      var t := DecNat(n / 10);
      var s := t + [DigitChar(n % 10)];
      assert s[..|s| - 1] == t;
      s
  }

  /** `%d` and `%ld`. */
  function Dec(n: int): (s: string)
    ensures s != ""
    ensures forall c | c in s :: IsDigit(c) || c == '-'
  {
    if n < 0 then "-" + DecNat(-n) else DecNat(n)
  }

  function DigitsValue(s: string): (n: nat)
    requires forall c | c in s :: IsDigit(c)
  {
    if s == "" then 0 else 10 * DigitsValue(s[..|s| - 1]) + DigitValue(s[|s| - 1])
  }

  /** Length of the run of digits at the start of `s`. */
  function DigitRun(s: string): (n: nat)
    ensures n <= |s|
    ensures forall i: nat | i < n :: IsDigit(s[i])
    ensures forall c | c in s[..n] :: IsDigit(c)
    ensures n < |s| ==> !IsDigit(s[n])
  {
    Span(s, IsDigit)
  }

  /** `strtol` saturates, and the result is then stored in an `int`. */
  function ToInt(n: int): (r: int)
    ensures IsInt(r)
    ensures IsInt(n) ==> r == n
  {
    var l := if n < LONG_MIN then LONG_MIN else if n > LONG_MAX then LONG_MAX else n;
    var m := l % 0x1_0000_0000;
    if m > INT_MAX then m - 0x1_0000_0000 else m
  }

  /** Number of characters of an optionally signed decimal integer at the start of `s`; 0 if there is none. */
  function IntLength(s: string): (n: nat)
    ensures n <= |s|
  {
    if s != "" && (s[0] == '-' || s[0] == '+') then
      var d := DigitRun(s[1..]);
      if d == 0 then 0 else d + 1
    else
      DigitRun(s)
  }

  /** The value of the digits at the start of `s`. */
  function NatAt(s: string): nat {
    DigitsValue(s[..DigitRun(s)])
  }

  /** The value of the integer at the start of `s`; 0 if there is none. */
  function IntValue(s: string): (r: int)
    ensures IsInt(r)
  {
    if s != "" && s[0] == '-' then ToInt(0 - NatAt(s[1..]))
    else if s != "" && s[0] == '+' then ToInt(NatAt(s[1..]))
    else ToInt(NatAt(s))
  }

  function SkipSpace(s: string): (t: string)
    ensures |t| <= |s|
    ensures t != "" ==> !IsSpace(t[0])
  {
    s[Span(s, IsSpace)..]
  }

  function Atoi(s: string): (r: int)
    ensures IsInt(r)
  {
    IntValue(SkipSpace(s))
  }

  lemma NatAtPrinted(n: nat, rest: string)
    requires rest == "" || !IsDigit(rest[0])
    ensures DecNat(n) != "" && IsDigit(DecNat(n)[0])
    ensures var s := DecNat(n) + rest; IsDigit(s[0]) && DigitRun(s) == |DecNat(n)| && NatAt(s) == n
  {
    var ds := DecNat(n);
    assert forall i: nat | i < |ds| :: ds[i] in ds;
    SpanUnique(ds + rest, IsDigit, |ds|);
    assert (ds + rest)[..|ds|] == ds;
  }

  lemma NegativeAtPrinted(s: string, t: string, d: nat)
    requires s == "-" + t && DigitRun(t) == d > 0
    ensures IntLength(s) == d + 1 && IntValue(s) == ToInt(0 - NatAt(t))
  {
    assert s[1..] == t;
  }

  /** Reading back a printed `int` that no further digit follows. */
  lemma IntAtPrinted(n: int, rest: string)
    requires IsInt(n)
    requires rest == "" || !IsDigit(rest[0])
    ensures IntLength(Dec(n) + rest) == |Dec(n)|
    ensures IntValue(Dec(n) + rest) == n
    ensures !IsSpace(Dec(n)[0])
  {
    hide NatAt, DigitRun, DecNat;
    if n < 0 {
      NatAtPrinted(-n, rest);
      assert Dec(n) + rest == "-" + (DecNat(-n) + rest);
      NegativeAtPrinted(Dec(n) + rest, DecNat(-n) + rest, |DecNat(-n)|);
    } else {
      NatAtPrinted(n, rest);
    }
  }

  lemma AtoiDec(n: int, rest: string)
    requires IsInt(n)
    requires rest == "" || !IsDigit(rest[0])
    ensures Atoi(Dec(n) + rest) == n
  {
    IntAtPrinted(n, rest);
    var s := Dec(n) + rest;
    SpanUnique(s, IsSpace, 0);
    assert s[0..] == s;
  }

  lemma DecLength(n: int)
    requires IsInt(n)
    ensures |Dec(n)| <= 11
  {
    DecNatLength(if n < 0 then -n else n, 10);
  }

  function Pow10(k: nat): nat {
    if k == 0 then 1 else 10 * Pow10(k - 1)
  }

  lemma {:induction false} DecNatLength(n: nat, k: nat)
    requires k >= 1 && n < Pow10(k)
    ensures |DecNat(n)| <= k
  {
    assert Pow10(1) == 10 * Pow10(0);
    if n >= 10 {
      DecNatLength(n / 10, k - 1);
    }
  }

  // ---------- sscanf ----------

  /** The conversions of the `sscanf` patterns in use: white space, one literal character, `%d`, and `%N[^c]`. */
  datatype Directive = White | Lit(c: char) | Int | Until(width: nat, stop: char)

  datatype Field = IntField(n: int) | TextField(s: string)

  /** Fields converted before the first directive that fails. */
  function Scan(format: seq<Directive>, s: string): (fields: seq<Field>) {
    if format == [] then [] else
    match format[0]
    case White => Scan(format[1..], SkipSpace(s))
    case Lit(c) => if s != "" && s[0] == c then Scan(format[1..], s[1..]) else []
    case Int =>
      var t := SkipSpace(s);
      if IntLength(t) == 0 then [] else [IntField(IntValue(t))] + Scan(format[1..], t[IntLength(t)..])
    case Until(width, stop) =>
      var n := Span(Take(s, width), c => c != stop);
      if n == 0 then [] else [TextField(s[..n])] + Scan(format[1..], s[n..])
  }

  /** The `i`th converted integer, or the initial value of its variable. */
  function IntOr(fields: seq<Field>, i: nat, default: int): int {
    if i < |fields| && fields[i].IntField? then fields[i].n else default
  }

  /** The `i`th converted text, or the initial value of its buffer. */
  function TextOr(fields: seq<Field>, i: nat, default: string): string {
    if i < |fields| && fields[i].TextField? then fields[i].s else default
  }
}
