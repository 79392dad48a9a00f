/** JSON texts: a document with its layout, the text it prints as, the value it denotes, and a reader.

    The reader is independent of the daemon: it follows sections 2 to 7 of RFC 8259 and treats bytes from 0x80 on
    as opaque. A text is well formed when the reader accepts it. */
module Json {
  import opened CStrings

  /** A JSON value. `Atom` is a number, `true`, `false` or `null`, kept as its text. */
  datatype Json =
    | Str(s: string)
    | Atom(text: string)
    | Arr(items: seq<Json>)
    | Obj(members: seq<Entry>)

  /** A member of an object. */
  datatype Entry = Entry(key: string, v: Json)

  /** A value together with one layout of it: the white space between its tokens. */
  datatype Doc =
    | DStr(s: string)
    | DAtom(text: string)
    | DArr(ws: string, items: Items)
    | DObj(ws: string, members: Members)

  datatype Items = INil | ICons(pre: string, v: Doc, post: string, tail: Items)

  /** Members `pre "key" gap : sep v post`. */
  datatype Members = MNil | MCons(pre: string, key: string, gap: string, sep: string, v: Doc, post: string, tail: Members)

  // ---------- lexical rules ----------

  predicate IsWs(c: char) {
    c == ' ' || c == '\t' || c == '\n' || c == '\r'
  }

  predicate AllWs(s: string) {
    forall c | c in s :: IsWs(c)
  }

  predicate AllDigits(s: string) {
    forall c | c in s :: IsDigit(c)
  }

  /** `[ frac ] [ exp ]` of section 6. */
  predicate IsFractionExponent(s: string) {
    if s != "" && s[0] == '.' then
      var n := DigitRun(s[1..]);
      n > 0 && IsExponent(s[1..][n..])
    else
      IsExponent(s)
  }

  predicate IsExponent(s: string) {
    s == "" ||
    ((s[0] == 'e' || s[0] == 'E') &&
     var t := s[1..];
     var d := if t != "" && (t[0] == '+' || t[0] == '-') then t[1..] else t;
     d != "" && AllDigits(d))
  }

  /** Section 6: `[ minus ] int [ frac ] [ exp ]`, no leading zeros. */
  predicate IsNumber(s: string) {
    var t := if s != "" && s[0] == '-' then s[1..] else s;
    var n := DigitRun(t);
    n > 0 && (n > 1 ==> t[0] != '0') && IsFractionExponent(t[n..])
  }

  predicate IsAtom(s: string) {
    s == "true" || s == "false" || s == "null" || IsNumber(s)
  }

  predicate IsAtomChar(c: char) {
    IsDigit(c) || 'a' <= c <= 'z' || 'A' <= c <= 'Z' || c == '+' || c == '-' || c == '.'
  }

  function HexChar(n: nat): (c: char)
    requires n < 16
  {
    if n < 10 then ('0' as int + n) as char else ('a' as int + n - 10) as char
  }

  function HexValue(c: char): Option<nat> {
    if '0' <= c <= '9' then Some(c as int - '0' as int)
    else if 'a' <= c <= 'f' then Some(c as int - 'a' as int + 10)
    else if 'A' <= c <= 'F' then Some(c as int - 'A' as int + 10)
    else None
  }

  /** How one character is printed inside a string. */
  function EscapeChar(c: char): (s: string)
    ensures s != ""
  {
    if c == '"' then "\\\""
    else if c == '\\' then "\\\\"
    else if c == '\U{8}' then "\\b"
    else if c == '\U{c}' then "\\f"
    else if c == '\n' then "\\n"
    else if c == '\r' then "\\r"
    else if c == '\t' then "\\t"
    else if c < ' ' then "\\u00" + [HexChar(c as int / 16), HexChar(c as int % 16)]
    else [c]
  }

  /** The escaped characters of `s`, followed by `rest`. */
  function EscapeTo(s: string, rest: string): string {
    if s == "" then rest else EscapeChar(s[0]) + EscapeTo(s[1..], rest)
  }

  /** The string literal for `s`, followed by `rest`. */
  function QuoteTo(s: string, rest: string): (t: string)
    ensures t != "" && t[0] == '"'
  {
    "\"" + EscapeTo(s, "\"" + rest)
  }

  /** The string literal for `s`. */
  function Quote(s: string): (t: string)
    ensures t != "" && t[0] == '"'
  {
    QuoteTo(s, "")
  }

  lemma {:induction false} EscapeToRest(s: string, middle: string, rest: string)
    ensures EscapeTo(s, middle + rest) == EscapeTo(s, middle) + rest
  {
    if s != "" {
      EscapeToRest(s[1..], middle, rest);
      assert EscapeChar(s[0]) + EscapeTo(s[1..], middle) + rest == EscapeChar(s[0]) + (EscapeTo(s[1..], middle) + rest);
    }
  }

  lemma QuoteToRest(s: string, middle: string, rest: string)
    ensures QuoteTo(s, middle + rest) == QuoteTo(s, middle) + rest
  {
    assert "\"" + (middle + rest) == ("\"" + middle) + rest;
    EscapeToRest(s, "\"" + middle, rest);
    assert "\"" + (EscapeTo(s, "\"" + middle) + rest) == "\"" + EscapeTo(s, "\"" + middle) + rest;
  }

  // ---------- printing ----------

  /** The text of `d`, followed by `rest`. */
  function PrintTo(d: Doc, rest: string): string
    decreases d, 0
  {
    match d
    case DStr(s) => QuoteTo(s, rest)
    case DAtom(text) => text + rest
    case DArr(ws, items) => "[" + (ws + ItemsTo(items, "]" + rest))
    case DObj(ws, members) => "{" + (ws + MembersTo(members, "}" + rest))
  }

  function ItemsTo(items: Items, rest: string): string
    decreases items, 0
  {
    match items
    case INil => rest
    case ICons(pre, v, post, tail) => pre + PrintTo(v, post + AfterItem(tail, rest))
  }

  /** The text after an item: a comma and the remaining items, if there are any. */
  function AfterItem(tail: Items, rest: string): string
    decreases tail, 1
  {
    if tail.INil? then rest else "," + ItemsTo(tail, rest)
  }

  function MembersTo(members: Members, rest: string): string
    decreases members, 0
  {
    match members
    case MNil => rest
    case MCons(pre, key, gap, sep, v, post, tail) =>
      pre + QuoteTo(key, gap + (":" + (sep + PrintTo(v, post + AfterMember(tail, rest)))))
  }

  function AfterMember(tail: Members, rest: string): string
    decreases tail, 1
  {
    if tail.MNil? then rest else "," + MembersTo(tail, rest)
  }

  /** The text of a document. */
  function Print(d: Doc): string {
    PrintTo(d, "")
  }

  /** What follows a document is appended to its text. */
  lemma {:induction false} PrintToRest(d: Doc, middle: string, rest: string)
    ensures PrintTo(d, middle + rest) == PrintTo(d, middle) + rest
    decreases d, 0
  {
    match d
    case DStr(s) => QuoteToRest(s, middle, rest);
    case DAtom(text) => Append3(text, middle, rest);
    case DArr(ws, items) =>
      Append3("]", middle, rest);
      ItemsToRest(items, "]" + middle, rest);
      Append3(ws, ItemsTo(items, "]" + middle), rest);
      Append3("[", ws + ItemsTo(items, "]" + middle), rest);
    case DObj(ws, members) =>
      Append3("}", middle, rest);
      MembersToRest(members, "}" + middle, rest);
      Append3(ws, MembersTo(members, "}" + middle), rest);
      Append3("{", ws + MembersTo(members, "}" + middle), rest);
  }

  lemma {:induction false} ItemsToRest(items: Items, middle: string, rest: string)
    ensures ItemsTo(items, middle + rest) == ItemsTo(items, middle) + rest
    decreases items, 1
  {
    if items.ICons? {
      var ICons(pre, v, post, tail) := items;
      var after := AfterItem(tail, middle);
      if tail.ICons? {
        ItemsToRest(tail, middle, rest);
        Append3(",", ItemsTo(tail, middle), rest);
      }
      Append3(post, after, rest);
      PrintToRest(v, post + after, rest);
      Append3(pre, PrintTo(v, post + after), rest);
    }
  }

  lemma {:induction false} MembersToRest(members: Members, middle: string, rest: string)
    ensures MembersTo(members, middle + rest) == MembersTo(members, middle) + rest
    decreases members, 1
  {
    if members.MCons? {
      var MCons(pre, key, gap, sep, v, post, tail) := members;
      var after := AfterMember(tail, middle);
      if tail.MCons? {
        MembersToRest(tail, middle, rest);
        Append3(",", MembersTo(tail, middle), rest);
      }
      Append3(post, after, rest);
      PrintToRest(v, post + after, rest);
      var value := PrintTo(v, post + after);
      Append3(sep, value, rest);
      Append3(":", sep + value, rest);
      Append3(gap, ":" + (sep + value), rest);
      QuoteToRest(key, gap + (":" + (sep + value)), rest);
      Append3(pre, QuoteTo(key, gap + (":" + (sep + value))), rest);
    }
  }

  lemma Append3(a: string, b: string, c: string)
    ensures a + (b + c) == (a + b) + c
  {}

  /** The layout is white space and the atoms are JSON. */
  predicate WellFormed(d: Doc)
    decreases d
  {
    match d
    case DStr(_) => true
    case DAtom(text) => IsAtom(text)
    case DArr(ws, items) => AllWs(ws) && WellFormedItems(items)
    case DObj(ws, members) => AllWs(ws) && WellFormedMembers(members)
  }

  predicate WellFormedItems(items: Items)
    decreases items
  {
    match items
    case INil => true
    case ICons(pre, v, post, tail) => AllWs(pre) && WellFormed(v) && AllWs(post) && WellFormedItems(tail)
  }

  predicate WellFormedMembers(members: Members)
    decreases members
  {
    match members
    case MNil => true
    case MCons(pre, _, gap, sep, v, post, tail) =>
      AllWs(pre) && AllWs(gap) && AllWs(sep) && WellFormed(v) && AllWs(post) && WellFormedMembers(tail)
  }

  /** The value a document denotes, its layout forgotten. */
  function Value(d: Doc): Json
    decreases d
  {
    match d
    case DStr(s) => Str(s)
    case DAtom(text) => Atom(text)
    case DArr(_, items) => Arr(ItemValues(items))
    case DObj(_, members) => Obj(MemberValues(members))
  }

  function ItemValues(items: Items): seq<Json>
    decreases items
  {
    match items
    case INil => []
    case ICons(_, v, _, tail) => [Value(v)] + ItemValues(tail)
  }

  function MemberValues(members: Members): seq<Entry>
    decreases members
  {
    match members
    case MNil => []
    case MCons(_, key, _, _, v, _, tail) => [Entry(key, Value(v))] + MemberValues(tail)
  }

  // ---------- reading ----------

  function SkipWs(s: string): (t: string)
    ensures |t| <= |s|
    ensures t != "" ==> !IsWs(t[0])
  {
    s[Span(s, IsWs)..]
  }

  /** The part of a string literal after its opening quote: the decoded content and the text after the literal. */
  function ReadString(s: string): (r: Option<(string, string)>)
    ensures r.Some? ==> |r.value.1| < |s|
  {
    if s == "" then None
    else if s[0] == '"' then Some(("", s[1..]))
    else
      match ReadChar(s)
      case None => None
      case Some((c, n)) => Prepend(c, ReadString(s[n..]))
  }

  /** One character of a string literal and how many bytes spell it. */
  function ReadChar(s: string): (r: Option<(char, nat)>)
    requires s != ""
    ensures r.Some? ==> 0 < r.value.1 <= |s|
  {
    if s[0] < ' ' then None
    else if s[0] != '\\' then Some((s[0], 1))
    else if |s| < 2 then None
    else if s[1] == 'u' then
      (match ReadHex4(s[2..])
       case None => None
       case Some(c) => Some((c, 6)))
    else
      (match Unescape(s[1])
       case None => None
       case Some(c) => Some((c, 2)))
  }

  function Prepend(c: char, r: Option<(string, string)>): Option<(string, string)> {
    match r
    case None => None
    case Some((t, rest)) => Some(([c] + t, rest))
  }

  function Unescape(c: char): Option<char> {
    if c == '"' || c == '\\' || c == '/' then Some(c)
    else if c == 'b' then Some('\U{8}')
    else if c == 'f' then Some('\U{c}')
    else if c == 'n' then Some('\n')
    else if c == 'r' then Some('\r')
    else if c == 't' then Some('\t')
    else None
  }

  /** Four hexadecimal digits, outside the surrogate range. */
  function ReadHex4(s: string): (r: Option<char>)
    ensures r.Some? ==> |s| >= 4
  {
    if |s| < 4 then None else
    match (HexValue(s[0]), HexValue(s[1]), HexValue(s[2]), HexValue(s[3]))
    case (Some(a), Some(b), Some(c), Some(d)) =>
      var n := ((a * 16 + b) * 16 + c) * 16 + d;
      if n < 0xd800 then Some(n as char) else None
    case _ => None
  }

  function ReadAtom(s: string): (r: Option<(Json, string)>)
    ensures r.Some? ==> |r.value.1| < |s|
  {
    var n := Span(s, IsAtomChar);
    if n > 0 && IsAtom(s[..n]) then Some((Atom(s[..n]), s[n..])) else None
  }

  /** The value `s` starts with, and the text after it. */
  function ReadValue(s: string): (r: Option<(Json, string)>)
    ensures r.Some? ==> |r.value.1| < |s|
    decreases |s|, 0
  {
    if s == "" then None
    else if s[0] == '"' then
      (match ReadString(s[1..])
       case None => None
       case Some((t, rest)) => Some((Str(t), rest)))
    else if s[0] == '[' then
      var t := SkipWs(s[1..]);
      if t != "" && t[0] == ']' then Some((Arr([]), t[1..])) else
      (match ReadItems(t)
       case None => None
       case Some((vs, rest)) => Some((Arr(vs), rest)))
    else if s[0] == '{' then
      var t := SkipWs(s[1..]);
      if t != "" && t[0] == '}' then Some((Obj([]), t[1..])) else
      (match ReadMembers(t)
       case None => None
       case Some((ms, rest)) => Some((Obj(ms), rest)))
    else ReadAtom(s)
  }

  /** One or more values separated by commas, up to the closing bracket. */
  function ReadItems(s: string): (r: Option<(seq<Json>, string)>)
    ensures r.Some? ==> |r.value.1| < |s|
    decreases |s|, 1
  {
    match ReadValue(s)
    case None => None
    case Some((v, afterValue)) =>
      var t := SkipWs(afterValue);
      if t == "" then None
      else if t[0] == ']' then Some(([v], t[1..]))
      else if t[0] != ',' then None
      else
        match ReadItems(SkipWs(t[1..]))
        case None => None
        case Some((vs, rest)) => Some(([v] + vs, rest))
  }

  /** One or more members separated by commas, up to the closing brace. */
  function ReadMembers(s: string): (r: Option<(seq<Entry>, string)>)
    ensures r.Some? ==> |r.value.1| < |s|
    decreases |s|, 1
  {
    if s == "" || s[0] != '"' then None else
    match ReadString(s[1..])
    case None => None
    case Some((key, afterKey)) =>
      var colon := SkipWs(afterKey);
      if colon == "" || colon[0] != ':' then None else
      match ReadValue(SkipWs(colon[1..]))
      case None => None
      case Some((v, afterValue)) =>
        var t := SkipWs(afterValue);
        if t == "" then None
        else if t[0] == '}' then Some(([Entry(key, v)], t[1..]))
        else if t[0] != ',' then None
        else
          match ReadMembers(SkipWs(t[1..]))
          case None => None
          case Some((ms, rest)) => Some(([Entry(key, v)] + ms, rest))
  }

  /** A whole JSON text. */
  function Read(s: string): Option<Json> {
    match ReadValue(SkipWs(s))
    case None => None
    case Some((v, rest)) => if SkipWs(rest) == "" then Some(v) else None
  }

  // ---------- the reader inverts the printer ----------

  lemma SkipWsPadded(ws: string, s: string)
    requires AllWs(ws)
    requires s == "" || !IsWs(s[0])
    ensures SkipWs(ws + s) == s
  {
    SpanUnique(ws + s, IsWs, |ws|);
  }

  lemma HexRoundTrip(n: nat)
    requires n < 16
    ensures HexValue(HexChar(n)) == Some(n)
  {}

  /** The reader takes an escaped character as a whole. */
  lemma ReadEscapeChar(c: char, rest: string)
    ensures ReadChar(EscapeChar(c) + rest) == Some((c, |EscapeChar(c)|))
    ensures (EscapeChar(c) + rest)[0] != '"'
  {
    var s := EscapeChar(c) + rest;
    if |EscapeChar(c)| == 6 {
      HexRoundTrip(c as int / 16);
      HexRoundTrip(c as int % 16);
      HexRoundTrip(0);
      var t := s[2..];
      assert t[0] == '0' && t[1] == '0' && t[2] == HexChar(c as int / 16) && t[3] == HexChar(c as int % 16);
    }
  }

  lemma {:induction false} ReadEscaped(s: string, rest: string)
    ensures ReadString(EscapeTo(s, "\"" + rest)) == Some((s, rest))
  {
    if s == "" {
      assert ("\"" + rest)[1..] == rest;
    } else {
      var tail := EscapeTo(s[1..], "\"" + rest);
      ReadEscaped(s[1..], rest);
      ReadEscapeChar(s[0], tail);
      assert (EscapeChar(s[0]) + tail)[|EscapeChar(s[0])|..] == tail;
      assert [s[0]] + s[1..] == s;
    }
  }

  lemma ReadQuoted(s: string, rest: string)
    ensures ReadString(QuoteTo(s, rest)[1..]) == Some((s, rest))
  {
    ReadEscaped(s, rest);
    DropHead("\"", EscapeTo(s, "\"" + rest));
  }

  lemma DropHead(c: string, rest: string)
    requires |c| == 1
    ensures (c + rest)[1..] == rest && (c + rest)[0] == c[0]
  {}

  ghost predicate AllAtomChars(s: string) {
    forall i: nat | i < |s| :: IsAtomChar(s[i])
  }

  lemma AtomCharsConcat(s: string, t: string)
    requires AllAtomChars(s) && AllAtomChars(t)
    ensures AllAtomChars(s + t)
  {}

  lemma ExponentChars(s: string)
    requires IsExponent(s)
    ensures AllAtomChars(s)
  {
    if s != "" {
      var t := s[1..];
      var d := if t != "" && (t[0] == '+' || t[0] == '-') then t[1..] else t;
      assert forall i: nat | i < |d| :: d[i] in d;
      assert s == s[..|s| - |d|] + d;
    }
  }

  lemma FractionExponentChars(s: string)
    requires IsFractionExponent(s)
    ensures AllAtomChars(s)
  {
    if s != "" && s[0] == '.' {
      var t := s[1..];
      var n := DigitRun(t);
      ExponentChars(t[n..]);
      AtomCharsConcat(t[..n], t[n..]);
      assert t == t[..n] + t[n..];
      assert s == "." + t;
    } else {
      ExponentChars(s);
    }
  }

  lemma UnsignedChars(t: string)
    requires IsFractionExponent(t[DigitRun(t)..])
    ensures AllAtomChars(t)
  {
    var n := DigitRun(t);
    FractionExponentChars(t[n..]);
    AtomCharsConcat(t[..n], t[n..]);
    assert t == t[..n] + t[n..];
  }

  lemma NumberChars(s: string)
    requires IsNumber(s)
    ensures s != "" && AllAtomChars(s)
  {
    if s[0] == '-' {
      UnsignedChars(s[1..]);
      assert s == "-" + s[1..];
    } else {
      UnsignedChars(s);
    }
  }

  lemma AtomChars(s: string)
    requires IsAtom(s)
    ensures s != "" && AllAtomChars(s)
  {
    if s != "true" && s != "false" && s != "null" {
      NumberChars(s);
    }
  }

  predicate EndsAtom(rest: string) {
    rest == "" || !IsAtomChar(rest[0])
  }

  lemma WsEndsAtom(ws: string, rest: string)
    requires AllWs(ws) && EndsAtom(rest)
    ensures EndsAtom(ws + rest)
  {
    if ws != "" {
      assert ws[0] in ws;
    }
  }

  lemma PrintStarts(d: Doc, rest: string)
    requires WellFormed(d)
    ensures PrintTo(d, rest) != "" && !IsWs(PrintTo(d, rest)[0]) && PrintTo(d, rest)[0] != ']'
  {
    if d.DAtom? {
      AtomChars(d.text);
      assert IsAtomChar(d.text[0]);
    }
  }

  lemma {:induction false} ReadPrinted(d: Doc, rest: string)
    requires WellFormed(d) && EndsAtom(rest)
    ensures ReadValue(PrintTo(d, rest)) == Some((Value(d), rest))
    decreases d
  {
    match d
    case DStr(s) =>
      ReadQuoted(s, rest);
    case DAtom(text) =>
      ReadAtomText(text, rest);
    case DArr(ws, items) =>
      DropHead("]", rest);
      if items.INil? {
        SkipWsPadded(ws, "]" + rest);
      } else {
        ReadPrintedItems(ws, items, rest);
      }
      ReadArr(ws + ItemsTo(items, "]" + rest), ItemValues(items), rest);
    case DObj(ws, members) =>
      DropHead("}", rest);
      if members.MNil? {
        SkipWsPadded(ws, "}" + rest);
      } else {
        ReadPrintedMembers(ws, members, rest);
      }
      ReadObj(ws + MembersTo(members, "}" + rest), MemberValues(members), rest);
  }

  lemma ReadAtomText(text: string, rest: string)
    requires IsAtom(text) && EndsAtom(rest)
    ensures ReadValue(text + rest) == Some((Atom(text), rest))
  {
    AtomChars(text);
    SpanUnique(text + rest, IsAtomChar, |text|);
    assert (text + rest)[..|text|] == text;
    assert (text + rest)[|text|..] == rest;
    assert IsAtomChar(text[0]);
    ReadValueAtom(text + rest);
  }

  lemma ReadValueAtom(s: string)
    requires s != "" && IsAtomChar(s[0])
    ensures ReadValue(s) == ReadAtom(s)
  {}

  lemma ReadArr(inner: string, vs: seq<Json>, rest: string)
    requires SkipWs(inner) != ""
    requires if SkipWs(inner)[0] == ']' then vs == [] && rest == SkipWs(inner)[1..]
             else ReadItems(SkipWs(inner)) == Some((vs, rest))
    ensures ReadValue("[" + inner) == Some((Arr(vs), rest))
  {
    DropHead("[", inner);
  }

  lemma ReadObj(inner: string, ms: seq<Entry>, rest: string)
    requires SkipWs(inner) != ""
    requires if SkipWs(inner)[0] == '}' then ms == [] && rest == SkipWs(inner)[1..]
             else ReadMembers(SkipWs(inner)) == Some((ms, rest))
    ensures ReadValue("{" + inner) == Some((Obj(ms), rest))
  {
    DropHead("{", inner);
  }

  lemma ReadItemsStep(s: string, v: Json, afterValue: string)
    requires ReadValue(s) == Some((v, afterValue))
    requires SkipWs(afterValue) != ""
    ensures SkipWs(afterValue)[0] == ']' ==> ReadItems(s) == Some(([v], SkipWs(afterValue)[1..]))
    ensures SkipWs(afterValue)[0] == ',' ==>
              match ReadItems(SkipWs(SkipWs(afterValue)[1..]))
              case None => ReadItems(s).None?
              case Some((vs, rest)) => ReadItems(s) == Some(([v] + vs, rest))
  {}

  lemma {:induction false} ReadPrintedItems(ws: string, items: Items, rest: string)
    requires AllWs(ws) && items.ICons? && WellFormedItems(items)
    ensures var s := SkipWs(ws + ItemsTo(items, "]" + rest));
      s != "" && s[0] != ']' && ReadItems(s) == Some((ItemValues(items), rest))
    decreases items
  {
    var ICons(pre, v, post, tail) := items;
    var close := AfterItem(tail, "]" + rest);
    var s := PrintTo(v, post + close);
    assert ws + (pre + s) == (ws + pre) + s;
    PrintStarts(v, post + close);
    SkipWsPadded(ws + pre, s);
    WsEndsAtom(post, close);
    SkipWsPadded(post, close);
    ReadPrinted(v, post + close);
    if tail.INil? {
      assert [Value(v)] + [] == [Value(v)];
      DropHead("]", rest);
    } else {
      ReadPrintedItems("", tail, rest);
      assert "" + ItemsTo(tail, "]" + rest) == ItemsTo(tail, "]" + rest);
      DropHead(",", ItemsTo(tail, "]" + rest));
    }
    ReadItemsStep(s, Value(v), post + close);
  }

  lemma ReadMembersStep(s: string, key: string, afterKey: string, v: Json, afterValue: string)
    requires s != "" && s[0] == '"' && ReadString(s[1..]) == Some((key, afterKey))
    requires SkipWs(afterKey) != "" && SkipWs(afterKey)[0] == ':'
    requires ReadValue(SkipWs(SkipWs(afterKey)[1..])) == Some((v, afterValue))
    requires SkipWs(afterValue) != ""
    ensures SkipWs(afterValue)[0] == '}' ==> ReadMembers(s) == Some(([Entry(key, v)], SkipWs(afterValue)[1..]))
    ensures SkipWs(afterValue)[0] == ',' ==>
              match ReadMembers(SkipWs(SkipWs(afterValue)[1..]))
              case None => ReadMembers(s).None?
              case Some((ms, rest)) => ReadMembers(s) == Some(([Entry(key, v)] + ms, rest))
  {}

  /** The key and the colon of a member, up to its value. */
  lemma ReadMemberHead(key: string, gap: string, sep: string, value: string)
    requires AllWs(gap) && AllWs(sep)
    requires value != "" && !IsWs(value[0])
    ensures var afterKey := gap + (":" + (sep + value));
      && ReadString(QuoteTo(key, afterKey)[1..]) == Some((key, afterKey))
      && SkipWs(afterKey) == ":" + (sep + value)
      && SkipWs((":" + (sep + value))[1..]) == value
  {
    ReadQuoted(key, gap + (":" + (sep + value)));
    SkipWsPadded(gap, ":" + (sep + value));
    DropHead(":", sep + value);
    SkipWsPadded(sep, value);
  }

  /** One member whose value reads back, and what comes after it. */
  lemma ReadMember(key: string, gap: string, sep: string, v: Json, value: string, post: string, close: string)
    requires AllWs(gap) && AllWs(sep) && AllWs(post)
    requires value != "" && !IsWs(value[0]) && close != "" && !IsWs(close[0])
    requires ReadValue(value) == Some((v, post + close))
    ensures var s := QuoteTo(key, gap + (":" + (sep + value)));
      && (close[0] == '}' ==> ReadMembers(s) == Some(([Entry(key, v)], close[1..])))
      && (close[0] == ',' ==> match ReadMembers(SkipWs(close[1..]))
                              case None => ReadMembers(s).None?
                              case Some((ms, rest)) => ReadMembers(s) == Some(([Entry(key, v)] + ms, rest)))
  {
    var afterKey := gap + (":" + (sep + value));
    ReadMemberHead(key, gap, sep, value);
    SkipWsPadded(post, close);
    ReadMembersStep(QuoteTo(key, afterKey), key, afterKey, v, post + close);
  }

  lemma {:induction false} ReadPrintedMembers(ws: string, members: Members, rest: string)
    requires AllWs(ws) && members.MCons? && WellFormedMembers(members)
    ensures var s := SkipWs(ws + MembersTo(members, "}" + rest));
      s != "" && s[0] == '"' && ReadMembers(s) == Some((MemberValues(members), rest))
    decreases members
  {
    var MCons(pre, key, gap, sep, v, post, tail) := members;
    var close := AfterMember(tail, "}" + rest);
    var value := PrintTo(v, post + close);
    var s := QuoteTo(key, gap + (":" + (sep + value)));
    assert ws + (pre + s) == (ws + pre) + s;
    SkipWsPadded(ws + pre, s);
    PrintStarts(v, post + close);
    WsEndsAtom(post, close);
    ReadPrinted(v, post + close);
    ReadMember(key, gap, sep, Value(v), value, post, close);
    if tail.MNil? {
      assert [Entry(key, Value(v))] + [] == [Entry(key, Value(v))];
      DropHead("}", rest);
    } else {
      ReadPrintedMembers("", tail, rest);
      assert "" + MembersTo(tail, "}" + rest) == MembersTo(tail, "}" + rest);
      DropHead(",", MembersTo(tail, "}" + rest));
    }
  }

  /** Reading a printed document gives back its value, whatever its layout. */
  lemma ReadPrint(d: Doc, before: string, after: string)
    requires WellFormed(d) && AllWs(before) && AllWs(after)
    ensures Read(before + PrintTo(d, after)) == Some(Value(d))
  {
    WsEndsAtom(after, "");
    assert after + "" == after;
    ReadPrinted(d, after);
    PrintStarts(d, after);
    SkipWsPadded(before, PrintTo(d, after));
    SkipWsPadded(after, "");
  }

  // ---------- numbers ----------

  lemma DecIsNumber(n: int)
    ensures IsAtom(Dec(n))
  {
    var ds := DecNat(if n < 0 then -n else n);
    SpanUnique(ds, IsDigit, |ds|);
    assert ds[|ds|..] == "";
    if n < 0 {
      assert Dec(n)[1..] == ds;
    } else {
      assert IsDigit(ds[0]);
    }
  }
}
