/** src/json_util.c: printing strings and properties, and finding values in a JSON text by searching it. */
module JsonUtil {
  import opened CStrings
  import opened Buffer
  import opened Json

  // ---------- json_escape, json_prop_string, json_prop_int ----------

  method JsonEscape(b: Buf, s: string)
    requires b.Valid()
    modifies b, b.data
    ensures b.Valid() && (b.data == old(b.data) || fresh(b.data))
    ensures b.text == old(b.text) + Quote(s)
  {
    b.Append("\"");
    var p := 0;
    EscapeStart(old(b.text), s);
    while p < |s|
      invariant p <= |s|
      invariant b.Valid() && (b.data == old(b.data) || fresh(b.data))
      invariant b.text + EscapeTo(s[p..], "\"") == old(b.text) + Quote(s)
      decreases |s| - p
    {
      ghost var before := b.text;
      AppendEscaped(b, s[p]);
      EscapeStep(before, s, p);
      p := p + 1;
    }
    b.Append("\"");
  }

  lemma EscapeStart(start: string, s: string)
    ensures start + "\"" + EscapeTo(s[0..], "\"") == start + Quote(s)
  {
    assert "\"" + "" == "\"";
    assert s[0..] == s;
    Assoc(start, "\"", EscapeTo(s, "\""));
  }

  lemma EscapeStep(before: string, s: string, p: nat)
    requires p < |s|
    ensures before + EscapeTo(s[p..], "\"") == before + EscapeChar(s[p]) + EscapeTo(s[p + 1..], "\"")
  {
    assert s[p..][1..] == s[p + 1..];
    Assoc(before, EscapeChar(s[p]), EscapeTo(s[p + 1..], "\""));
  }

  /** The `switch` over one character. */
  method AppendEscaped(b: Buf, c: char)
    requires b.Valid()
    modifies b, b.data
    ensures b.Valid() && (b.data == old(b.data) || fresh(b.data))
    ensures b.text == old(b.text) + EscapeChar(c)
  {
    match c {
      case '"' => b.Append("\\\"");
      case '\\' => b.Append("\\\\");
      case '\U{8}' => b.Append("\\b");
      case '\U{c}' => b.Append("\\f");
      case '\n' => b.Append("\\n");
      case '\r' => b.Append("\\r");
      case '\t' => b.Append("\\t");
      case _ =>
        if c < ' ' {
          b.Append("\\u00" + [HexChar(c as int / 16), HexChar(c as int % 16)]);
        } else {
          b.AppendChar(c);
        }
    }
  }

  /** A named value of an object under construction. */
  type Member = (string, Doc)

  function Comma(needed: bool): string {
    if needed then "," else ""
  }

  /** The text of a member. */
  function MemberText(m: Member): string {
    Quote(m.0) + (":" + Print(m.1))
  }

  /** Texts separated by commas. */
  function Join(ts: seq<string>): string
    decreases |ts|, 0
  {
    if ts == [] then "" else ts[0] + JoinRest(ts[1..])
  }

  function JoinRest(ts: seq<string>): string
    decreases |ts|, 1
  {
    if ts == [] then "" else "," + Join(ts)
  }

  lemma {:induction false} JoinSnoc(ts: seq<string>, t: string)
    ensures Join(ts + [t]) == Join(ts) + (Comma(ts != []) + t)
  {
    if ts == [] {
      assert ts + [t] == [t] && [t][1..] == [];
      assert t + "" == "" + ("" + t);
    } else {
      var head, tail := ts[0], ts[1..];
      assert (ts + [t])[1..] == tail + [t];
      JoinSnoc(tail, t);
      if tail == [] {
        assert Join(tail + [t]) == t by {
          assert "" + ("" + t) == t;
        }
        assert head + ("," + t) == (head + "") + ("," + t);
      } else {
        assert head + ("," + (Join(tail) + ("," + t))) == (head + ("," + Join(tail))) + ("," + t);
      }
    }
  }

  function MemberTexts(ms: seq<Member>): (ts: seq<string>)
    ensures |ts| == |ms|
  {
    seq(|ms|, i requires 0 <= i < |ms| => MemberText(ms[i]))
  }

  function ItemTexts(ds: seq<Doc>): (ts: seq<string>)
    ensures |ts| == |ds|
  {
    seq(|ds|, i requires 0 <= i < |ds| => Print(ds[i]))
  }

  /** The members of an object as they are appended one after the other. */
  function JoinMembers(ms: seq<Member>): string {
    Join(MemberTexts(ms))
  }

  /** The elements of an array as they are appended one after the other. */
  function JoinItems(ds: seq<Doc>): string {
    Join(ItemTexts(ds))
  }

  function Compact(ms: seq<Member>): Members {
    if ms == [] then MNil else MCons("", ms[0].0, "", "", ms[0].1, "", Compact(ms[1..]))
  }

  function CompactItems(ds: seq<Doc>): Items {
    if ds == [] then INil else ICons("", ds[0], "", CompactItems(ds[1..]))
  }

  /** Documents without white space, the form the daemon prints. */
  function ObjDoc(ms: seq<Member>): Doc {
    DObj("", Compact(ms))
  }

  function ArrDoc(ds: seq<Doc>): Doc {
    DArr("", CompactItems(ds))
  }

  function IntDoc(n: int): (d: Doc)
    ensures Print(d) == Dec(n)
  {
    assert Dec(n) + "" == Dec(n);
    DAtom(Dec(n))
  }

  method PropString(b: Buf, name: string, value: string, comma: bool, ghost base: string, ghost ms: seq<Member>)
    returns (ghost grown: seq<Member>)
    requires b.Valid() && b.text == base + JoinMembers(ms) && comma == (ms != [])
    modifies b, b.data
    ensures b.Valid() && (b.data == old(b.data) || fresh(b.data))
    ensures grown == ms + [(name, DStr(value))] && b.text == base + JoinMembers(grown)
  {
    PropName(b, name, comma);
    b.Append(":");
    JsonEscape(b, value);
    grown := GrowMembers(base, ms, (name, DStr(value)), b.text);
  }

  method PropInt(b: Buf, name: string, value: int, comma: bool, ghost base: string, ghost ms: seq<Member>)
    returns (ghost grown: seq<Member>)
    requires b.Valid() && b.text == base + JoinMembers(ms) && comma == (ms != [])
    modifies b, b.data
    ensures b.Valid() && (b.data == old(b.data) || fresh(b.data))
    ensures grown == ms + [(name, IntDoc(value))] && b.text == base + JoinMembers(grown)
  {
    PropName(b, name, comma);
    ghost var before := b.text;
    b.Append(":" + Dec(value));
    Assoc(before, ":", Dec(value));
    grown := GrowMembers(base, ms, (name, IntDoc(value)), b.text);
  }

  /** The comma, if one is needed, and the name of a property. */
  method PropName(b: Buf, name: string, comma: bool)
    requires b.Valid()
    modifies b, b.data
    ensures b.Valid() && (b.data == old(b.data) || fresh(b.data))
    ensures b.text == old(b.text) + Comma(comma) + Quote(name)
  {
    if comma {
      b.Append(",");
    } else {
      assert b.text == b.text + "";
    }
    JsonEscape(b, name);
  }

  lemma Assoc(x: string, y: string, z: string)
    ensures (x + y) + z == x + (y + z)
  {}

  lemma GrowMembers(base: string, ms: seq<Member>, m: Member, text: string) returns (grown: seq<Member>)
    requires text == base + JoinMembers(ms) + Comma(ms != []) + Quote(m.0) + ":" + Print(m.1)
    ensures grown == ms + [m] && text == base + JoinMembers(grown)
  {
    grown := ms + [m];
    assert MemberTexts(grown) == MemberTexts(ms) + [MemberText(m)];
    JoinSnoc(MemberTexts(ms), MemberText(m));
    Regroup(base, JoinMembers(ms), Comma(ms != []), Quote(m.0), ":", Print(m.1));
  }

  lemma GrowItems(base: string, ds: seq<Doc>, d: Doc, text: string) returns (grown: seq<Doc>)
    requires text == base + JoinItems(ds) + Comma(ds != []) + Print(d)
    ensures grown == ds + [d] && text == base + JoinItems(grown)
  {
    grown := ds + [d];
    assert ItemTexts(grown) == ItemTexts(ds) + [Print(d)];
    JoinSnoc(ItemTexts(ds), Print(d));
    Assoc(base + JoinItems(ds), Comma(ds != []), Print(d));
    Assoc(base, JoinItems(ds), Comma(ds != []) + Print(d));
  }

  lemma Regroup(x: string, j: string, c: string, q: string, s: string, p: string)
    ensures x + j + c + q + s + p == x + (j + (c + (q + (s + p))))
  {}

  // ---------- literal pieces of objects ----------

  /** Characters that are printed as they are. */
  ghost predicate Plain(s: string) {
    forall i: nat | i < |s| :: s[i] >= ' ' && s[i] != '"' && s[i] != '\\'
  }

  lemma {:induction false} PlainBody(s: string, rest: string)
    requires Plain(s)
    ensures EscapeTo(s, rest) == s + rest
  {
    if s == "" {
      EmptyLeft(rest);
    } else {
      PlainBody(s[1..], rest);
      assert [s[0]] + (s[1..] + rest) == s + rest;
    }
  }

  lemma PlainQuote(s: string)
    requires Plain(s)
    ensures Quote(s) == "\"" + s + "\""
  {
    assert "\"" + "" == "\"";
    PlainBody(s, "\"");
    Assoc("\"", s, "\"");
  }

  /** A name with its punctuation, appended as one literal piece. */
  lemma NamePiece(before: string, name: string, piece: string)
    requires Plain(name) && piece == ",\"" + name + "\":"
    ensures before + piece == before + Comma(true) + Quote(name) + ":"
  {
    PlainQuote(name);
    assert piece == "," + ("\"" + name + "\"") + ":";
  }

  lemma CloseObject(prefix: string, ms: seq<Member>, text: string)
    requires text == prefix + "{" + JoinMembers(ms) + "}"
    ensures text == prefix + Print(ObjDoc(ms))
  {
    ObjPrinted(ms);
    Assoc(prefix, "{", JoinMembers(ms));
    Assoc(prefix, "{" + JoinMembers(ms), "}");
  }

  lemma CloseArray(prefix: string, ds: seq<Doc>, text: string)
    requires text == prefix + "[" + JoinItems(ds) + "]"
    ensures text == prefix + Print(ArrDoc(ds))
  {
    ArrPrinted(ds);
    Assoc(prefix, "[", JoinItems(ds));
    Assoc(prefix, "[" + JoinItems(ds), "]");
  }

  /** A member whose value is an array has been appended up to the array's closing bracket. */
  lemma GrowArray(base: string, ms: seq<Member>, name: string, ds: seq<Doc>, text: string) returns (grown: seq<Member>)
    requires text == base + JoinMembers(ms) + Comma(ms != []) + Quote(name) + ":" + "[" + JoinItems(ds) + "]"
    ensures grown == ms + [(name, ArrDoc(ds))] && text == base + JoinMembers(grown)
  {
    hide JoinMembers, JoinItems, Print, ArrDoc;
    CloseArray(base + JoinMembers(ms) + Comma(ms != []) + Quote(name) + ":", ds, text);
    grown := GrowMembers(base, ms, (name, ArrDoc(ds)), text);
  }

  /** `"name":[` with a comma first, appended as one literal piece. */
  lemma ArrayPiece(before: string, name: string, piece: string)
    requires Plain(name) && piece == ",\"" + name + "\":["
    ensures before + piece == before + Comma(true) + Quote(name) + ":" + "["
  {
    NamePiece(before, name, ",\"" + name + "\":");
    assert piece == (",\"" + name + "\":") + "[";
    Assoc(before, ",\"" + name + "\":", "[");
  }

  /** `{"name":[` at the start of a text. */
  lemma FirstArrayPiece(name: string, piece: string)
    requires Plain(name) && piece == "{\"" + name + "\":["
    ensures piece == "{" + JoinMembers([]) + Comma(false) + Quote(name) + ":" + "["
  {
    StartList("{");
    PlainQuote(name);
    assert piece == "{" + "" + ("\"" + name + "\"") + ":" + "[";
  }

  /** An empty list of members or items has been appended to `base`. */
  lemma StartList(base: string)
    ensures base == base + JoinMembers([]) && base == base + JoinItems([])
  {
    assert MemberTexts([]) == [] && ItemTexts([]) == [];
  }

  // ---------- objects and arrays under construction ----------

  lemma EmptyLeft(s: string)
    ensures "" + s == s
  {}

  /** The items appended one after the other are the items of the document. */
  lemma {:induction false} ItemsAreJoined(ds: seq<Doc>, rest: string)
    requires ds != []
    ensures ItemsTo(CompactItems(ds), rest) == JoinItems(ds) + rest
  {
    var d, tail := ds[0], ds[1..];
    var after := AfterItem(CompactItems(tail), rest);
    EmptyLeft(after);
    EmptyLeft(PrintTo(d, after));
    PrintToRest(d, "", after);
    assert ItemTexts(ds)[1..] == ItemTexts(tail);
    assert JoinItems(ds) == Print(d) + JoinRest(ItemTexts(tail));
    if tail == [] {
      assert ItemTexts(tail) == [];
      JoinLast(Print(d), rest);
    } else {
      ItemsAreJoined(tail, rest);
      JoinStep(Print(d), JoinItems(tail), rest);
    }
  }

  lemma JoinStep(head: string, tail: string, rest: string)
    ensures head + ("," + (tail + rest)) == (head + ("," + tail)) + rest
  {}

  lemma JoinLast(head: string, rest: string)
    ensures head + rest == (head + "") + rest
  {}

  /** The members appended one after the other are the members of the document. */
  lemma {:induction false} MembersAreJoined(ms: seq<Member>, rest: string)
    requires ms != []
    ensures MembersTo(Compact(ms), rest) == JoinMembers(ms) + rest
  {
    var m, tail := ms[0], ms[1..];
    var after := AfterMember(Compact(tail), rest);
    MemberHead(m, after);
    assert MemberTexts(ms)[1..] == MemberTexts(tail);
    assert JoinMembers(ms) == MemberText(m) + JoinRest(MemberTexts(tail));
    if tail == [] {
      assert MemberTexts(tail) == [];
      JoinLast(MemberText(m), rest);
    } else {
      MembersAreJoined(tail, rest);
      JoinStep(MemberText(m), JoinMembers(tail), rest);
    }
  }

  lemma MemberHead(m: Member, after: string)
    ensures "" + QuoteTo(m.0, "" + (":" + ("" + PrintTo(m.1, "" + after)))) == MemberText(m) + after
  {
    var value := PrintTo(m.1, after);
    EmptyLeft(after);
    EmptyLeft(value);
    EmptyLeft(":" + value);
    EmptyLeft(QuoteTo(m.0, ":" + value));
    PrintToRest(m.1, "", after);
    QuoteToRest(m.0, "", ":" + value);
    Assoc(":", Print(m.1), after);
    Assoc(Quote(m.0), ":" + Print(m.1), after);
  }

  lemma ObjPrinted(ms: seq<Member>)
    ensures Print(ObjDoc(ms)) == "{" + JoinMembers(ms) + "}"
  {
    assert "}" + "" == "}";
    EmptyLeft(MembersTo(Compact(ms), "}"));
    if ms == [] {
      EmptyLeft("}");
    } else {
      MembersAreJoined(ms, "}");
    }
    Assoc("{", JoinMembers(ms), "}");
  }

  lemma ArrPrinted(ds: seq<Doc>)
    ensures Print(ArrDoc(ds)) == "[" + JoinItems(ds) + "]"
  {
    assert "]" + "" == "]";
    EmptyLeft(ItemsTo(CompactItems(ds), "]"));
    if ds == [] {
      EmptyLeft("]");
    } else {
      ItemsAreJoined(ds, "]");
    }
    Assoc("[", JoinItems(ds), "]");
  }

  lemma {:induction false} CompactWellFormed(ms: seq<Member>)
    requires forall i: nat | i < |ms| :: WellFormed(ms[i].1)
    ensures WellFormedMembers(Compact(ms))
  {
    if ms != [] {
      CompactWellFormed(ms[1..]);
    }
  }

  lemma {:induction false} CompactItemsWellFormed(ds: seq<Doc>)
    requires forall i: nat | i < |ds| :: WellFormed(ds[i])
    ensures WellFormedItems(CompactItems(ds))
  {
    if ds != [] {
      CompactItemsWellFormed(ds[1..]);
    }
  }

  /** The members a reader finds in a compact object. */
  function Entries(ms: seq<Member>): (es: seq<Entry>)
    ensures |es| == |ms|
  {
    seq(|ms|, i requires 0 <= i < |ms| => Entry(ms[i].0, Value(ms[i].1)))
  }

  function Values(ds: seq<Doc>): (vs: seq<Json>)
    ensures |vs| == |ds|
  {
    seq(|ds|, i requires 0 <= i < |ds| => Value(ds[i]))
  }

  lemma {:induction false} CompactValue(ms: seq<Member>)
    ensures MemberValues(Compact(ms)) == Entries(ms)
  {
    if ms != [] {
      CompactValue(ms[1..]);
      assert Entries(ms) == [Entry(ms[0].0, Value(ms[0].1))] + Entries(ms[1..]);
    }
  }

  lemma {:induction false} CompactItemsValue(ds: seq<Doc>)
    ensures ItemValues(CompactItems(ds)) == Values(ds)
  {
    if ds != [] {
      CompactItemsValue(ds[1..]);
      assert Values(ds) == [Value(ds[0])] + Values(ds[1..]);
    }
  }

  /** The text of a compact object reads back as its members. */
  lemma ReadObject(ms: seq<Member>)
    requires forall i: nat | i < |ms| :: WellFormed(ms[i].1)
    ensures Read("{" + JoinMembers(ms) + "}") == Some(Obj(Entries(ms)))
  {
    CompactWellFormed(ms);
    CompactValue(ms);
    ObjPrinted(ms);
    ReadPrint(ObjDoc(ms), "", "");
    assert "" + Print(ObjDoc(ms)) == Print(ObjDoc(ms));
  }

  // ---------- find_key_value, json_get_string, json_get_int ----------

  const NEEDLE_MAX: nat := 159

  /** The quoted key that is searched for, cut to the size of the buffer it is built in. */
  function Needle(key: string, max: nat): string {
    Take("\"" + key + "\"", max)
  }

  /** The text at which the value of `key` starts: after the first occurrence of the quoted key, if a colon follows. */
  function FindKeyValue(json: string, key: string): (r: Option<string>) {
    var needle := Needle(key, NEEDLE_MAX);
    match Find(json, needle)
    case None => None
    case Some(i) => ValueAfterKey(json[i + |needle|..])
  }

  /** The text after a colon, which white space may surround. */
  function ValueAfterKey(s: string): Option<string> {
    var p := SkipSpace(s);
    if p == "" || p[0] != ':' then None else Some(SkipSpace(p[1..]))
  }

  /** What an escaped character stands for. */
  function Unbackslash(c: char): char {
    if c == 'n' then '\n' else if c == 'r' then '\r' else if c == 't' then '\t' else c
  }

  /** The content of the string literal that `s` continues, up to its closing quote or the end of the text. */
  function Decode(s: string): string {
    if s == "" || s[0] == '"' then ""
    else if s[0] == '\\' && |s| > 1 then [Unbackslash(s[1])] + Decode(s[2..])
    else [s[0]] + Decode(s[1..])
  }

  /** The string value found for `key`. */
  function StringValue(json: string, key: string): Option<string> {
    match FindKeyValue(json, key)
    case None => None
    case Some(v) => if v != "" && v[0] == '"' then Some(Decode(v[1..])) else None
  }

  /** The integer value found for `key`. */
  function IntegerValue(json: string, key: string, fallback: int): int {
    match FindKeyValue(json, key)
    case None => fallback
    case Some(v) => Atoi(v)
  }

  method JsonGetString(json: string, key: string) returns (r: Option<string>)
    ensures r == StringValue(json, key)
  {
    hide FindKeyValue;
    var v := FindKeyValue(json, key);
    if v.None? || v.value == "" || v.value[0] != '"' {
      return None;
    }
    var s := v.value[1..];
    var out := new Buf(64);
    var p := 0;
    assert s[0..] == s;
    while p < |s| && s[p] != '"'
      invariant p <= |s|
      invariant out.Valid() && fresh(out) && fresh(out.data)
      invariant out.text + Decode(s[p..]) == Decode(s)
      decreases |s| - p
    {
      DecodeStep(out.text, s, p);
      if s[p] == '\\' && p + 1 < |s| {
        p := p + 1;
        match s[p] {
          case 'n' => out.AppendChar('\n');
          case 'r' => out.AppendChar('\r');
          case 't' => out.AppendChar('\t');
          case c => out.AppendChar(c);
        }
      } else {
        out.AppendChar(s[p]);
      }
      p := p + 1;
    }
    DecodeEnd(out.text, s, p);
    var text := out.CString();
    r := Some(text);
  }

  lemma DecodeEnd(before: string, s: string, p: nat)
    requires p <= |s| && (p == |s| || s[p] == '"')
    ensures before + Decode(s[p..]) == before
  {
    assert s[p..] == "" || s[p..][0] == '"';
  }

  lemma DecodeStep(before: string, s: string, p: nat)
    requires p < |s| && s[p] != '"'
    ensures before + Decode(s[p..]) ==
            if s[p] == '\\' && p + 1 < |s| then before + [Unbackslash(s[p + 1])] + Decode(s[p + 2..])
            else before + [s[p]] + Decode(s[p + 1..])
  {
    var t := s[p..];
    if s[p] == '\\' && p + 1 < |s| {
      assert t[2..] == s[p + 2..];
      Assoc(before, [Unbackslash(s[p + 1])], Decode(s[p + 2..]));
    } else {
      assert t[1..] == s[p + 1..];
      Assoc(before, [s[p]], Decode(s[p + 1..]));
    }
  }

  method JsonGetInt(json: string, key: string, fallback: int) returns (n: int)
    ensures n == IntegerValue(json, key, fallback)
    ensures IsInt(fallback) ==> IsInt(n)
  {
    var v := FindKeyValue(json, key);
    if v.None? {
      return fallback;
    }
    n := Atoi(v.value);
  }

  // ---------- decoding what json_escape printed ----------

  /** A control byte for which the printer uses an escape the decoder does not know. */
  predicate IsUndecodable(c: char) {
    c < ' ' && c != '\n' && c != '\r' && c != '\t'
  }

  predicate Decodable(s: string) {
    forall i: nat | i < |s| :: !IsUndecodable(s[i])
  }

  /** What the decoder makes of one printed character. */
  function DecodedChar(c: char): (s: string)
    ensures !IsUndecodable(c) ==> s == [c]
    ensures IsUndecodable(c) ==> s != "" && s[0] != c
  {
    if c == '\U{8}' then "b"
    else if c == '\U{c}' then "f"
    else if IsUndecodable(c) then "u00" + [HexChar(c as int / 16), HexChar(c as int % 16)]
    else [c]
  }

  lemma DecodeEscapedChar(c: char, rest: string)
    ensures Decode(EscapeChar(c) + rest) == DecodedChar(c) + Decode(rest)
  {
    if |EscapeChar(c)| == 6 {
      DecodeHexEscape(c, rest);
    } else {
      hide HexChar;
      assert (EscapeChar(c) + rest)[|EscapeChar(c)|..] == rest;
    }
  }

  lemma DecodeHexEscape(c: char, rest: string)
    requires |EscapeChar(c)| == 6
    ensures Decode(EscapeChar(c) + rest) == DecodedChar(c) + Decode(rest)
  {
    var hex := [HexChar(c as int / 16), HexChar(c as int % 16)];
    HexIsPlain(c as int / 16);
    HexIsPlain(c as int % 16);
    assert EscapeChar(c) == "\\u00" + hex && DecodedChar(c) == "u00" + hex;
    DecodeUnknown(hex, rest);
  }

  lemma HexIsPlain(n: nat)
    requires n < 16
    ensures HexChar(n) != '"' && HexChar(n) != '\\'
  {}

  /** The decoder drops the backslash of an escape it does not know. */
  lemma DecodeUnknown(hex: string, rest: string)
    requires |hex| == 2 && hex[0] != '"' && hex[0] != '\\' && hex[1] != '"' && hex[1] != '\\'
    ensures Decode("\\u00" + hex + rest) == "u00" + hex + Decode(rest)
  {
    hide Decode;
    var tail := "00" + (hex + rest);
    SplitEscape("\\u00", ['\\', 'u'], "00", hex, rest);
    DecodeBackslash('u', tail);
    DecodePlain("00", hex + rest);
    DecodePlain(hex, rest);
    SplitEscape("u00", ['u'], "00", hex, Decode(rest));
  }

  lemma SplitEscape(whole: string, head: string, zeros: string, hex: string, rest: string)
    requires whole == head + zeros
    ensures whole + hex + rest == head + (zeros + (hex + rest))
  {}

  lemma DecodeBackslash(x: char, tail: string)
    ensures Decode(['\\', x] + tail) == [Unbackslash(x)] + Decode(tail)
  {
    assert (['\\', x] + tail)[2..] == tail;
  }

  lemma DecodePlain(two: string, rest: string)
    requires |two| == 2
    requires two[0] != '"' && two[0] != '\\' && two[1] != '"' && two[1] != '\\'
    ensures Decode(two + rest) == two + Decode(rest)
  {
    assert (two + rest)[1..] == [two[1]] + rest;
    assert ([two[1]] + rest)[1..] == rest;
  }

  /** A decodable text comes back unchanged, whatever follows its literal. */
  lemma {:induction false} DecodeEscaped(s: string, rest: string)
    requires Decodable(s)
    ensures Decode(EscapeTo(s, "\"" + rest)) == s
  {
    hide EscapeChar;
    if s != "" {
      DecodeEscaped(s[1..], rest);
      DecodeEscapedChar(s[0], EscapeTo(s[1..], "\"" + rest));
      assert [s[0]] + s[1..] == s;
    }
  }

  /** Decoding inverts `json_escape` exactly on the texts without a byte below 0x20 other than \n, \r and \t. */
  lemma {:induction false} DecodeEscapedIff(s: string, rest: string)
    ensures Decode(EscapeTo(s, "\"" + rest)) == s <==> Decodable(s)
  {
    hide EscapeChar;
    if Decodable(s) {
      DecodeEscaped(s, rest);
    } else {
      var c, tail := s[0], EscapeTo(s[1..], "\"" + rest);
      DecodeEscapedChar(c, tail);
      if IsUndecodable(c) {
        assert (DecodedChar(c) + Decode(tail))[0] == DecodedChar(c)[0];
      } else {
        DecodeEscapedIff(s[1..], rest);
        assert s == [c] + s[1..];
        assert ([c] + Decode(tail))[1..] == Decode(tail);
      }
    }
  }
}
