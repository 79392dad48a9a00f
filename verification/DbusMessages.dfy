/** src/parsers.c: the message list in the reply of `dbus-send`. */
module DbusMessages {
  import opened CStrings
  import opened Buffer
  import opened Json
  import opened JsonUtil
  import opened Payload

  // ---------- what the parser reports ----------

  /** A message and its properties; the value of a property is the document printed for its variant. */
  datatype Item = Item(path: string, props: seq<Member>)

  /** What the parser knows after some lines: the finished items, the open one, and a key waiting for its value. */
  datatype State = State(items: seq<Item>, current: Option<Item>, key: Option<string>)

  const START: State := State([], None, None)

  predicate IsTokenChar(c: char) {
    !IsSpace(c) && c != ')'
  }

  /** `append_dbus_variant_json`: the document for the variant on a line. */
  function VariantDoc(line: string): Doc {
    match Find(line, "variant")
    case None => DAtom("null")
    case Some(i) => VariantValue(SkipSpace(line[i + 7..]))
  }

  function VariantValue(p: string): Doc {
    if "string" <= p || "object path" <= p then DStr(QuotedOr(p))
    else if "boolean" <= p then DAtom(if "true" <= SkipSpace(p[7..]) then "true" else "false")
    else
      var t := SkipSpace(p[Span(p, c => !IsSpace(c))..]);
      var token := Take(t[..Span(t, IsTokenChar)], 127);
      DAtom(if token == "" then "null" else token)
  }

  /** The quoted text in `p`; nothing if there is none. */
  function QuotedOr(p: string): string {
    match QuotedAfter(p) case None => "" case Some(s) => s
  }

  /** The finished items when the open one is finished too. */
  function Finish(st: State): seq<Item> {
    st.items + match st.current case None => [] case Some(item) => [item]
  }

  /** The effect of one trimmed line. */
  function Step(st: State, line: string): State {
    if "object path " <= line then
      State(Finish(st), match QuotedAfter(line) case None => None case Some(path) => Some(Item(path, [])), None)
    else if st.current.None? then st
    else if "string " <= line && st.key.None? then st.(key := QuotedAfter(line))
    else if "variant" <= line && st.key.Some? then
      st.(current := Some(AddProp(st.current.value, (st.key.value, VariantDoc(line)))), key := None)
    else if line == ")" || line == "]" then st.(key := None)
    else st
  }

  function AddProp(item: Item, m: Member): Item {
    Item(item.path, item.props + [m])
  }

  function Run(st: State, lines: seq<string>): State
    decreases |lines|
  {
    if lines == [] then st else Run(Step(st, Trim(lines[0])), lines[1..])
  }

  function ItemsOf(raw: string): seq<Item> {
    Finish(Run(START, Lines(raw)))
  }

  function ItemMembers(index: nat, item: Item): seq<Member> {
    [("index", IntDoc(index)), ("path", DStr(item.path)), ("properties", ObjDoc(item.props))]
  }

  /** Items are numbered from 1. */
  function ItemDocs(items: seq<Item>): (ds: seq<Doc>)
    ensures |ds| == |items|
  {
    seq(|items|, i requires 0 <= i < |items| => ObjDoc(ItemMembers(i + 1, items[i])))
  }

  function ReplyMembers(raw: string): seq<Member> {
    [("items", ArrDoc(ItemDocs(ItemsOf(raw)))), ("raw", DStr(raw))]
  }

  // ---------- parse_dbus_messages_json ----------

  method AppendDbusVariantJson(b: Buf, line: string)
    requires b.Valid()
    modifies b, b.data
    ensures b.Valid() && (b.data == old(b.data) || fresh(b.data))
    ensures b.text == old(b.text) + Print(VariantDoc(line))
  {
    var i := Find(line, "variant");
    if i.None? {
      AtomPrinted("null");
      b.Append("null");
      return;
    }
    var p := SkipSpace(line[i.value + 7..]);
    if "string" <= p || "object path" <= p {
      var s := ExtractQuotedAfter(p);
      if s.None? {
        EmptyPrinted();
        b.Append("\"\"");
        return;
      }
      JsonEscape(b, s.value);
      return;
    }
    if "boolean" <= p {
      p := SkipSpace(p[7..]);
      AtomPrinted(if "true" <= p then "true" else "false");
      b.Append(if "true" <= p then "true" else "false");
      return;
    }
    p := SkipSpace(p[Span(p, c => !IsSpace(c))..]);
    var token := ReadToken(p);
    AtomPrinted(if token == "" then "null" else token);
    b.Append(if token == "" then "null" else token);
  }

  /** The loop that fills the token buffer of 128 bytes. */
  method ReadToken(p: string) returns (token: string)
    ensures token == Take(p[..Span(p, IsTokenChar)], 127)
  {
    var n := 0;
    while n < |p| && IsTokenChar(p[n]) && n + 1 < 128
      invariant 0 <= n <= |p| && n <= 127
      invariant forall k: nat | k < n :: IsTokenChar(p[k])
    {
      n := n + 1;
    }
    token := p[..n];
    TokenIsPrefix(p, n);
  }

  lemma TokenIsPrefix(p: string, n: nat)
    requires n <= |p| && n <= 127
    requires forall k: nat | k < n :: IsTokenChar(p[k])
    requires n == |p| || !IsTokenChar(p[n]) || n == 127
    ensures p[..n] == Take(p[..Span(p, IsTokenChar)], 127)
  {
    if n == |p| || !IsTokenChar(p[n]) {
      SpanUnique(p, IsTokenChar, n);
    } else {
      var m := Span(p, IsTokenChar);
      assert m >= n;
      assert p[..m][..127] == p[..n];
    }
  }

  lemma AtomPrinted(text: string)
    ensures Print(DAtom(text)) == text
  {
    assert text + "" == text;
  }

  lemma EmptyPrinted()
    ensures Print(DStr("")) == "\"\""
  {
    assert "\"" + "" == "\"";
  }

  /** The text of an item up to the opening brace of its properties. */
  ghost function ItemPrefix(index: nat, path: string): string {
    "{" + JoinMembers([("index", IntDoc(index)), ("path", DStr(path))]) + Comma(true) + Quote("properties") + ":" + "{"
  }

  /** The text of the item under construction. */
  ghost function OpenText(st: State): string {
    match st.current
    case None => ""
    case Some(item) => ItemPrefix(|st.items| + 1, item.path) + JoinMembers(item.props)
  }

  method OpenItem(item: Buf, index: nat, path: string)
    requires item.Valid() && item.text == ""
    modifies item, item.data
    ensures item.Valid() && (item.data == old(item.data) || fresh(item.data))
    ensures item.text == ItemPrefix(index, path) + JoinMembers([])
  {
    hide JoinMembers, IntDoc, Quote, Print;
    item.Append("{\"index\":");
    IndexPiece();
    EmptyLeft("{\"index\":");
    item.Append(Dec(index));
    IntPrinted(index);
    StrPrinted(path);
    ghost var ms := GrowMembers("{", [], ("index", IntDoc(index)), item.text);
    NamePiece(item.text, "path", ",\"path\":");
    item.Append(",\"path\":");
    JsonEscape(item, path);
    ms := GrowMembers("{", ms, ("path", DStr(path)), item.text);
    assert ms == [("index", IntDoc(index)), ("path", DStr(path))];
    PropertiesPiece(item.text);
    item.Append(",\"properties\":{");
    StartList(item.text);
  }

  lemma IndexPiece()
    ensures "{\"index\":" == "{" + JoinMembers([]) + Comma(false) + Quote("index") + ":"
  {
    StartList("{");
    PlainQuote("index");
    assert "{\"index\":" == "{" + "" + ("\"" + "index" + "\"") + ":";
  }

  lemma IntPrinted(n: int)
    ensures Print(IntDoc(n)) == Dec(n)
  {}

  lemma StrPrinted(s: string)
    ensures Print(DStr(s)) == Quote(s)
  {}

  lemma PropertiesPiece(before: string)
    ensures before + ",\"properties\":{" == before + Comma(true) + Quote("properties") + ":" + "{"
  {
    NamePiece(before, "properties", ",\"properties\":");
    assert ",\"properties\":{" == ",\"properties\":" + "{";
    Assoc(before, ",\"properties\":", "{");
  }

  /** The closing braces complete the document of the item. */
  lemma CloseItem(index: nat, item: Item, text: string)
    requires text == ItemPrefix(index, item.path) + JoinMembers(item.props)
    ensures text + "}}" == Print(ObjDoc(ItemMembers(index, item)))
  {
    hide JoinMembers, Quote, Print, ObjDoc, IntDoc;
    var two := [("index", IntDoc(index)), ("path", DStr(item.path))];
    var head := "{" + JoinMembers(two) + Comma(true) + Quote("properties") + ":";
    CloseObject(head, item.props, text + "}");
    var ms := GrowMembers("{", two, ("properties", ObjDoc(item.props)), text + "}");
    assert ms == ItemMembers(index, item);
    CloseObject("", ms, text + "}" + "}");
    assert "}}" == "}" + "}";
    Assoc(text, "}", "}");
    EmptyLeft("{");
    EmptyLeft(Print(ObjDoc(ms)));
  }

  /** Ends the open item: its closing braces, and its text appended to the list. */
  method EmitItem(out: Buf, item: Buf, firstItem: bool, ghost base: string, ghost st: State)
    requires out.Valid() && item.Valid() && out != item && out.data != item.data
    requires out.text == base + JoinItems(ItemDocs(st.items)) && firstItem == (st.items == [])
    requires st.current.Some? && item.text == OpenText(st)
    modifies out, out.data, item, item.data
    ensures out.Valid() && (out.data == old(out.data) || fresh(out.data))
    ensures out.text == base + JoinItems(ItemDocs(Finish(st)))
  {
    hide JoinItems, JoinMembers, Print, ObjDoc, ItemPrefix, ItemMembers;
    ghost var index := |st.items| + 1;
    CloseItem(index, st.current.value, item.text);
    item.Append("}}");
    if !firstItem {
      out.Append(",");
    } else {
      assert out.text + "" == out.text;
    }
    var text := item.CString();
    out.Append(text);
    ghost var d := ObjDoc(ItemMembers(index, st.current.value));
    ghost var grown := GrowItems(base, ItemDocs(st.items), d, out.text);
    assert ItemDocs(Finish(st)) == ItemDocs(st.items) + [d];
  }

  /** One line: the body of the loop. */
  method HandleLine(out: Buf, item0: Buf, line: string, key0: Option<string>, haveItem0: bool, firstItem0: bool,
                    firstProp0: bool, index0: nat, ghost base: string, ghost st: State)
    returns (item: Buf, key: Option<string>, haveItem: bool, firstItem: bool, firstProp: bool, index: nat)
    requires Holds(out, item0, key0, haveItem0, firstItem0, firstProp0, index0, base, st)
    modifies out, out.data, item0, item0.data
    ensures Holds(out, item, key, haveItem, firstItem, firstProp, index, base, Step(st, line))
    ensures item == item0 || fresh(item)
    ensures item.data == old(item0.data) || fresh(item.data)
    ensures out.data == old(out.data) || fresh(out.data)
  {
    hide JoinItems, JoinMembers, ItemPrefix, VariantDoc, QuotedAfter;
    item, key, haveItem, firstItem, firstProp, index := item0, key0, haveItem0, firstItem0, firstProp0, index0;
    if "object path " <= line {
      if haveItem {
        EmitItem(out, item, firstItem, base, st);
        firstItem := false;
        item := new Buf(1024);
        key := None;
        haveItem := false;
      } else {
        assert Finish(st) == st.items;
      }
      var path := ExtractQuotedAfter(line);
      if path.None? {
        return;
      }
      index := index + 1;
      OpenItem(item, index, path.value);
      haveItem := true;
      firstProp := true;
      return;
    }
    if !haveItem {
      return;
    }
    if "string " <= line && key.None? {
      key := ExtractQuotedAfter(line);
      return;
    }
    if "variant" <= line && key.Some? {
      AppendProp(item, key.value, line, firstProp, st);
      firstProp := false;
      key := None;
      return;
    }
    if line == ")" || line == "]" {
      key := None;
    }
  }

  /** A key with the value on its variant line. */
  method AppendProp(item: Buf, key: string, line: string, firstProp: bool, ghost st: State)
    requires item.Valid() && st.current.Some? && item.text == OpenText(st)
    requires firstProp == (st.current.value.props == [])
    modifies item, item.data
    ensures item.Valid() && (item.data == old(item.data) || fresh(item.data))
    ensures item.text == OpenText(st.(current := Some(AddProp(st.current.value, (key, VariantDoc(line))))))
  {
    hide JoinMembers, ItemPrefix, VariantDoc, Print;
    ghost var open := st.current.value;
    ghost var base := ItemPrefix(|st.items| + 1, open.path);
    if !firstProp {
      item.Append(",");
    } else {
      assert item.text + "" == item.text;
    }
    JsonEscape(item, key);
    item.Append(":");
    AppendDbusVariantJson(item, line);
    ghost var ms := GrowMembers(base, open.props, (key, VariantDoc(line)), item.text);
  }

  /** The variables of the loop represent the state of the parser. */
  ghost predicate Holds(out: Buf, item: Buf, key: Option<string>, haveItem: bool, firstItem: bool, firstProp: bool,
                        index: nat, base: string, st: State)
    reads out, out.data, item, item.data
  {
    && out.Valid() && item.Valid() && out != item && out.data != item.data
    && out.text == base + JoinItems(ItemDocs(st.items)) && firstItem == (st.items == [])
    && haveItem == st.current.Some?
    && key == st.key && (st.key.Some? ==> haveItem)
    && item.text == OpenText(st)
    && index == |Finish(st)|
    && (haveItem ==> firstProp == (st.current.value.props == []))
  }

  method ParseDbusMessagesJson(raw: Option<string>) returns (json: string)
    ensures json == Print(ObjDoc(ReplyMembers(if raw.None? then "" else raw.value)))
  {
    hide JoinItems, JoinMembers, OpenText, Step, Tokens, Trim, Print, ObjDoc, ArrDoc, ItemDocs, ReplyMembers, ItemPrefix,
      DropDelims, TokenLength, Run, Holds;
    var text := if raw.None? then "" else raw.value;
    var out := new Buf(2048);
    var item := new Buf(1024);
    out.Append("{\"items\":[");
    ghost var base := out.text;
    ghost var st := START;
    StartHolds(out, item, base);
    var key: Option<string>, haveItem, firstItem, firstProp, index := None, false, true, true, 0;
    var line, save := StrTok(text, IsLineBreak);
    while line.Some?
      invariant Holds(out, item, key, haveItem, firstItem, firstProp, index, base, st)
      invariant fresh(out) && fresh(out.data) && fresh(item) && fresh(item.data)
      invariant Run(st, if line.None? then [] else [line.value] + Lines(save)) == Run(START, Lines(text))
      decreases line.Some?, |save|
    {
      RunStep(st, line.value, Lines(save));
      item, key, haveItem, firstItem, firstProp, index :=
        HandleLine(out, item, Trim(line.value), key, haveItem, firstItem, firstProp, index, base, st);
      st := Step(st, Trim(line.value));
      line, save := StrTok(save, IsLineBreak);
    }
    RunEnd(st);
    json := EndReply(out, item, key, haveItem, firstItem, firstProp, index, base, st, text);
  }

  lemma StartHolds(out: Buf, item: Buf, base: string)
    requires out.Valid() && item.Valid() && out != item && out.data != item.data && out.text == base && item.text == ""
    ensures Holds(out, item, None, false, true, true, 0, base, START)
  {
    hide JoinItems, ItemDocs;
    StartItems(base);
  }

  /** The open item is ended, then the reply. */
  method EndReply(out: Buf, item: Buf, ghost key: Option<string>, haveItem: bool, firstItem: bool, ghost firstProp: bool,
                  ghost index: nat, ghost base: string, ghost st: State, raw: string) returns (json: string)
    requires Holds(out, item, key, haveItem, firstItem, firstProp, index, base, st)
    requires Finish(st) == ItemsOf(raw) && base == "{\"items\":["
    modifies out, out.data, item, item.data
    ensures json == Print(ObjDoc(ReplyMembers(raw)))
  {
    hide JoinItems, JoinMembers, OpenText, Print, ObjDoc, ItemDocs, ItemsOf, ReplyMembers;
    if haveItem {
      EmitItem(out, item, firstItem, base, st);
    } else {
      assert Finish(st) == st.items;
    }
    json := FinishReply(out, raw);
  }

  /** The closing bracket, the raw reply, and the finished text. */
  method FinishReply(out: Buf, raw: string) returns (json: string)
    requires out.Valid() && out.text == "" + "{\"items\":[" + JoinItems(ItemDocs(ItemsOf(raw)))
    modifies out, out.data
    ensures json == Print(ObjDoc(ReplyMembers(raw)))
  {
    hide JoinItems, JoinMembers, ItemDocs, ItemsOf, Quote, Print, ObjDoc, ArrDoc;
    FirstArrayPiece("items", "{\"items\":[");
    EmptyLeft("{\"items\":[");
    out.Append("]");
    ghost var ms := GrowArray("{", [], "items", ItemDocs(ItemsOf(raw)), out.text);
    NamePiece(out.text, "raw", ",\"raw\":");
    StrPrinted(raw);
    out.Append(",\"raw\":");
    JsonEscape(out, raw);
    ms := GrowMembers("{", ms, ("raw", DStr(raw)), out.text);
    assert ms == ReplyMembers(raw);
    out.Append("}");
    ObjPrinted(ms);
    json := out.CString();
  }

  lemma StartItems(base: string)
    ensures base == base + JoinItems(ItemDocs([])) && OpenText(START) == "" && Finish(START) == []
  {
    assert ItemDocs([]) == [];
    StartList(base);
  }

  lemma RunEnd(st: State)
    ensures Run(st, []) == st
  {}

  lemma RunStep(st: State, line: string, rest: seq<string>)
    ensures Run(st, [line] + rest) == Run(Step(st, Trim(line)), rest)
  {
    hide Step, Trim;
    assert ([line] + rest)[1..] == rest;
  }
}
