/** A message list as `dbus-send` prints it, and what becomes of it in `parse_dbus_messages_json`. */
module DbusReply {
  import opened CStrings
  import opened Json
  import opened JsonUtil
  import opened Payload
  import opened DbusMessages

  // ---------- the messages and their printed form ----------

  datatype Variant =
    | VString(s: string)
    | VPath(s: string)
    | VBool(b: bool)
    | VNumber(kind: string, text: string)
    | VContainer(container: Container, inner: seq<string>)
    | VVariant(gap: string, v: Variant)

  /** What else is printed on several lines. */
  datatype Container = Array | Struct | Bytes | Descriptor

  datatype Property = Property(key: string, value: Variant)

  datatype Message = Message(path: string, props: seq<Property>)

  /** One line of the reply and the white space that indents it. */
  datatype Line = Line(indent: string, text: string)

  /** No double quote, backslash or line break. */
  predicate IsText(s: string) {
    forall i: nat | i < |s| :: s[i] != '"' && s[i] != '\\' && !IsLineBreak(s[i])
  }

  predicate IsNumeric(kind: string) {
    kind in {"byte", "int16", "uint16", "int32", "uint32", "int64", "uint64", "double"}
  }

  /** `%g` for a double that is no number. */
  predicate IsNotFinite(text: string) {
    text in {"nan", "-nan", "inf", "-inf"}
  }

  /** The token buffer holds 127 bytes. Between the brackets of a container there may be any lines. */
  predicate IsVariant(v: Variant) {
    match v
    case VString(s) => IsText(s)
    case VPath(s) => IsText(s)
    case VBool(_) => true
    case VNumber(kind, text) =>
      IsNumeric(kind) && (IsNumber(text) || (kind == "double" && IsNotFinite(text))) && |text| <= 127
    case VContainer(_, inner) => AreLineTexts(inner)
    case VVariant(gap, w) => gap != "" && IsGap(gap) && IsVariant(w)
  }

  /** The value of the variant has a counterpart in JSON that its first line spells. */
  predicate IsPlain(v: Variant) {
    match v
    case VNumber(_, text) => IsNumber(text)
    case VContainer(_, _) => false
    case VVariant(_, _) => false
    case _ => true
  }

  predicate PlainMessage(m: Message) {
    forall i: nat | i < |m.props| :: IsPlain(m.props[i].value)
  }

  predicate PlainMessages(ms: seq<Message>) {
    forall i: nat | i < |ms| :: PlainMessage(ms[i])
  }

  predicate IsMessage(m: Message) {
    IsText(m.path) && forall i: nat | i < |m.props| :: IsText(m.props[i].key) && IsVariant(m.props[i].value)
  }

  predicate IsGap(s: string) {
    forall i: nat | i < |s| :: s[i] == ' ' || s[i] == '\t'
  }

  /** A line before the list: the method return line. */
  predicate IsHeader(s: string) {
    s != "" && Trimmed(s) && (forall i: nat | i < |s| :: !IsLineBreak(s[i])) && !("object path " <= s)
  }

  function Quoted(before: string, s: string): string {
    before + ("\"" + (s + "\""))
  }

  function VariantText(v: Variant): string {
    match v
    case VString(s) => Quoted("string ", s)
    case VPath(s) => Quoted("object path ", s)
    case VBool(b) => if b then "boolean true" else "boolean false"
    case VNumber(kind, text) => kind + (" " + text)
    case VContainer(kind, _) => Opening(kind)
    case VVariant(gap, w) => "variant" + (gap + VariantText(w))
  }

  function Opening(kind: Container): string {
    match kind
    case Array => "array ["
    case Struct => "struct {"
    case Bytes => "array of bytes ["
    case Descriptor => "file descriptor"
  }

  function Closing(kind: Container): seq<string> {
    match kind
    case Struct => ["}"]
    case Descriptor => []
    case _ => ["]"]
  }

  /** The lines after the first line of a variant. */
  function LaterLines(v: Variant): seq<string> {
    match v
    case VContainer(kind, inner) => inner + Closing(kind)
    case VVariant(_, w) => LaterLines(w)
    case _ => []
  }

  function FirstLines(p: Property, gap: string): seq<string> {
    ["dict entry(", Quoted("string ", p.key), "variant" + (gap + VariantText(p.value))]
  }

  function PropertyTexts(p: Property, gap: string): seq<string> {
    FirstLines(p, gap) + (LaterLines(p.value) + [")"])
  }

  function PropertiesTexts(ps: seq<Property>, gap: string): seq<string> {
    if ps == [] then [] else PropertyTexts(ps[0], gap) + PropertiesTexts(ps[1..], gap)
  }

  function MessageTexts(m: Message, gap: string): seq<string> {
    ["struct {", Quoted("object path ", m.path), "array ["] + (PropertiesTexts(m.props, gap) + ["]", "}"])
  }

  function MessagesTexts(ms: seq<Message>, gap: string): seq<string> {
    if ms == [] then [] else MessageTexts(ms[0], gap) + MessagesTexts(ms[1..], gap)
  }

  /** The lines of the reply without their indentation. `gap` stands between `variant` and its value. */
  function ReplyTexts(header: string, ms: seq<Message>, gap: string): seq<string> {
    [header, "array ["] + (MessagesTexts(ms, gap) + ["]"])
  }

  function ReplyText(lines: seq<Line>): string {
    if lines == [] then "" else lines[0].indent + lines[0].text + ("\n" + ReplyText(lines[1..]))
  }

  /** `lines` are the texts of the reply, each with some indentation. */
  predicate IsReply(lines: seq<Line>, header: string, ms: seq<Message>, gap: string) {
    && Texts(lines) == ReplyTexts(header, ms, gap)
    && forall i: nat | i < |lines| :: IsGap(lines[i].indent)
  }

  function Texts(lines: seq<Line>): (ts: seq<string>)
    ensures |ts| == |lines|
  {
    seq(|lines|, i requires 0 <= i < |lines| => lines[i].text)
  }

  // ---------- what the messages mean ----------

  function ValueDoc(v: Variant): Doc {
    match v
    case VString(s) => DStr(s)
    case VPath(s) => DStr(s)
    case VBool(b) => DAtom(if b then "true" else "false")
    case VNumber(_, text) => DAtom(text)
    case VContainer(kind, _) => DAtom(OpeningToken(kind))
    case VVariant(_, w) => DAtom(FirstWord(w))
  }

  /** The second word of the opening line: all that the parser takes from a container. */
  function OpeningToken(kind: Container): string {
    match kind
    case Array => "["
    case Struct => "{"
    case Bytes => "of"
    case Descriptor => "descriptor"
  }

  /** The name of the inner type: all that it takes from a variant within a variant. */
  function FirstWord(v: Variant): string {
    match v
    case VString(_) => "string"
    case VPath(_) => "object"
    case VBool(_) => "boolean"
    case VNumber(kind, _) => kind
    case VContainer(kind, _) => ContainerName(kind)
    case VVariant(_, _) => "variant"
  }

  function ContainerName(kind: Container): string {
    match kind
    case Struct => "struct"
    case Descriptor => "file"
    case _ => "array"
  }

  function Props(ps: seq<Property>): (ms: seq<Member>)
    ensures |ms| == |ps|
  {
    seq(|ps|, i requires 0 <= i < |ps| => (ps[i].key, ValueDoc(ps[i].value)))
  }

  function ItemOf(m: Message): Item {
    Item(m.path, Props(m.props))
  }

  function Originals(ms: seq<Message>): (items: seq<Item>)
    ensures |items| == |ms|
  {
    seq(|ms|, i requires 0 <= i < |ms| => ItemOf(ms[i]))
  }

  // ---------- lines ----------

  /** A line of the reply survives `strtok_r` and `trim_in_place`. */
  predicate IsLineText(s: string) {
    s != "" && Trimmed(s) && forall i: nat | i < |s| :: !IsLineBreak(s[i])
  }

  lemma {:induction false} LinesOfReply(before: string, lines: seq<Line>)
    requires before == "" || before == "\n"
    requires forall i: nat | i < |lines| :: IsGap(lines[i].indent) && IsLineText(lines[i].text)
    ensures Lines(before + ReplyText(lines)) == Padded(lines)
    decreases |lines|
  {
    hide Lines, IsGap, IsLineText, TokenLength;
    if lines == [] {
      assert before + "" == before;
      LinesOfBreaks(before);
      assert Padded(lines) == [];
    } else {
      var token := lines[0].indent + lines[0].text;
      LinesOfReply("\n", lines[1..]);
      OneLine(before, lines[0], ReplyText(lines[1..]));
      assert Padded(lines) == [token] + Padded(lines[1..]);
    }
  }

  lemma LinesOfBreaks(s: string)
    requires forall i: nat | i < |s| :: IsLineBreak(s[i])
    ensures Lines(s) == []
  {
    TokensEnd(s, IsLineBreak);
  }

  lemma OneLine(before: string, line: Line, rest: string)
    requires before == "" || before == "\n"
    requires IsGap(line.indent) && IsLineText(line.text)
    ensures Lines(before + (line.indent + line.text + ("\n" + rest))) == [line.indent + line.text] + Lines("\n" + rest)
  {
    hide Tokens;
    TokensStep(before, line.indent + line.text, "\n" + rest, IsLineBreak);
  }

  function Padded(lines: seq<Line>): (ts: seq<string>)
    ensures |ts| == |lines|
  {
    seq(|lines|, i requires 0 <= i < |lines| => lines[i].indent + lines[i].text)
  }

  /** The parser on lines that are already trimmed. */
  function Steps(st: State, ts: seq<string>): State
    decreases |ts|
  {
    if ts == [] then st else Steps(Step(st, ts[0]), ts[1..])
  }

  lemma {:induction false} StepsConcat(st: State, ts: seq<string>, us: seq<string>)
    ensures Steps(st, ts + us) == Steps(Steps(st, ts), us)
    decreases |ts|
  {
    hide Step;
    if ts == [] {
      assert ts + us == us;
    } else {
      assert (ts + us)[1..] == ts[1..] + us;
      StepsConcat(Step(st, ts[0]), ts[1..], us);
    }
  }

  lemma {:induction false} RunIsSteps(st: State, lines: seq<Line>)
    requires forall i: nat | i < |lines| :: IsGap(lines[i].indent) && IsLineText(lines[i].text)
    ensures Run(st, Padded(lines)) == Steps(st, Texts(lines))
    decreases |lines|
  {
    hide Step, Trim;
    if lines != [] {
      var Line(indent, text) := lines[0];
      assert indent + text + "" == indent + text;
      TrimPadded(indent, text, "");
      assert Padded(lines)[1..] == Padded(lines[1..]) && Texts(lines)[1..] == Texts(lines[1..]);
      RunIsSteps(Step(st, text), lines[1..]);
    }
  }

  // ---------- quoted texts and variants ----------

  lemma {:induction false} DecodeText(s: string)
    requires IsText(s)
    ensures DecodeFlagged(s + "\"", false) == s
  {
    if s != "" {
      assert (s + "\"")[1..] == s[1..] + "\"";
      DecodeText(s[1..]);
    }
  }

  lemma QuotedText(before: string, s: string)
    requires '"' !in before && IsText(s)
    ensures QuotedAfter(Quoted(before, s)) == Some(s)
  {
    hide DecodeFlagged;
    var line := Quoted(before, s);
    SpanUnique(line, c => c != '"', |before|);
    assert line[|before| + 1..] == s + "\"";
    DecodeText(s);
  }

  lemma SkipGap(gap: string, s: string)
    requires IsGap(gap) && s != "" && !IsSpace(s[0])
    ensures SkipSpace(gap + s) == s
  {
    SpanUnique(gap + s, IsSpace, |gap|);
  }

  lemma VariantFound(rest: string)
    ensures Find("variant" + rest, "variant") == Some(0) && ("variant" + rest)[7..] == rest
  {
    assert Occurs("variant" + rest, "variant", 0);
    FindUnique("variant" + rest, "variant", 0);
  }

  /** Of a value that is neither quoted nor boolean the second word is copied. */
  lemma WordToken(kind: string, gap: string, text: string, rest: string)
    requires kind != "" && forall i: nat | i < |kind| :: !IsSpace(kind[i])
    requires gap != "" && IsGap(gap)
    requires !("string" <= kind + (gap + (text + rest))) && !("object path" <= kind + (gap + (text + rest)))
    requires !("boolean" <= kind + (gap + (text + rest)))
    requires text != "" && |text| <= 127 && forall i: nat | i < |text| :: IsTokenChar(text[i])
    requires rest == "" || !IsTokenChar(rest[0])
    ensures VariantValue(kind + (gap + (text + rest))) == DAtom(text)
  {
    hide QuotedOr, Take;
    var p := kind + (gap + (text + rest));
    SpanUnique(p, c => !IsSpace(c), |kind|);
    assert p[|kind|..] == gap + (text + rest);
    SkipGap(gap, text + rest);
    SpanUnique(text + rest, IsTokenChar, |text|);
    assert (text + rest)[..|text|] == text;
    TakeAll(text, 127);
  }

  lemma NumberToken(kind: string, text: string)
    requires IsNumeric(kind) && (IsNumber(text) || IsNotFinite(text)) && |text| <= 127
    ensures VariantValue(kind + (" " + text)) == DAtom(text)
  {
    hide IsNumber, IsNumeric, VariantValue;
    KindIsWord(kind, " " + text);
    NumberChars(text);
    assert text + "" == text;
    WordToken(kind, " ", text, "");
  }

  lemma NumberChars(text: string)
    requires IsNumber(text) || IsNotFinite(text)
    ensures text != "" && AllAtomChars(text)
  {
    hide IsNumber;
    if IsNumber(text) {
      AtomChars(text);
    }
  }

  /** Of a container the second word is left. */
  lemma ContainerToken(kind: Container)
    ensures VariantValue(Opening(kind)) == DAtom(OpeningToken(kind))
  {
    match kind
    case Array => ContainerWord("array", "[", "", Opening(kind));
    case Struct => ContainerWord("struct", "{", "", Opening(kind));
    case Bytes => ContainerWord("array", "of", " bytes [", Opening(kind));
    case Descriptor => ContainerWord("file", "descriptor", "", Opening(kind));
  }

  lemma ContainerWord(word: string, token: string, rest: string, line: string)
    requires word == "array" || word == "struct" || word == "file"
    requires token == "[" || token == "{" || token == "of" || token == "descriptor"
    requires rest == "" || rest == " bytes ["
    requires line == word + (" " + (token + rest))
    ensures VariantValue(line) == DAtom(token)
  {
    hide VariantValue;
    assert word[0] == 'a' || word[0] == 'f' || (word[0] == 's' && word[3] == 'u');
    assert line[0] == word[0] && line[3] == word[3];
    assert "string"[3] == 'i' && "object path"[0] == 'o' && "boolean"[0] == 'b';
    WordToken(word, " ", token, rest);
  }

  /** The printed value starts with the name of its type. */
  lemma StartsWithWord(v: Variant) returns (rest: string)
    requires IsVariant(v)
    ensures VariantText(v) == FirstWord(v) + rest && (rest == "" || !IsTokenChar(rest[0]))
  {
    hide IsNumber, IsText, AreLineTexts, IsNumeric;
    rest := VariantText(v)[|FirstWord(v)|..];
    match v {
      case VString(s) => assert VariantText(v) == "string" + (" " + ("\"" + (s + "\"")));
      case VPath(s) => assert VariantText(v) == "object" + (" path " + ("\"" + (s + "\"")));
      case VBool(b) => assert VariantText(v) == "boolean" + (if b then " true" else " false");
      case VNumber(kind, text) => assert VariantText(v) == kind + (" " + text);
      case VContainer(kind, _) => ContainerStarts(kind);
      case VVariant(gap, w) => assert VariantText(v) == "variant" + (gap + VariantText(w));
    }
  }

  lemma ContainerStarts(kind: Container)
    ensures Opening(kind) == ContainerName(kind) + Opening(kind)[|ContainerName(kind)|..]
    ensures Opening(kind)[|ContainerName(kind)|] == ' '
  {}

  lemma WordIsPlain(v: Variant)
    requires IsVariant(v)
    ensures var w := FirstWord(v); w != "" && |w| <= 127 && AllAtomChars(w) && !IsDigit(w[0]) && w[0] != '-'
  {
    hide IsNumber, IsText, AreLineTexts;
  }

  lemma NestedToken(gap: string, v: Variant)
    requires gap != "" && IsGap(gap) && IsVariant(v)
    ensures VariantValue(VariantText(VVariant(gap, v))) == DAtom(FirstWord(v))
  {
    var rest := StartsWithWord(v);
    WordIsPlain(v);
    hide FirstWord, VariantValue, IsVariant;
    var line := "variant" + (gap + (FirstWord(v) + rest));
    assert line == VariantText(VVariant(gap, v));
    assert line[0] == 'v' && "string"[0] == 's' && "object path"[0] == 'o' && "boolean"[0] == 'b';
    WordToken("variant", gap, FirstWord(v), rest);
  }

  lemma TakeAll(s: string, n: nat)
    requires |s| <= n
    ensures Take(s, n) == s
  {}

  lemma KindIsWord(kind: string, rest: string)
    requires IsNumeric(kind)
    ensures kind != "" && forall i: nat | i < |kind| :: !IsSpace(kind[i])
    ensures !("string" <= kind + rest) && !("object path" <= kind + rest) && !("boolean" <= kind + rest)
  {
    assert kind != "" && kind[0] != 's' && kind[0] != 'o';
    assert kind[0] == 'b' ==> kind == "byte";
    assert (kind + rest)[0] == kind[0];
    assert kind == "byte" ==> (kind + rest)[1] == 'y';
  }

  lemma VariantIsValue(v: Variant)
    requires IsVariant(v)
    ensures VariantText(v) != "" && !IsSpace(VariantText(v)[0])
    ensures VariantValue(VariantText(v)) == ValueDoc(v)
  {
    hide IsNumber, IsNumeric, IsText, VariantValue, Quoted, AreLineTexts;
    match v {
      case VString(s) => QuotedValue("string ", s);
      case VPath(s) => QuotedValue("object path ", s);
      case VBool(b) => BooleanValue(b);
      case VNumber(kind, text) =>
        NumberToken(kind, text);
        KindIsWord(kind, " " + text);
      case VContainer(kind, _) => ContainerToken(kind);
      case VVariant(gap, w) => NestedToken(gap, w);
    }
  }

  lemma QuotedValue(before: string, s: string)
    requires (before == "string " || before == "object path ") && IsText(s)
    ensures Quoted(before, s) != "" && !IsSpace(Quoted(before, s)[0])
    ensures VariantValue(Quoted(before, s)) == DStr(s)
  {
    hide IsText, QuotedAfter;
    QuotedText(before, s);
    assert before[0] == Quoted(before, s)[0];
  }

  lemma BooleanValue(b: bool)
    ensures VariantValue(VariantText(VBool(b))) == ValueDoc(VBool(b))
  {
    hide QuotedOr, Take, SkipSpace, Span;
    var word := if b then "true" else "false";
    var p := VariantText(VBool(b));
    assert p[7..] == " " + word;
    SkipGap(" ", word);
    assert p[0] == 'b' && "string"[0] == 's' && "object path"[0] == 'o' && "boolean" <= p;
  }

  lemma VariantLine(gap: string, v: Variant)
    requires IsGap(gap) && IsVariant(v)
    ensures VariantDoc("variant" + (gap + VariantText(v))) == ValueDoc(v)
  {
    hide IsVariant, VariantText, VariantValue, Find, SkipSpace, IsGap;
    VariantFound(gap + VariantText(v));
    VariantIsValue(v);
    SkipGap(gap, VariantText(v));
  }

  // ---------- the parser on the lines of a property, a message, a list ----------

  /** An open item that waits for a key. */
  predicate Ready(st: State) {
    st.current.Some? && st.key.None?
  }

  lemma FirstSteps(st: State, p: Property, gap: string)
    requires Ready(st) && IsText(p.key) && IsVariant(p.value) && IsGap(gap)
    ensures Steps(st, FirstLines(p, gap)) ==
            st.(current := Some(AddProp(st.current.value, (p.key, ValueDoc(p.value)))))
  {
    hide IsText, IsVariant, IsGap, QuotedAfter, VariantDoc, ValueDoc, VariantText;
    var ts := FirstLines(p, gap);
    QuotedText("string ", p.key);
    VariantLine(gap, p.value);
    var keyed := st.(key := Some(p.key));
    assert "string "[0] == 's';
    Inert(st, ts[0]);
    KeyStep(st, ts[1]);
    VariantStep(keyed, ts[2]);
    ThreeSteps(st, ts[0], ts[1], ts[2]);
  }

  lemma PropertyStep(st: State, p: Property, gap: string)
    requires Ready(st) && IsText(p.key) && IsVariant(p.value) && IsPlain(p.value) && IsGap(gap)
    ensures Steps(st, PropertyTexts(p, gap)) ==
            st.(current := Some(AddProp(st.current.value, (p.key, ValueDoc(p.value)))))
  {
    FirstSteps(st, p, gap);
    StepsConcat(st, FirstLines(p, gap), [")"]);
    hide IsText, IsVariant, IsGap, ValueDoc, FirstLines, Step;
    var after := st.(current := Some(AddProp(st.current.value, (p.key, ValueDoc(p.value)))));
    Inert(after, ")");
    assert LaterLines(p.value) + [")"] == [")"];
    assert [")"][1..] == [];
  }

  lemma KeyStep(st: State, line: string)
    requires Ready(st) && "string " <= line
    ensures Step(st, line) == st.(key := QuotedAfter(line))
  {
    hide QuotedAfter, VariantDoc;
    assert line[0] == "string "[0] != "object path "[0];
  }

  lemma VariantStep(st: State, line: string)
    requires st.current.Some? && st.key.Some? && "variant" <= line
    ensures Step(st, line) ==
            State(st.items, Some(AddProp(st.current.value, (st.key.value, VariantDoc(line)))), None)
  {
    hide QuotedAfter, VariantDoc;
    assert line[0] == "variant"[0] && "variant"[0] != "object path "[0] && "variant"[0] != "string "[0];
  }

  /** Lines that leave the parser where it is. */
  lemma Inert(st: State, line: string)
    requires st.key.None? && line != "" && line[0] != 'o' && !("string " <= line)
    ensures Step(st, line) == st
  {
    hide VariantDoc, QuotedAfter;
    assert "object path "[0] == 'o';
  }

  lemma {:induction false} PropertiesSteps(st: State, ps: seq<Property>, gap: string)
    requires Ready(st) && IsGap(gap)
    requires forall i: nat | i < |ps| :: IsText(ps[i].key) && IsVariant(ps[i].value) && IsPlain(ps[i].value)
    ensures Steps(st, PropertiesTexts(ps, gap)) ==
            st.(current := Some(Item(st.current.value.path, st.current.value.props + Props(ps))))
    decreases |ps|
  {
    hide IsText, IsVariant, IsPlain, IsGap, ValueDoc, PropertyTexts, Steps;
    var before := st.current.value.props;
    if ps == [] {
      NoSteps(st);
      assert before + Props(ps) == before;
    } else {
      var m := (ps[0].key, ValueDoc(ps[0].value));
      PropertyStep(st, ps[0], gap);
      StepsConcat(st, PropertyTexts(ps[0], gap), PropertiesTexts(ps[1..], gap));
      PropertiesSteps(st.(current := Some(AddProp(st.current.value, m))), ps[1..], gap);
      assert Props(ps) == [m] + Props(ps[1..]);
      assert before + ([m] + Props(ps[1..])) == before + [m] + Props(ps[1..]);
    }
  }

  lemma NoSteps(st: State)
    ensures Steps(st, []) == st
  {}

  /** The lines that open a message close the item before it and open a new one. */
  lemma OpenSteps(st: State, path: string)
    requires st.key.None? && IsText(path)
    ensures Steps(st, ["struct {", Quoted("object path ", path), "array ["]) ==
            State(Finish(st), Some(Item(path, [])), None)
  {
    hide QuotedAfter;
    QuotedText("object path ", path);
    var line := Quoted("object path ", path);
    assert "object path " <= line;
    assert "struct {"[3] == 'u' && "string "[3] == 'i';
    Inert(st, "struct {");
    var begun := State(Finish(st), Some(Item(path, [])), None);
    assert Step(st, line) == begun;
    Inert(begun, "array [");
    ThreeSteps(st, "struct {", line, "array [");
  }

  lemma ThreeSteps(st: State, a: string, b: string, c: string)
    ensures Steps(st, [a, b, c]) == Step(Step(Step(st, a), b), c)
  {
    hide Step;
    NoSteps(Step(Step(Step(st, a), b), c));
    assert Steps(Step(st, a), [b, c]) == Steps(Step(Step(st, a), b), [c]);
    assert [a, b, c][1..] == [b, c] && [b, c][1..] == [c] && [c][1..] == [];
  }

  lemma CloseSteps(st: State)
    requires st.key.None?
    ensures Steps(st, ["]", "}"]) == st && Steps(st, ["]"]) == st
  {
    assert ["]", "}"][1..] == ["}"] && ["}"][1..] == [] && ["]"][1..] == [];
    assert Step(st, "]") == st && Step(st, "}") == st;
  }

  lemma MessageSteps(st: State, m: Message, gap: string)
    requires st.key.None? && IsMessage(m) && PlainMessage(m) && IsGap(gap)
    ensures Steps(st, MessageTexts(m, gap)) == State(Finish(st), Some(ItemOf(m)), None)
  {
    hide Steps, Step, IsText, IsVariant, IsPlain, IsGap, PropertiesTexts, Finish;
    var begun := State(Finish(st), Some(Item(m.path, [])), None);
    var filled := State(Finish(st), Some(ItemOf(m)), None);
    OpenSteps(st, m.path);
    PropertiesSteps(begun, m.props, gap);
    assert [] + Props(m.props) == Props(m.props);
    CloseSteps(filled);
    StepsConcat(begun, PropertiesTexts(m.props, gap), ["]", "}"]);
    StepsConcat(st, ["struct {", Quoted("object path ", m.path), "array ["], PropertiesTexts(m.props, gap) + ["]", "}"]);
  }

  lemma {:induction false} MessagesSteps(st: State, ms: seq<Message>, gap: string)
    requires st.key.None? && IsGap(gap) && PlainMessages(ms) && forall i: nat | i < |ms| :: IsMessage(ms[i])
    ensures Finish(Steps(st, MessagesTexts(ms, gap))) == Finish(st) + Originals(ms)
    ensures Steps(st, MessagesTexts(ms, gap)).key.None?
    decreases |ms|
  {
    hide Steps, IsMessage, PlainMessage, IsGap, MessageTexts, ItemOf;
    if ms == [] {
      NoSteps(st);
      assert Finish(st) + Originals(ms) == Finish(st);
    } else {
      var next := State(Finish(st), Some(ItemOf(ms[0])), None);
      MessageSteps(st, ms[0], gap);
      StepsConcat(st, MessageTexts(ms[0], gap), MessagesTexts(ms[1..], gap));
      MessagesSteps(next, ms[1..], gap);
      assert Originals(ms) == [ItemOf(ms[0])] + Originals(ms[1..]);
      assert Finish(st) + ([ItemOf(ms[0])] + Originals(ms[1..])) == Finish(next) + Originals(ms[1..]);
    }
  }

  lemma ReplySteps(header: string, ms: seq<Message>, gap: string)
    requires IsHeader(header) && IsGap(gap) && PlainMessages(ms) && forall i: nat | i < |ms| :: IsMessage(ms[i])
    ensures Finish(Steps(START, ReplyTexts(header, ms, gap))) == Originals(ms)
  {
    hide Steps, IsMessage, PlainMessage, IsGap, MessagesTexts;
    HeaderSteps(header);
    MessagesSteps(START, ms, gap);
    var st := Steps(START, MessagesTexts(ms, gap));
    CloseSteps(st);
    StepsConcat(START, MessagesTexts(ms, gap), ["]"]);
    StepsConcat(START, [header, "array ["], MessagesTexts(ms, gap) + ["]"]);
    assert Finish(START) + Originals(ms) == Originals(ms);
  }

  lemma HeaderSteps(header: string)
    requires IsHeader(header)
    ensures Steps(START, [header, "array ["]) == START
  {
    assert [header, "array ["][1..] == ["array ["] && ["array ["][1..] == [];
    assert Step(START, header) == START && Step(START, "array [") == START;
  }

  // ---------- the texts are lines ----------

  predicate AreLineTexts(ts: seq<string>) {
    forall t | t in ts :: IsLineText(t)
  }

  lemma QuotedIsLine(before: string, s: string)
    requires IsText(s) && before != "" && !IsBlank(before[0]) && forall i: nat | i < |before| :: !IsLineBreak(before[i])
    ensures IsLineText(Quoted(before, s))
  {
    var t := Quoted(before, s);
    assert t[0] == before[0] && t[|t| - 1] == '"';
  }

  lemma VariantIsLine(gap: string, v: Variant)
    requires IsGap(gap) && IsVariant(v)
    ensures IsLineText("variant" + (gap + VariantText(v)))
  {
    var body := VariantText(v);
    ValueIsLine(v);
    hide VariantText, IsVariant;
    var t := "variant" + (gap + body);
    assert t[0] == 'v' && t[|t| - 1] == body[|body| - 1];
  }

  lemma {:induction false} ValueIsLine(v: Variant)
    requires IsVariant(v)
    ensures IsLineText(VariantText(v))
  {
    hide IsText, IsNumber, IsNumeric;
    match v {
      case VString(s) => QuotedIsLine("string ", s);
      case VPath(s) => QuotedIsLine("object path ", s);
      case VBool(b) =>
      case VNumber(kind, text) => NumberIsLine(kind, text);
      case VContainer(kind, _) =>
      case VVariant(gap, w) =>
        ValueIsLine(w);
        WordBefore(gap, VariantText(w));
    }
  }

  lemma WordBefore(gap: string, body: string)
    requires IsGap(gap) && IsLineText(body)
    ensures IsLineText("variant" + (gap + body))
  {
    var t := "variant" + (gap + body);
    assert t[0] == 'v' && t[|t| - 1] == body[|body| - 1];
  }

  lemma {:induction false} LaterAreLines(v: Variant)
    requires IsVariant(v)
    ensures AreLineTexts(LaterLines(v))
  {
    hide IsText, IsNumber, IsNumeric;
    assert IsLineText("]") && IsLineText("}");
    if v.VVariant? {
      LaterAreLines(v.v);
    }
  }

  lemma NumberIsLine(kind: string, text: string)
    requires IsNumeric(kind) && (IsNumber(text) || IsNotFinite(text))
    ensures IsLineText(kind + (" " + text))
  {
    hide IsNumber;
    KindIsWord(kind, " " + text);
    NumberChars(text);
    var t := kind + (" " + text);
    assert t[0] == kind[0] && t[|t| - 1] == text[|text| - 1];
  }

  lemma {:induction false} PropertiesAreLines(ps: seq<Property>, gap: string)
    requires IsGap(gap) && forall i: nat | i < |ps| :: IsText(ps[i].key) && IsVariant(ps[i].value)
    ensures AreLineTexts(PropertiesTexts(ps, gap))
  {
    hide IsText, IsVariant, IsGap, VariantText, Quoted;
    if ps != [] {
      QuotedIsLine("string ", ps[0].key);
      VariantIsLine(gap, ps[0].value);
      assert IsLineText("dict entry(") && IsLineText(")");
      LaterAreLines(ps[0].value);
      hide IsLineText;
      assert AreLineTexts(PropertyTexts(ps[0], gap));
      PropertiesAreLines(ps[1..], gap);
    }
  }

  lemma {:induction false} MessagesAreLines(ms: seq<Message>, gap: string)
    requires IsGap(gap) && forall i: nat | i < |ms| :: IsMessage(ms[i])
    ensures AreLineTexts(MessagesTexts(ms, gap))
  {
    hide IsText, IsVariant, IsGap, PropertiesTexts, Quoted;
    if ms != [] {
      assert IsMessage(ms[0]);
      QuotedIsLine("object path ", ms[0].path);
      PropertiesAreLines(ms[0].props, gap);
      assert IsLineText("struct {") && IsLineText("array [") && IsLineText("]") && IsLineText("}");
      hide IsLineText;
      assert AreLineTexts(MessageTexts(ms[0], gap));
      MessagesAreLines(ms[1..], gap);
    }
  }

  // ---------- the main results ----------

  /** Every message of a printed list is recognised, in order, with its properties in order. */
  lemma ItemsReceived(lines: seq<Line>, header: string, ms: seq<Message>, gap: string)
    requires IsReply(lines, header, ms, gap) && IsHeader(header) && IsGap(gap)
    requires PlainMessages(ms) && forall i: nat | i < |ms| :: IsMessage(ms[i])
    ensures ItemsOf(ReplyText(lines)) == Originals(ms)
  {
    hide Steps, Run, Lines, Finish, IsGap, IsMessage, PlainMessages, MessagesTexts;
    ReplyItems(lines, header, ms, gap);
    ReplySteps(header, ms, gap);
  }

  /** The lines of the reply reach the parser as they were printed, without their indentation. */
  lemma ReplyItems(lines: seq<Line>, header: string, ms: seq<Message>, gap: string)
    requires IsReply(lines, header, ms, gap) && IsHeader(header) && IsGap(gap)
    requires forall i: nat | i < |ms| :: IsMessage(ms[i])
    ensures ItemsOf(ReplyText(lines)) == Finish(Steps(START, ReplyTexts(header, ms, gap)))
  {
    hide Steps, Run, Lines, Finish, IsGap, IsMessage, MessagesTexts, IsLineText;
    MessagesAreLines(ms, gap);
    assert IsLineText(header) && IsLineText("array [") && IsLineText("]") by {
      FixedLines(header);
    }
    assert AreLineTexts(Texts(lines));
    forall i: nat | i < |lines| ensures IsLineText(lines[i].text) {
      assert Texts(lines)[i] == lines[i].text;
    }
    LinesOfReply("", lines);
    EmptyLeft(ReplyText(lines));
    RunIsSteps(START, lines);
  }

  lemma FixedLines(header: string)
    requires IsHeader(header)
    ensures IsLineText(header) && IsLineText("array [") && IsLineText("]")
  {}

  /** The JSON value of a message: its number, its path and its properties. */
  function MessageValue(index: nat, m: Message): Json {
    Obj([Entry("index", Atom(Dec(index))), Entry("path", Str(m.path)), Entry("properties", Obj(PropertyValues(m.props)))])
  }

  function PropertyValues(ps: seq<Property>): (es: seq<Entry>)
    ensures |es| == |ps|
  {
    seq(|ps|, i requires 0 <= i < |ps| => Entry(ps[i].key, VariantJson(ps[i].value)))
  }

  function VariantJson(v: Variant): Json {
    match v
    case VString(s) => Str(s)
    case VPath(s) => Str(s)
    case VBool(b) => Atom(if b then "true" else "false")
    case VNumber(_, text) => Atom(text)
    case VContainer(kind, _) => Atom(OpeningToken(kind))
    case VVariant(_, w) => Atom(FirstWord(w))
  }

  function MessageValues(ms: seq<Message>): (vs: seq<Json>)
    ensures |vs| == |ms|
  {
    seq(|ms|, i requires 0 <= i < |ms| => MessageValue(i + 1, ms[i]))
  }

  lemma PropsWellFormed(m: Message)
    requires IsMessage(m) && PlainMessage(m)
    ensures WellFormed(ObjDoc(Props(m.props))) && Value(ObjDoc(Props(m.props))) == Obj(PropertyValues(m.props))
  {
    hide IsNumber, IsText;
    var props := Props(m.props);
    forall i: nat | i < |props| ensures WellFormed(props[i].1) {
      assert IsVariant(m.props[i].value) && IsPlain(m.props[i].value);
    }
    CompactWellFormed(props);
    CompactValue(props);
    assert Entries(props) == PropertyValues(m.props);
  }

  lemma ItemWellFormed(index: nat, m: Message)
    requires IsMessage(m) && PlainMessage(m)
    ensures WellFormed(ObjDoc(ItemMembers(index, ItemOf(m))))
    ensures Value(ObjDoc(ItemMembers(index, ItemOf(m)))) == MessageValue(index, m)
  {
    hide IsMessage, PlainMessage, Props, Compact, IsAtom, Dec;
    PropsWellFormed(m);
    DecIsNumber(index);
    var ms := ItemMembers(index, ItemOf(m));
    CompactWellFormed(ms);
    CompactValue(ms);
    assert Entries(ms) == MessageValue(index, m).members;
  }

  /** A reader of the JSON text gets the messages back, numbered from 1, and the raw reply. */
  lemma MessagesReceived(lines: seq<Line>, header: string, ms: seq<Message>, gap: string)
    requires IsReply(lines, header, ms, gap) && IsHeader(header) && IsGap(gap)
    requires PlainMessages(ms) && forall i: nat | i < |ms| :: IsMessage(ms[i])
    ensures Read(Print(ObjDoc(ReplyMembers(ReplyText(lines))))) ==
            Some(Obj([Entry("items", Arr(MessageValues(ms))), Entry("raw", Str(ReplyText(lines)))]))
  {
    hide IsReply, IsMessage, PlainMessage, IsHeader, IsGap, ReplyText, ItemsOf, ItemMembers, ItemOf, MessageValue, Read, JoinMembers;
    var raw := ReplyText(lines);
    ItemsReceived(lines, header, ms, gap);
    var ds := ItemDocs(Originals(ms));
    forall i: nat | i < |ds| ensures WellFormed(ds[i]) && Value(ds[i]) == MessageValue(i + 1, ms[i]) {
      ItemWellFormed(i + 1, ms[i]);
    }
    CompactItemsWellFormed(ds);
    CompactItemsValue(ds);
    assert Values(ds) == MessageValues(ms);
    hide ItemDocs;
    var reply := ReplyMembers(raw);
    ObjPrinted(reply);
    ReadObject(reply);
    assert Entries(reply) == [Entry("items", Arr(MessageValues(ms))), Entry("raw", Str(raw))];
  }
}
