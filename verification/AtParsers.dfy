/** src/parsers.c: the JSON objects made of AT responses. */
module AtParsers {
  import opened CStrings
  import opened Json
  import opened JsonUtil
  import opened Payload
  import opened Bands
  import opened Sms

  // ---------- what the parsers report ----------

  /** ` %d,%d,..`: `n + 1` integers. */
  function Ints(n: nat): seq<Directive> {
    [White, Int] + MoreInts(n)
  }

  function MoreInts(n: nat): seq<Directive> {
    if n == 0 then [] else [Lit(','), Int] + MoreInts(n - 1)
  }

  /** The fields scanned from the first line with the given prefix. */
  ghost function LineFields(payload: string, prefix: string, format: seq<Directive>): seq<Field> {
    match LineAfter(payload, prefix)
    case None => []
    case Some(line) => Scan(format, line)
  }

  /** A value without structure. */
  datatype Scalar = SInt(n: int) | SStr(s: string) | SNull

  /** A list of named values without structure. */
  type Values = seq<(string, Scalar)>

  function ScalarDoc(v: Scalar): Doc {
    match v
    case SInt(n) => IntDoc(n)
    case SStr(s) => DStr(s)
    case SNull => DAtom("null")
  }

  /** Members without structure, as documents. */
  function Scalars(vs: Values): (ms: seq<Member>)
    ensures |ms| == |vs|
  {
    seq(|vs|, i requires 0 <= i < |vs| => (vs[i].0, ScalarDoc(vs[i].1)))
  }

  function RawValues(parser: string, payload: string): Values {
    [("parser", SStr(parser)), ("raw", SStr(payload))]
  }

  function CsqValues(rssi: int, ber: int, payload: string): Values {
    [("rssi", SInt(rssi)), ("ber", SInt(ber)),
     ("rssi_dbm", if 0 <= rssi <= 31 then SInt(-113 + 2 * rssi) else SNull), ("raw", SStr(payload))]
  }

  function CopsFormat(): seq<Directive> {
    Ints(1) + ([Lit(',')] + (QuotedField(127) + MoreInts(1)))
  }

  function CopsValues(f: seq<Field>, payload: string): Values {
    [("mode", SInt(IntOr(f, 0, -1))), ("format", SInt(IntOr(f, 1, -1))), ("operator", SStr(TextOr(f, 2, ""))),
     ("act", SInt(IntOr(f, 3, -1))), ("raw", SStr(payload))]
  }

  function RegistrationFormat(): seq<Directive> {
    Ints(1) + ([Lit(',')] + (QuotedField(63) + ([Lit(',')] + (QuotedField(63) + MoreInts(1)))))
  }

  function RegistrationValues(n: int, stat: int, area: string, cell: string, act: int, payload: string): Values {
    [("n", SInt(n)), ("stat", SInt(stat)), ("area", SStr(area)), ("cell", SStr(cell)), ("act", SInt(act)),
     ("raw", SStr(payload))]
  }

  /** A negative status, scanned or initial, is scanned for once more with the short pattern. */
  function RegistrationOf(f: seq<Field>, short: seq<Field>, payload: string): Values {
    var n, stat := IntOr(f, 0, -1), IntOr(f, 1, -1);
    RegistrationValues(
      if stat < 0 then IntOr(short, 0, n) else n,
      if stat < 0 then IntOr(short, 1, stat) else stat,
      TextOr(f, 2, ""), TextOr(f, 3, ""), IntOr(f, 4, -1), payload)
  }

  function CellLockValues(f: seq<Field>, payload: string): Values {
    [("mode", SInt(IntOr(f, 0, -1))), ("rat", SInt(IntOr(f, 1, -1))), ("type", SInt(IntOr(f, 2, -1))),
     ("earfcn", SInt(IntOr(f, 3, -1))), ("pci", SInt(IntOr(f, 4, -1))), ("raw", SStr(payload))]
  }

  /** An object with an array of items and the payload. */
  function ListMembers(name: string, ds: seq<Doc>, payload: string): seq<Member> {
    [(name, ArrDoc(ds)), ("raw", DStr(payload))]
  }

  function QosValues(f: seq<Field>): Values {
    [("cid", SInt(IntOr(f, 0, -1))), ("qci", SInt(IntOr(f, 1, -1)))]
  }

  function QosMembers(f: seq<Field>): seq<Member> {
    Scalars(QosValues(f))
  }

  /** One item for every `+CGEQOS:` from position `i` on. */
  function QosDocs(text: string, i: nat): seq<Doc>
    decreases |text| - i
  {
    match FindFrom(text, "+CGEQOS:", i)
    case None => []
    case Some(j) => [ObjDoc(QosMembers(Scan(Ints(1), text[j + 8..])))] + QosDocs(text, j + 8)
  }

  // ----- +GTCCINFO -----

  predicate IsComma(c: char) {
    c == ','
  }

  /** At most 24 of the comma-separated fields of a line, each trimmed. */
  function CellFields(line: string): seq<string> {
    var fs := Tokens(Take(line, 511), IsComma);
    var n := if |fs| < 24 then |fs| else 24;
    seq(n, i requires 0 <= i < n => Trim(fs[i]))
  }

  function FieldOr(fs: seq<string>, i: nat): string {
    if i < |fs| then fs[i] else ""
  }

  function CellIdentity(fs: seq<string>): Values
    requires |fs| >= 8
  {
    [("service", SInt(Atoi(fs[0]))), ("rat", SStr(fs[1])), ("mcc", SStr(fs[2])), ("mnc", SStr(fs[3])),
     ("area", SStr(fs[4])), ("cell", SStr(fs[5])), ("earfcn", SInt(Atoi(fs[6]))), ("pci", SInt(Atoi(fs[7])))]
  }

  function CellQuality(fs: seq<string>, line: string): Values {
    [("band", SStr(FieldOr(fs, 8))), ("sinr", SStr(FieldOr(fs, 10))), ("rsrp", SStr(FieldOr(fs, 12))),
     ("rsrq", SStr(FieldOr(fs, 13))), ("raw", SStr(line))]
  }

  function CellMembers(fs: seq<string>, line: string): seq<Member>
    requires |fs| >= 8
  {
    Scalars(CellIdentity(fs) + CellQuality(fs, line))
  }

  /** The cell a line describes, if it is a line of at least eight fields. */
  function CellOfLine(line: string): Option<Doc> {
    if line == "" || line == "OK" || "+GTCCINFO:" <= line || !(',' in line) then None
    else if |CellFields(line)| < 8 then None
    else Some(ObjDoc(CellMembers(CellFields(line), line)))
  }

  function CellDocs(lines: seq<string>): seq<Doc> {
    if lines == [] then [] else
    (match CellOfLine(Trim(lines[0])) case Some(d) => [d] case None => []) + CellDocs(lines[1..])
  }

  // ----- +CMGL, +CMGR -----

  function ListingMembers(payload: string): seq<Member> {
    [("parser", DStr("cmgl")), ("items", ArrDoc(MessageDocs(Messages(Lines(payload))))), ("raw", DStr(payload))]
  }

  /** The text from the first line that starts with `+CMGR:` on. */
  function ReadLine(s: string): (r: Option<string>)
    ensures r.Some? ==> "+CMGR:" <= r.value
    decreases |s|
  {
    if s == "" then None
    else if "+CMGR:" <= s then Some(s)
    else
      var t := s[TokenLength(s, IsLineBreak)..];
      if t == "" then None else
      assert IsLineBreak(t[0]);
      ReadLine(DropBreaksFrom(t))
  }

  function DropBreaksFrom(t: string): (r: string)
    requires t != "" && IsLineBreak(t[0])
    ensures |r| < |t|
  {
    DropDelims(t, IsLineBreak)
  }

  function ReadFormat(): seq<Directive> {
    [White] + (QuotedField(63) + ([Lit(',')] + (QuotedField(95) + ([Lit(',')] + (QuotedField(63) + ([Lit(',')] +
      QuotedField(63)))))))
  }

  /** The text after the line, up to a line starting with OK, cut and trimmed. */
  function ReadBodyText(line: string): string {
    var rest := line[TokenLength(line, IsLineBreak)..];
    if rest == "" then "" else
    var body := DropDelims(rest, IsLineBreak);
    var cut := match Find(body, "\nOK") case None => body case Some(i) => body[..i];
    Trim(Take(cut, BODY_MAX))
  }

  function ReadMessage(payload: string): Message {
    match ReadLine(payload)
    case None => Message(1, "", "", "", "")
    case Some(line) =>
      var f := Scan(ReadFormat(), line[6..]);
      Message(1, TextOr(f, 0, ""), TextOr(f, 1, ""), TextOr(f, 3, ""), ReadBodyText(line))
  }

  /** A message without its index. */
  function MessageTail(m: Message): seq<Member> {
    [("status", DStr(m.status)), ("sender", DStr(m.sender)), ("timestamp", DStr(m.timestamp)), ("body", DStr(m.body))]
  }

  function ReadMembersOf(m: Message, payload: string): seq<Member> {
    [("parser", DStr("cmgr")), ("items", ArrDoc([ObjDoc(MessageMembers(m))])), ("message", ObjDoc(MessageTail(m))),
     ("raw", DStr(payload))]
  }

  function ReadMembers(payload: string): seq<Member> {
    ReadMembersOf(ReadMessage(payload), payload)
  }

  /** The parsers by name; every other name selects the parser that only reports the payload. */
  datatype Parser = Raw(name: string) | Csq | Cops | Registrations(prefix: string) | Gtact | GtCellLock | GtCcInfo
    | CgeQos | Cmgl | Cmgr

  function ParserOf(name: Option<string>): Parser {
    if name.None? then Raw("raw")
    else if name.value == "csq" then Csq
    else if name.value == "cops" then Cops
    else if name.value == "creg" then Registrations("+CREG:")
    else if name.value == "cgreg" then Registrations("+CGREG:")
    else if name.value == "cereg" then Registrations("+CEREG:")
    else if name.value == "c5greg" then Registrations("+C5GREG:")
    else if name.value == "gtact" then Gtact
    else if name.value == "gtcelllock" then GtCellLock
    else if name.value == "gtccinfo" then GtCcInfo
    else if name.value == "cgeqos" then CgeQos
    else if name.value == "cmgl" then Cmgl
    else if name.value == "cmgr" then Cmgr
    else Raw(name.value)
  }

  /** The members of the object a parser makes of a payload. */
  ghost function ResponseMembers(parser: Parser, payload: string): seq<Member> {
    match parser
    case Raw(name) => Scalars(RawValues(name, payload))
    case Csq =>
      var f := LineFields(payload, "+CSQ:", Ints(1));
      Scalars(CsqValues(IntOr(f, 0, -1), IntOr(f, 1, -1), payload))
    case Cops => Scalars(CopsValues(LineFields(payload, "+COPS:", CopsFormat()), payload))
    case Registrations(prefix) => Scalars(Registration(payload, prefix))
    case Gtact => GtactMembers(payload)
    case GtCellLock => Scalars(CellLockValues(LineFields(payload, "+GTCELLLOCK:", Ints(4)), payload))
    case GtCcInfo => ListMembers("items", CellDocs(Lines(payload)), payload)
    case CgeQos => ListMembers("items", QosDocs(payload, 0), payload)
    case Cmgl => ListingMembers(payload)
    case Cmgr => ReadMembers(payload)
  }

  ghost function Registration(payload: string, prefix: string): Values {
    RegistrationOf(LineFields(payload, prefix, RegistrationFormat()), LineFields(payload, prefix, Ints(1)), payload)
  }

  function GtactMembers(payload: string): seq<Member> {
    ListMembers("bands", BandDocs(BandsOf(payload)), payload)
  }

  /** The text of an object. */
  function ObjectText(ms: seq<Member>): string {
    Print(ObjDoc(ms))
  }

  // ---------- every response is a JSON object that carries the payload ----------

  ghost predicate AllWellFormed(ms: seq<Member>) {
    forall i: nat | i < |ms| :: WellFormed(ms[i].1)
  }

  /** The last member, and only that one, is named `raw` and holds the payload. */
  ghost predicate CarriesRaw(ms: seq<Member>, payload: string) {
    && ms != [] && ms[|ms| - 1] == ("raw", DStr(payload))
    && forall i: nat | i < |ms| - 1 :: ms[i].0 != "raw"
  }

  lemma IntWellFormed(n: int)
    ensures WellFormed(IntDoc(n))
  {
    DecIsNumber(n);
  }

  lemma ObjWellFormed(ms: seq<Member>)
    requires AllWellFormed(ms)
    ensures WellFormed(ObjDoc(ms))
  {
    CompactWellFormed(ms);
  }

  lemma ArrWellFormed(ds: seq<Doc>)
    requires forall i: nat | i < |ds| :: WellFormed(ds[i])
    ensures WellFormed(ArrDoc(ds))
  {
    CompactItemsWellFormed(ds);
  }

  lemma BandsWellFormed(bands: seq<Band>)
    ensures WellFormed(ArrDoc(BandDocs(bands)))
  {
    hide WellFormed, ObjDoc, ArrDoc, BandMembers;
    forall i: nat | i < |bands|
      ensures WellFormed(BandDocs(bands)[i])
    {
      BandWellFormed(bands[i]);
    }
    ArrWellFormed(BandDocs(bands));
  }

  lemma BandWellFormed(b: Band)
    ensures WellFormed(ObjDoc(BandMembers(b)))
  {
    hide IntDoc;
    IntWellFormed(b.code);
    IntWellFormed(b.band);
    ObjWellFormed(BandMembers(b));
  }

  lemma MessageWellFormed(m: Message)
    ensures WellFormed(ObjDoc(MessageMembers(m))) && WellFormed(ObjDoc(MessageTail(m)))
  {
    hide IntDoc;
    IntWellFormed(m.index);
    ObjWellFormed(MessageMembers(m));
    ObjWellFormed(MessageTail(m));
  }

  lemma MessagesWellFormed(ms: seq<Message>)
    ensures WellFormed(ArrDoc(MessageDocs(ms)))
  {
    hide WellFormed, ObjDoc, ArrDoc, MessageMembers;
    forall i: nat | i < |ms|
      ensures WellFormed(MessageDocs(ms)[i])
    {
      MessageWellFormed(ms[i]);
    }
    ArrWellFormed(MessageDocs(ms));
  }

  lemma QosItemWellFormed(f: seq<Field>)
    ensures WellFormed(ObjDoc(QosMembers(f)))
  {
    ScalarsWellFormed(QosValues(f));
    ObjWellFormed(QosMembers(f));
  }

  lemma {:induction false} QosWellFormed(text: string, i: nat)
    ensures forall k: nat | k < |QosDocs(text, i)| :: WellFormed(QosDocs(text, i)[k])
    decreases |text| - i
  {
    hide WellFormed, Scan, ObjDoc, QosMembers, Ints;
    match FindFrom(text, "+CGEQOS:", i)
    case None =>
    case Some(j) =>
      QosItemWellFormed(Scan(Ints(1), text[j + 8..]));
      QosWellFormed(text, j + 8);
  }

  lemma CellWellFormed(fs: seq<string>, line: string)
    requires |fs| >= 8
    ensures WellFormed(ObjDoc(CellMembers(fs, line)))
  {
    ScalarsWellFormed(CellIdentity(fs) + CellQuality(fs, line));
    ObjWellFormed(CellMembers(fs, line));
  }

  lemma CellLineWellFormed(line: string)
    ensures CellOfLine(line).Some? ==> WellFormed(CellOfLine(line).value)
  {
    hide WellFormed, ObjDoc, CellMembers, CellFields;
    if CellOfLine(line).Some? {
      CellWellFormed(CellFields(line), line);
    }
  }

  lemma {:induction false} CellsWellFormed(lines: seq<string>)
    ensures forall k: nat | k < |CellDocs(lines)| :: WellFormed(CellDocs(lines)[k])
  {
    hide WellFormed, CellOfLine, Trim;
    if lines != [] {
      CellLineWellFormed(Trim(lines[0]));
      CellsWellFormed(lines[1..]);
    }
  }

  /** The property of a response object. */
  ghost predicate Sound(ms: seq<Member>, payload: string) {
    AllWellFormed(ms) && CarriesRaw(ms, payload)
  }

  lemma ListSound(name: string, ds: seq<Doc>, payload: string)
    requires forall i: nat | i < |ds| :: WellFormed(ds[i])
    requires name != "raw"
    ensures Sound(ListMembers(name, ds, payload), payload)
  {
    ArrWellFormed(ds);
  }

  lemma ScalarWellFormed(v: Scalar)
    ensures WellFormed(ScalarDoc(v))
  {
    if v.SInt? {
      IntWellFormed(v.n);
    }
  }

  lemma ScalarsWellFormed(vs: Values)
    ensures AllWellFormed(Scalars(vs))
  {
    hide ScalarDoc, WellFormed;
    forall i: nat | i < |vs|
      ensures WellFormed(Scalars(vs)[i].1)
    {
      ScalarWellFormed(vs[i].1);
    }
  }

  /** Members without structure are sound if the last one is the payload and no other is named so. */
  lemma ScalarsSound(vs: Values, payload: string)
    requires vs != [] && vs[|vs| - 1] == ("raw", SStr(payload))
    requires forall i: nat | i < |vs| - 1 :: vs[i].0 != "raw"
    ensures Sound(Scalars(vs), payload)
  {
    ScalarsWellFormed(vs);
  }

  /** The property names of the same length as `raw`. */
  lemma NotRaw()
    ensures "rat" != "raw" && "act" != "raw" && "pci" != "raw" && "ber" != "raw"
  {
    assert "rat"[2] != "raw"[2] && "act"[0] != "raw"[0] && "pci"[0] != "raw"[0] && "ber"[0] != "raw"[0];
  }

  lemma CsqSound(rssi: int, ber: int, payload: string)
    ensures Sound(Scalars(CsqValues(rssi, ber, payload)), payload)
  {
    hide Sound, Scalars;
    NotRaw();
    ScalarsSound(CsqValues(rssi, ber, payload), payload);
  }

  lemma CopsSound(f: seq<Field>, payload: string)
    ensures Sound(Scalars(CopsValues(f, payload)), payload)
  {
    hide Sound, Scalars, IntOr, TextOr;
    NotRaw();
    ScalarsSound(CopsValues(f, payload), payload);
  }

  lemma RegistrationSound(n: int, stat: int, area: string, cell: string, act: int, payload: string)
    ensures Sound(Scalars(RegistrationValues(n, stat, area, cell, act, payload)), payload)
  {
    hide Sound, Scalars;
    NotRaw();
    ScalarsSound(RegistrationValues(n, stat, area, cell, act, payload), payload);
  }

  lemma RegistrationOfSound(f: seq<Field>, short: seq<Field>, payload: string)
    ensures Sound(Scalars(RegistrationOf(f, short, payload)), payload)
  {
    hide IntOr, TextOr, Sound, RegistrationValues;
    var n, stat := IntOr(f, 0, -1), IntOr(f, 1, -1);
    RegistrationSound(
      if stat < 0 then IntOr(short, 0, n) else n,
      if stat < 0 then IntOr(short, 1, stat) else stat,
      TextOr(f, 2, ""), TextOr(f, 3, ""), IntOr(f, 4, -1), payload);
  }

  lemma CellLockSound(f: seq<Field>, payload: string)
    ensures Sound(Scalars(CellLockValues(f, payload)), payload)
  {
    hide Sound, Scalars, IntOr;
    NotRaw();
    ScalarsSound(CellLockValues(f, payload), payload);
  }

  lemma GtactSound(payload: string)
    ensures Sound(GtactMembers(payload), payload)
  {
    hide BandDocs, BandsOf;
    BandsWellFormed(BandsOf(payload));
  }

  lemma ListingSound(payload: string)
    ensures Sound(ListingMembers(payload), payload)
  {
    hide MessageDocs, Messages, Tokens;
    MessagesWellFormed(Messages(Lines(payload)));
  }

  lemma ReadSound(payload: string)
    ensures Sound(ReadMembers(payload), payload)
  {
    hide ReadMessage, MessageMembers, MessageTail, ObjDoc;
    var m := ReadMessage(payload);
    MessageWellFormed(m);
    ArrWellFormed([ObjDoc(MessageMembers(m))]);
  }

  lemma ResponseSound(parser: Parser, payload: string)
    ensures Sound(ResponseMembers(parser, payload), payload)
  {
    hide Sound, Scalars, CsqValues, CopsValues, RegistrationOf, CellLockValues, GtactMembers, ListMembers, ListingMembers,
         ReadMembers, CellDocs, QosDocs, LineFields, IntOr, Ints, CopsFormat, RegistrationFormat, Tokens;
    match parser
    case Raw(name) => RawSound(name, payload);
    case Csq =>
      var f := LineFields(payload, "+CSQ:", Ints(1));
      CsqSound(IntOr(f, 0, -1), IntOr(f, 1, -1), payload);
    case Cops => CopsSound(LineFields(payload, "+COPS:", CopsFormat()), payload);
    case Registrations(prefix) =>
      RegistrationOfSound(LineFields(payload, prefix, RegistrationFormat()), LineFields(payload, prefix, Ints(1)), payload);
    case Gtact => GtactSound(payload);
    case GtCellLock => CellLockSound(LineFields(payload, "+GTCELLLOCK:", Ints(4)), payload);
    case GtCcInfo =>
      CellsWellFormed(Lines(payload));
      ListSound("items", CellDocs(Lines(payload)), payload);
    case CgeQos =>
      QosWellFormed(payload, 0);
      ListSound("items", QosDocs(payload, 0), payload);
    case Cmgl => ListingSound(payload);
    case Cmgr => ReadSound(payload);
  }

  lemma RawSound(name: string, payload: string)
    ensures Sound(Scalars(RawValues(name, payload)), payload)
  {
    ScalarsSound(RawValues(name, payload), payload);
  }

  /** Whatever the parser's name and the response, a JSON reader accepts the result as an object, and its only member
      named `raw`, the last one, is the payload. */
  lemma ResponseIsJson(parser: Parser, payload: string)
    ensures var ms := ResponseMembers(parser, payload);
      && Read(ObjectText(ms)) == Some(Obj(Entries(ms)))
      && Entries(ms) != []
      && Entries(ms)[|Entries(ms)| - 1] == Entry("raw", Str(payload))
      && forall i: nat | i < |Entries(ms)| - 1 :: Entries(ms)[i].key != "raw"
  {
    hide ResponseMembers, JoinMembers, Read;
    var ms := ResponseMembers(parser, payload);
    ResponseSound(parser, payload);
    ReadObject(ms);
    ObjPrinted(ms);
  }
}
