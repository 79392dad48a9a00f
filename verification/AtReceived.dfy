/** What a JSON reader gets of the AT responses: responses as a modem sends them, and the members that carry their parts. */
module AtReceived {
  import opened CStrings
  import opened Json
  import J = Json
  import opened JsonUtil
  import opened Payload
  import opened Sms
  import opened SmsListing
  import opened AtParsers

  // ---------- objects without structure ----------

  function ScalarJson(v: Scalar): Json {
    match v
    case SInt(n) => Number(n)
    case SStr(s) => Str(s)
    case SNull => Atom("null")
  }

  /** A number in JSON. */
  function Number(n: int): Json {
    Atom(Dec(n))
  }

  function ScalarEntries(vs: Values): (es: seq<Entry>)
    ensures |es| == |vs|
  {
    seq(|vs|, i requires 0 <= i < |vs| => Entry(vs[i].0, ScalarJson(vs[i].1)))
  }

  lemma ScalarsRead(vs: Values)
    ensures Read(ObjectText(Scalars(vs))) == Some(Obj(ScalarEntries(vs)))
  {
    hide Read, ObjDoc, JoinMembers, Scalars, WellFormed;
    var ms := Scalars(vs);
    ScalarsWellFormed(vs);
    ObjPrinted(ms);
    ReadObject(ms);
    EntriesOfScalars(vs);
  }

  lemma EntriesOfScalars(vs: Values)
    ensures Entries(Scalars(vs)) == ScalarEntries(vs)
  {
    hide ScalarDoc, ScalarJson;
    var ms := Scalars(vs);
    forall i: nat | i < |vs| ensures J.Value(ms[i].1) == ScalarJson(vs[i].1) {
      ScalarRead(vs[i].1);
    }
    assert Entries(ms) == ScalarEntries(vs);
  }

  lemma ScalarRead(v: Scalar)
    ensures J.Value(ScalarDoc(v)) == ScalarJson(v)
  {}

  // ---------- numbers and quoted texts of a line ----------

  /** What may follow a number. */
  predicate NoDigit(rest: string) {
    rest == "" || !IsDigit(rest[0])
  }

  /** Numbers, each after a comma. */
  function CommaNumbers(ns: seq<int>, rest: string): string {
    if ns == [] then rest else "," + (Dec(ns[0]) + CommaNumbers(ns[1..], rest))
  }

  function IntFields(ns: seq<int>): (fs: seq<Field>)
    ensures |fs| == |ns|
  {
    seq(|ns|, i requires 0 <= i < |ns| => IntField(ns[i]))
  }

  lemma {:induction false} ScanMore(ns: seq<int>, format: seq<Directive>, rest: string)
    requires NoDigit(rest) && forall i: nat | i < |ns| :: IsInt(ns[i])
    ensures Scan(MoreInts(|ns|) + format, CommaNumbers(ns, rest)) == IntFields(ns) + Scan(format, rest)
    decreases |ns|
  {
    hide Scan, Dec, IsInt;
    if ns == [] {
      assert MoreInts(0) + format == format;
      assert IntFields(ns) + Scan(format, rest) == Scan(format, rest);
    } else {
      var more := MoreInts(|ns| - 1) + format;
      ScanMore(ns[1..], format, rest);
      assert MoreInts(|ns|) + format == [Lit(',')] + ([Int] + more);
      ScanLit(',', [Int] + more, Dec(ns[0]) + CommaNumbers(ns[1..], rest));
      ScanInt(ns[0], more, CommaNumbers(ns[1..], rest));
      assert IntFields(ns) == [IntField(ns[0])] + IntFields(ns[1..]);
      Prepended(IntField(ns[0]), IntFields(ns[1..]), Scan(format, rest));
    }
  }

  lemma Prepended(f: Field, fs: seq<Field>, gs: seq<Field>)
    ensures [f] + (fs + gs) == ([f] + fs) + gs
  {}

  /** ` %d,%d,..` on numbers as `%d` prints them. */
  lemma ScanNumbers(n: int, ns: seq<int>, format: seq<Directive>, rest: string)
    requires NoDigit(rest) && IsInt(n) && forall i: nat | i < |ns| :: IsInt(ns[i])
    ensures Scan(Ints(|ns|) + format, " " + (Dec(n) + CommaNumbers(ns, rest))) ==
            [IntField(n)] + (IntFields(ns) + Scan(format, rest))
  {
    hide Scan, Dec, IsInt;
    ScanMore(ns, format, rest);
    assert Ints(|ns|) + format == [White, Int] + (MoreInts(|ns|) + format);
    ScanIndex(n, MoreInts(|ns|) + format, CommaNumbers(ns, rest));
  }

  lemma ScanOnlyNumbers(n: int, ns: seq<int>, rest: string)
    requires NoDigit(rest) && IsInt(n) && forall i: nat | i < |ns| :: IsInt(ns[i])
    ensures Scan(Ints(|ns|), " " + (Dec(n) + CommaNumbers(ns, rest))) == [IntField(n)] + IntFields(ns)
  {
    ScanNumbers(n, ns, [], rest);
    ScanEmpty(rest);
    assert Ints(|ns|) + [] == Ints(|ns|);
    assert IntFields(ns) + [] == IntFields(ns);
  }

  // ---------- +CSQ ----------

  /** The signal line ` <rssi>,<ber>`. */
  lemma CsqReceived(payload: string, rssi: int, ber: int, rest: string)
    requires IsInt(rssi) && IsInt(ber) && NoDigit(rest)
    requires LineAfter(payload, "+CSQ:") == Some(" " + (Dec(rssi) + CommaNumbers([ber], rest)))
    ensures Read(ObjectText(ResponseMembers(Csq, payload))) ==
            Some(Obj([ Entry("rssi", Number(rssi)), Entry("ber", Number(ber)),
                       Entry("rssi_dbm", if 0 <= rssi <= 31 then Number(-113 + 2 * rssi) else Atom("null")),
                       Entry("raw", Str(payload)) ]))
  {
    hide *;
    CsqMembers(payload, rssi, ber, rest);
    CsqRead(rssi, ber, payload);
  }

  lemma CsqMembers(payload: string, rssi: int, ber: int, rest: string)
    requires IsInt(rssi) && IsInt(ber) && NoDigit(rest)
    requires LineAfter(payload, "+CSQ:") == Some(" " + (Dec(rssi) + CommaNumbers([ber], rest)))
    ensures ResponseMembers(Csq, payload) == Scalars(CsqValues(rssi, ber, payload))
  {
    hide Scan, Ints, Dec, Scalars, CsqValues, IsInt, CommaNumbers;
    ScanOnlyNumbers(rssi, [ber], rest);
    assert LineFields(payload, "+CSQ:", Ints(1)) == [IntField(rssi), IntField(ber)];
  }

  lemma CsqRead(rssi: int, ber: int, payload: string)
    ensures Read(ObjectText(Scalars(CsqValues(rssi, ber, payload)))) ==
            Some(Obj([ Entry("rssi", Number(rssi)), Entry("ber", Number(ber)),
                       Entry("rssi_dbm", if 0 <= rssi <= 31 then Number(-113 + 2 * rssi) else Atom("null")),
                       Entry("raw", Str(payload)) ]))
  {
    hide Read, ObjectText, Scalars, Dec;
    var vs := CsqValues(rssi, ber, payload);
    ScalarsRead(vs);
    assert ScalarEntries(vs) ==
      [ Entry("rssi", Number(rssi)), Entry("ber", Number(ber)),
        Entry("rssi_dbm", if 0 <= rssi <= 31 then Number(-113 + 2 * rssi) else Atom("null")),
        Entry("raw", Str(payload)) ];
  }

  // ---------- +GTCELLLOCK ----------

  lemma CellLockReceived(payload: string, mode: int, rat: int, kind: int, earfcn: int, pci: int, rest: string)
    requires IsInt(mode) && IsInt(rat) && IsInt(kind) && IsInt(earfcn) && IsInt(pci) && NoDigit(rest)
    requires LineAfter(payload, "+GTCELLLOCK:") == Some(" " + (Dec(mode) + CommaNumbers([rat, kind, earfcn, pci], rest)))
    ensures Read(ObjectText(ResponseMembers(GtCellLock, payload))) ==
            Some(Obj([ Entry("mode", Number(mode)), Entry("rat", Number(rat)), Entry("type", Number(kind)),
                       Entry("earfcn", Number(earfcn)), Entry("pci", Number(pci)), Entry("raw", Str(payload)) ]))
  {
    hide *;
    CellLockMembers(payload, mode, rat, kind, earfcn, pci, rest);
    CellLockRead([IntField(mode), IntField(rat), IntField(kind), IntField(earfcn), IntField(pci)], payload);
    FiveInts(mode, rat, kind, earfcn, pci);
  }

  lemma FiveInts(a: int, b: int, c: int, d: int, e: int)
    ensures var f := [IntField(a), IntField(b), IntField(c), IntField(d), IntField(e)];
      && IntOr(f, 0, -1) == a && IntOr(f, 1, -1) == b && IntOr(f, 2, -1) == c && IntOr(f, 3, -1) == d
      && IntOr(f, 4, -1) == e
  {}

  lemma CellLockMembers(payload: string, mode: int, rat: int, kind: int, earfcn: int, pci: int, rest: string)
    requires IsInt(mode) && IsInt(rat) && IsInt(kind) && IsInt(earfcn) && IsInt(pci) && NoDigit(rest)
    requires LineAfter(payload, "+GTCELLLOCK:") == Some(" " + (Dec(mode) + CommaNumbers([rat, kind, earfcn, pci], rest)))
    ensures ResponseMembers(GtCellLock, payload) ==
            Scalars(CellLockValues([IntField(mode), IntField(rat), IntField(kind), IntField(earfcn), IntField(pci)], payload))
  {
    hide Scan, Ints, Dec, Scalars, CellLockValues, IsInt, CommaNumbers;
    ScanOnlyNumbers(mode, [rat, kind, earfcn, pci], rest);
    assert LineFields(payload, "+GTCELLLOCK:", Ints(4)) ==
      [IntField(mode), IntField(rat), IntField(kind), IntField(earfcn), IntField(pci)];
  }

  lemma CellLockRead(f: seq<Field>, payload: string)
    ensures Read(ObjectText(Scalars(CellLockValues(f, payload)))) ==
            Some(Obj([ Entry("mode", Number(IntOr(f, 0, -1))), Entry("rat", Number(IntOr(f, 1, -1))),
                       Entry("type", Number(IntOr(f, 2, -1))), Entry("earfcn", Number(IntOr(f, 3, -1))),
                       Entry("pci", Number(IntOr(f, 4, -1))), Entry("raw", Str(payload)) ]))
  {
    hide Read, ObjectText, Scalars, Dec, IntOr;
    var vs := CellLockValues(f, payload);
    ScalarsRead(vs);
    assert ScalarEntries(vs) ==
      [ Entry("mode", Number(IntOr(f, 0, -1))), Entry("rat", Number(IntOr(f, 1, -1))),
        Entry("type", Number(IntOr(f, 2, -1))), Entry("earfcn", Number(IntOr(f, 3, -1))),
        Entry("pci", Number(IntOr(f, 4, -1))), Entry("raw", Str(payload)) ];
  }

  // ---------- +COPS ----------

  /** The operator line ` <mode>,<format>,"<oper>",<act>`; without an operator the technology is not read either. */
  lemma CopsReceived(payload: string, mode: int, format: int, oper: string, act: int, rest: string)
    requires IsInt(mode) && IsInt(format) && IsInt(act) && IsField(oper, 127) && NoDigit(rest)
    requires LineAfter(payload, "+COPS:") ==
             Some(" " + (Dec(mode) + CommaNumbers([format], "," + QuotedTo(oper, CommaNumbers([act], rest)))))
    ensures Read(ObjectText(ResponseMembers(Cops, payload))) ==
            Some(Obj([ Entry("mode", Number(mode)), Entry("format", Number(format)), Entry("operator", Str(oper)),
                       Entry("act", Number(if oper == "" then -1 else act)), Entry("raw", Str(payload)) ]))
  {
    var f := [IntField(mode), IntField(format)] + (if oper == "" then [] else [TextField(oper), IntField(act)]);
    CopsFieldsOf(mode, format, oper, act);
    hide *;
    CopsFields(mode, format, oper, act, rest);
    CopsMembers(payload, f);
    CopsRead(f, payload);
  }

  lemma CopsFieldsOf(mode: int, format: int, oper: string, act: int)
    ensures var f := [IntField(mode), IntField(format)] + (if oper == "" then [] else [TextField(oper), IntField(act)]);
      && IntOr(f, 0, -1) == mode && IntOr(f, 1, -1) == format && TextOr(f, 2, "") == oper
      && IntOr(f, 3, -1) == (if oper == "" then -1 else act)
  {}

  lemma CopsMembers(payload: string, f: seq<Field>)
    requires LineAfter(payload, "+COPS:").Some? && Scan(CopsFormat(), LineAfter(payload, "+COPS:").value) == f
    ensures ResponseMembers(Cops, payload) == Scalars(CopsValues(f, payload))
  {
    hide Scan, CopsFormat, Scalars, CopsValues;
  }

  lemma CopsRead(f: seq<Field>, payload: string)
    ensures Read(ObjectText(Scalars(CopsValues(f, payload)))) ==
            Some(Obj([ Entry("mode", Number(IntOr(f, 0, -1))), Entry("format", Number(IntOr(f, 1, -1))),
                       Entry("operator", Str(TextOr(f, 2, ""))), Entry("act", Number(IntOr(f, 3, -1))),
                       Entry("raw", Str(payload)) ]))
  {
    hide Read, ObjectText, Scalars, Dec, IntOr, TextOr;
    var vs := CopsValues(f, payload);
    ScalarsRead(vs);
    assert ScalarEntries(vs) ==
      [ Entry("mode", Number(IntOr(f, 0, -1))), Entry("format", Number(IntOr(f, 1, -1))),
        Entry("operator", Str(TextOr(f, 2, ""))), Entry("act", Number(IntOr(f, 3, -1))), Entry("raw", Str(payload)) ];
  }

  lemma CopsFields(mode: int, format: int, oper: string, act: int, rest: string)
    requires IsInt(mode) && IsInt(format) && IsInt(act) && IsField(oper, 127) && NoDigit(rest)
    ensures Scan(CopsFormat(), " " + (Dec(mode) + CommaNumbers([format], "," + QuotedTo(oper, CommaNumbers([act], rest)))))
            == [IntField(mode), IntField(format)] + (if oper == "" then [] else [TextField(oper), IntField(act)])
  {
    hide Scan, Dec, IsInt, IsField, QuotedTo;
    var quoted := QuotedTo(oper, CommaNumbers([act], rest));
    var tail := QuotedField(127) + MoreInts(1);
    ScanNumbers(mode, [format], [Lit(',')] + tail, "," + quoted);
    ScanLit(',', tail, quoted);
    ScanQuoted(127, oper, MoreInts(1), CommaNumbers([act], rest));
    ScanMore([act], [], rest);
    ScanEmpty(rest);
    assert MoreInts(1) + [] == MoreInts(1);
  }

  // ---------- +CREG and its relatives ----------

  /** The registration line ` <n>,<stat>,"<area>","<cell>",<act>`; nothing is read behind an empty text. */
  lemma RegistrationReceived(payload: string, prefix: string, n: int, stat: int, area: string, cell: string, act: int,
                             rest: string)
    requires IsInt(n) && IsInt(stat) && IsInt(act) && IsField(area, 63) && IsField(cell, 63) && NoDigit(rest)
    requires LineAfter(payload, prefix) ==
             Some(" " + (Dec(n) + CommaNumbers([stat], "," + QuotedTo(area, "," + QuotedTo(cell, CommaNumbers([act], rest))))))
    ensures Read(ObjectText(ResponseMembers(Registrations(prefix), payload))) ==
            Some(Obj([ Entry("n", Number(n)), Entry("stat", Number(stat)), Entry("area", Str(area)),
                       Entry("cell", Str(if area == "" then "" else cell)),
                       Entry("act", Number(if area == "" || cell == "" then -1 else act)), Entry("raw", Str(payload)) ]))
  {
    hide *;
    RegistrationFields(n, stat, area, cell, act, rest);
    RegistrationMembers(payload, prefix, RegistrationScan(n, stat, area, cell, act), [IntField(n), IntField(stat)]);
    RegistrationIs(n, stat, area, cell, act, payload, RegistrationScan(n, stat, area, cell, act),
                   [IntField(n), IntField(stat)]);
    RegistrationRead(n, stat, area, if area == "" then "" else cell, if area == "" || cell == "" then -1 else act, payload);
  }

  lemma RegistrationMembers(payload: string, prefix: string, f: seq<Field>, short: seq<Field>)
    requires LineAfter(payload, prefix).Some?
    requires Scan(RegistrationFormat(), LineAfter(payload, prefix).value) == f
    requires Scan(Ints(1), LineAfter(payload, prefix).value) == short
    ensures ResponseMembers(Registrations(prefix), payload) == Scalars(RegistrationOf(f, short, payload))
  {
    hide Scan, RegistrationFormat, Ints, Scalars, RegistrationOf;
  }

  lemma RegistrationRead(n: int, stat: int, area: string, cell: string, act: int, payload: string)
    ensures
      var vs := [ ("n", SInt(n)), ("stat", SInt(stat)), ("area", SStr(area)), ("cell", SStr(cell)), ("act", SInt(act)),
                  ("raw", SStr(payload)) ];
      Read(ObjectText(Scalars(vs))) ==
      Some(Obj([ Entry("n", Number(n)), Entry("stat", Number(stat)), Entry("area", Str(area)), Entry("cell", Str(cell)),
                 Entry("act", Number(act)), Entry("raw", Str(payload)) ]))
  {
    hide Read, ObjectText, Scalars, Dec;
    var vs := [ ("n", SInt(n)), ("stat", SInt(stat)), ("area", SStr(area)), ("cell", SStr(cell)), ("act", SInt(act)),
                ("raw", SStr(payload)) ];
    ScalarsRead(vs);
    assert ScalarEntries(vs) ==
      [ Entry("n", Number(n)), Entry("stat", Number(stat)), Entry("area", Str(area)), Entry("cell", Str(cell)),
        Entry("act", Number(act)), Entry("raw", Str(payload)) ];
  }

  function RegistrationScan(n: int, stat: int, area: string, cell: string, act: int): seq<Field> {
    [IntField(n), IntField(stat)] +
    (if area == "" then [] else [TextField(area)] + (if cell == "" then [] else [TextField(cell), IntField(act)]))
  }

  lemma RegistrationIs(n: int, stat: int, area: string, cell: string, act: int, payload: string, f: seq<Field>,
                       short: seq<Field>)
    requires f == RegistrationScan(n, stat, area, cell, act) && short == [IntField(n), IntField(stat)]
    ensures RegistrationOf(f, short, payload) ==
            [ ("n", SInt(n)), ("stat", SInt(stat)), ("area", SStr(area)), ("cell", SStr(if area == "" then "" else cell)),
              ("act", SInt(if area == "" || cell == "" then -1 else act)), ("raw", SStr(payload)) ]
  {}

  lemma RegistrationFields(n: int, stat: int, area: string, cell: string, act: int, rest: string)
    requires IsInt(n) && IsInt(stat) && IsInt(act) && IsField(area, 63) && IsField(cell, 63) && NoDigit(rest)
    ensures var line :=
        " " + (Dec(n) + CommaNumbers([stat], "," + QuotedTo(area, "," + QuotedTo(cell, CommaNumbers([act], rest)))));
      && Scan(RegistrationFormat(), line) == RegistrationScan(n, stat, area, cell, act)
      && Scan(Ints(1), line) == [IntField(n), IntField(stat)]
  {
    hide Scan, Dec, IsInt, IsField, QuotedTo;
    var second := QuotedTo(cell, CommaNumbers([act], rest));
    var first := QuotedTo(area, "," + second);
    var tail2 := QuotedField(63) + MoreInts(1);
    var tail1 := QuotedField(63) + ([Lit(',')] + tail2);
    ScanNumbers(n, [stat], [Lit(',')] + tail1, "," + first);
    ScanOnlyNumbers(n, [stat], "," + first);
    ScanLit(',', tail1, first);
    ScanQuoted(63, area, [Lit(',')] + tail2, "," + second);
    ScanLit(',', tail2, second);
    ScanQuoted(63, cell, MoreInts(1), CommaNumbers([act], rest));
    ScanMore([act], [], rest);
    ScanEmpty(rest);
    assert MoreInts(1) + [] == MoreInts(1);
  }

  // ---------- the plain parser ----------

  lemma RawReceived(name: string, payload: string)
    ensures Read(ObjectText(ResponseMembers(Raw(name), payload))) ==
            Some(Obj([Entry("parser", Str(name)), Entry("raw", Str(payload))]))
  {
    hide Read, ObjectText, Scalars;
    ScalarsRead(RawValues(name, payload));
    assert ScalarEntries(RawValues(name, payload)) == [Entry("parser", Str(name)), Entry("raw", Str(payload))];
  }

  /** A line stands first after line breaks. */
  lemma FirstLine(breaks: string, prefix: string, tail: string)
    requires (forall c | c in breaks :: IsLineBreak(c)) && prefix != "" && !IsLineBreak(prefix[0])
    ensures LineAfter(breaks + (prefix + tail), prefix) == Some(tail)
  {
    var raw := breaks + (prefix + tail);
    var i := |breaks|;
    assert raw[i..] == prefix + tail && prefix <= raw[i..];
    assert raw[i] == prefix[0];
    forall k: nat | k < i ensures IsLineBreak(raw[k]) {
      assert raw[k] == breaks[k] && breaks[k] in breaks;
    }
    assert LineStart(raw, 0, i) && PrefixAt(raw, prefix, i);
    forall j: nat | j < i ensures !PrefixAt(raw, prefix, j) {
      assert IsLineBreak(raw[j]);
    }
    LineAfterIs(raw, prefix, i);
    assert raw[i + |prefix|..] == tail;
  }

  // ---------- which parser a name selects ----------

  /** The parsers that the profiles name. */
  lemma NamesSelect()
    ensures ParserOf(Some("csq")) == Csq && ParserOf(Some("cops")) == Cops
    ensures ParserOf(Some("creg")) == Registrations("+CREG:") && ParserOf(Some("cgreg")) == Registrations("+CGREG:")
    ensures ParserOf(Some("cereg")) == Registrations("+CEREG:") && ParserOf(Some("c5greg")) == Registrations("+C5GREG:")
    ensures ParserOf(Some("gtact")) == Gtact && ParserOf(Some("gtcelllock")) == GtCellLock
    ensures ParserOf(Some("gtccinfo")) == GtCcInfo && ParserOf(Some("cgeqos")) == CgeQos
    ensures ParserOf(Some("cmgl")) == Cmgl && ParserOf(Some("cmgr")) == Cmgr
    ensures ParserOf(None) == Raw("raw") && ParserOf(Some("ok_error")) == Raw("ok_error")
  {}
}
