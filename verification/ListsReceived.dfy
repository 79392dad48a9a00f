/** The lists in AT responses, read back: the bands, the quality of service of each context, and the cells. */
module ListsReceived {
  import opened CStrings
  import opened Json
  import J = Json
  import opened JsonUtil
  import JU = JsonUtil
  import opened Bands
  import opened AtParsers
  import opened AtReceived

  /** An object with a list of items and the payload. */
  lemma ListRead(name: string, ds: seq<Doc>, payload: string)
    requires forall i: nat | i < |ds| :: WellFormed(ds[i])
    ensures Read(ObjectText(ListMembers(name, ds, payload))) ==
            Some(Obj([Entry(name, Arr(JU.Values(ds))), Entry("raw", Str(payload))]))
  {
    hide Read, JoinMembers, ObjDoc;
    var ms := ListMembers(name, ds, payload);
    ArrWellFormed(ds);
    CompactItemsValue(ds);
    ObjPrinted(ms);
    ReadObject(ms);
    assert Entries(ms) == [Entry(name, Arr(JU.Values(ds))), Entry("raw", Str(payload))];
  }

  // ---------- bands ----------

  function BandJson(b: Band): Json {
    Obj([ Entry("rat", Str(b.rat)), Entry("code", Number(b.code)), Entry("band", Number(b.band)),
          Entry("label", Str(b.shown)) ])
  }

  function BandJsons(bands: seq<Band>): (vs: seq<Json>)
    ensures |vs| == |bands|
  {
    seq(|bands|, i requires 0 <= i < |bands| => BandJson(bands[i]))
  }

  lemma BandRead(b: Band)
    ensures WellFormed(ObjDoc(BandMembers(b))) && J.Value(ObjDoc(BandMembers(b))) == BandJson(b)
  {
    hide Dec;
    BandWellFormed(b);
    CompactValue(BandMembers(b));
    assert Entries(BandMembers(b)) == BandJson(b).members;
  }

  /** The reader gets every band of the response, with technology, code, band and label under their names. */
  lemma BandsReceived(payload: string)
    ensures Read(ObjectText(ResponseMembers(Gtact, payload))) ==
            Some(Obj([Entry("bands", Arr(BandJsons(BandsOf(payload)))), Entry("raw", Str(payload))]))
  {
    hide Read, ObjectText, BandsOf, BandMembers, BandJson, WellFormed, ObjDoc;
    var bands := BandsOf(payload);
    var ds := BandDocs(bands);
    forall i: nat | i < |ds| ensures WellFormed(ds[i]) && J.Value(ds[i]) == BandJson(bands[i]) {
      BandRead(bands[i]);
    }
    ListRead("bands", ds, payload);
    assert JU.Values(ds) == BandJsons(bands);
  }

  // ---------- +CGEQOS ----------

  datatype Qos = Qos(cid: int, qci: int)

  function QosLine(q: Qos): string {
    " " + (Dec(q.cid) + CommaNumbers([q.qci], "\r\n"))
  }

  /** `+CGEQOS: <cid>,<qci>` for each context, then the end of the response. */
  function QosText(qs: seq<Qos>, rest: string): string {
    if qs == [] then rest else "+CGEQOS:" + (QosLine(qs[0]) + QosText(qs[1..], rest))
  }

  function QosJson(q: Qos): Json {
    Obj([Entry("cid", Number(q.cid)), Entry("qci", Number(q.qci))])
  }

  function QosJsons(qs: seq<Qos>): (vs: seq<Json>)
    ensures |vs| == |qs|
  {
    seq(|qs|, i requires 0 <= i < |qs| => QosJson(qs[i]))
  }

  predicate IsQos(q: Qos) {
    IsInt(q.cid) && IsInt(q.qci)
  }

  /** Text without a plus sign holds no mark. */
  lemma NoMark(text: string, i: nat, w: string, rest: string)
    requires i <= |text| && text[i..] == w + rest && '+' !in w
    ensures i + |w| <= |text| && text[i + |w|..] == rest
    ensures FindFrom(text, "+CGEQOS:", i) == FindFrom(text, "+CGEQOS:", i + |w|)
  {
    assert text[i + |w|..] == text[i..][|w|..] == rest;
    forall j: nat | i <= j < i + |w|
      ensures !Occurs(text, "+CGEQOS:", j)
    {
      assert text[j] == text[i..][j - i] == w[j - i] && w[j - i] in w;
      assert text[j..][0] == text[j] && "+CGEQOS:"[0] == '+';
    }
    hide FindFrom, Occurs;
  }

  lemma QosLinePlain(q: Qos)
    ensures '+' !in QosLine(q)
  {
    assert CommaNumbers([q.qci], "\r\n") == "," + (Dec(q.qci) + "\r\n");
    NoPlus(q.cid);
    NoPlus(q.qci);
  }

  lemma NoPlus(n: int)
    ensures '+' !in Dec(n)
  {}

  lemma {:induction false} QosRead(text: string, i: nat, w: string, qs: seq<Qos>, rest: string)
    requires i <= |text| && text[i..] == w + QosText(qs, rest) && '+' !in w && '+' !in rest
    requires forall k: nat | k < |qs| :: IsQos(qs[k])
    ensures JU.Values(QosDocs(text, i)) == QosJsons(qs)
    decreases |qs|
  {
    hide Scan, QosLine, QosMembers, QosDocs, FindFrom, Ints, IsQos, ObjDoc;
    NoMark(text, i, w, QosText(qs, rest));
    var j := i + |w|;
    if qs == [] {
      NoMark(text, j, rest, "");
      assert rest + "" == rest;
      NoMarkAtEnd(text, i);
    } else {
      var q, more := qs[0], QosText(qs[1..], rest);
      MarkHere(text, i, j, QosLine(q) + more);
      QosLinePlain(q);
      QosRead(text, j + 8, QosLine(q), qs[1..], rest);
      QosItem(q, more);
      var d := ObjDoc(QosMembers(Scan(Ints(1), QosLine(q) + more)));
      ValuesFirst(d, QosDocs(text, j + 8));
      QosFirst(qs);
    }
  }

  lemma NoMarkAtEnd(text: string, i: nat)
    requires FindFrom(text, "+CGEQOS:", i) == FindFrom(text, "+CGEQOS:", |text|)
    ensures QosDocs(text, i) == []
  {
    assert !Occurs(text, "+CGEQOS:", |text|);
  }

  lemma MarkHere(text: string, i: nat, j: nat, more: string)
    requires i <= j <= |text| && text[j..] == "+CGEQOS:" + more
    requires FindFrom(text, "+CGEQOS:", i) == FindFrom(text, "+CGEQOS:", j)
    ensures j + 8 <= |text| && text[j + 8..] == more
    ensures QosDocs(text, i) == [ObjDoc(QosMembers(Scan(Ints(1), more)))] + QosDocs(text, j + 8)
  {
    hide ObjDoc, QosMembers, Scan, Ints;
    assert |"+CGEQOS:"| == 8 && Occurs(text, "+CGEQOS:", j);
    assert text[j + 8..] == text[j..][8..] == more;
    assert FindFrom(text, "+CGEQOS:", j) == Some(j);
    hide FindFrom, Occurs;
  }

  lemma ValuesFirst(d: Doc, ds: seq<Doc>)
    ensures JU.Values([d] + ds) == [J.Value(d)] + JU.Values(ds)
  {}

  lemma QosFirst(qs: seq<Qos>)
    requires qs != []
    ensures QosJsons(qs) == [QosJson(qs[0])] + QosJsons(qs[1..])
  {}

  lemma QosItem(q: Qos, more: string)
    requires IsQos(q)
    ensures J.Value(ObjDoc(QosMembers(Scan(Ints(1), QosLine(q) + more)))) == QosJson(q)
  {
    hide Scan, Dec, IsInt;
    assert QosLine(q) + more == " " + (Dec(q.cid) + CommaNumbers([q.qci], "\r\n" + more)) by {
      assert CommaNumbers([q.qci], "\r\n") == "," + (Dec(q.qci) + "\r\n");
      assert CommaNumbers([q.qci], "\r\n" + more) == "," + (Dec(q.qci) + ("\r\n" + more));
    }
    ScanOnlyNumbers(q.cid, [q.qci], "\r\n" + more);
    var f := [IntField(q.cid), IntField(q.qci)];
    assert [IntField(q.cid)] + IntFields([q.qci]) == f;
    CompactValue(QosMembers(f));
    assert Entries(QosMembers(f)) == QosJson(q).members;
  }

  /** The reader gets one item for each context, in order. */
  lemma QosReceived(before: string, qs: seq<Qos>, rest: string)
    requires '+' !in before && '+' !in rest && forall k: nat | k < |qs| :: IsQos(qs[k])
    ensures var payload := before + QosText(qs, rest);
      Read(ObjectText(ResponseMembers(CgeQos, payload))) ==
      Some(Obj([Entry("items", Arr(QosJsons(qs))), Entry("raw", Str(payload))]))
  {
    hide Read, ObjectText, WellFormed, QosText, IsQos, QosDocs;
    var payload := before + QosText(qs, rest);
    assert payload[0..] == payload;
    QosRead(payload, 0, before, qs, rest);
    QosWellFormed(payload, 0);
    ListRead("items", QosDocs(payload, 0), payload);
  }

  // ---------- +GTCCINFO ----------

  /** The columns of a cell line, with commas between them. */
  function RowText(fs: seq<string>): string
    requires fs != []
  {
    fs[0] + RowRest(fs[1..])
  }

  function RowRest(fs: seq<string>): string {
    if fs == [] then "" else "," + (fs[0] + RowRest(fs[1..]))
  }

  /** `strtok_r` skips empty columns, so the ones behind them move to the left. */
  function Filled(fs: seq<string>): seq<string> {
    if fs == [] then [] else (if fs[0] == "" then [] else [fs[0]]) + Filled(fs[1..])
  }

  predicate IsColumn(f: string) {
    Trimmed(f) && forall i: nat | i < |f| :: f[i] != ',' && !IsLineBreak(f[i])
  }

  /** A line with at least eight filled columns that fits the row buffer and is not taken for a heading. */
  predicate IsRow(fs: seq<string>) {
    && |Filled(fs)| >= 8 && |RowText(fs)| <= 511 && !("+GTCCINFO:" <= RowText(fs))
    && forall i: nat | i < |fs| :: IsColumn(fs[i])
  }

  lemma FilledShorter(fs: seq<string>)
    ensures |Filled(fs)| <= |fs|
  {}

  /** Column `i` of those that are filled. */
  function Column(fs: seq<string>, i: nat): string {
    if i < |Filled(fs)| then Filled(fs)[i] else ""
  }

  /** Which column goes under which name. */
  function CellJson(fs: seq<string>): Json
    requires fs != []
  {
    Obj([ Entry("service", Number(Atoi(Column(fs, 0)))), Entry("rat", Str(Column(fs, 1))), Entry("mcc", Str(Column(fs, 2))),
          Entry("mnc", Str(Column(fs, 3))), Entry("area", Str(Column(fs, 4))), Entry("cell", Str(Column(fs, 5))),
          Entry("earfcn", Number(Atoi(Column(fs, 6)))), Entry("pci", Number(Atoi(Column(fs, 7)))),
          Entry("band", Str(Column(fs, 8))), Entry("sinr", Str(Column(fs, 10))), Entry("rsrp", Str(Column(fs, 12))),
          Entry("rsrq", Str(Column(fs, 13))), Entry("raw", Str(RowText(fs))) ])
  }

  lemma {:induction false} RowTokens(before: string, fs: seq<string>)
    requires (forall i: nat | i < |before| :: before[i] == ',') && forall i: nat | i < |fs| :: IsColumn(fs[i])
    ensures Tokens(before + RowRest(fs), IsComma) == Filled(fs)
    decreases |fs|
  {
    hide Tokens;
    if fs == [] {
      assert before + "" == before;
      TokensEnd(before, IsComma);
    } else {
      var rest := RowRest(fs[1..]);
      assert IsColumn(fs[0]);
      assert before + RowRest(fs) == (before + ",") + (fs[0] + rest);
      if fs[0] == "" {
        assert fs[0] + rest == rest;
        RowTokens(before + ",", fs[1..]);
      } else {
        RowTokens("", fs[1..]);
        assert "" + rest == rest;
        TokensStep(before + ",", fs[0], rest, IsComma);
      }
    }
  }

  lemma RowFields(fs: seq<string>)
    requires fs != [] && forall i: nat | i < |fs| :: IsColumn(fs[i])
    ensures Tokens(RowText(fs), IsComma) == Filled(fs)
  {
    var f, rest := fs[0], RowRest(fs[1..]);
    RowTokens("", fs[1..]);
    assert "" + rest == rest && IsColumn(f);
    assert rest == "" || rest[0] == ',';
    FirstColumn(f, rest);
    hide Tokens, RowRest, IsColumn;
  }

  lemma FirstColumn(f: string, rest: string)
    requires IsColumn(f) && (rest == "" || rest[0] == ',')
    ensures Tokens(f + rest, IsComma) == (if f == "" then [] else [f]) + Tokens(rest, IsComma)
  {
    hide Tokens;
    if f == "" {
      assert f + rest == rest;
    } else {
      assert "" + (f + rest) == f + rest;
      TokensStep("", f, rest, IsComma);
    }
  }

  lemma {:induction false} FilledColumns(fs: seq<string>)
    requires forall i: nat | i < |fs| :: IsColumn(fs[i])
    ensures forall i: nat | i < |Filled(fs)| :: IsColumn(Filled(fs)[i]) && Filled(fs)[i] != ""
  {
    hide IsColumn;
    if fs != [] {
      FilledColumns(fs[1..]);
    }
  }

  /** The fields the parser makes of a row: the filled columns, at most 24. */
  lemma RowIsRead(fs: seq<string>)
    requires fs != [] && IsRow(fs)
    ensures |CellFields(RowText(fs))| >= 8
    ensures forall i: nat | i < 24 :: FieldOr(CellFields(RowText(fs)), i) == Column(fs, i)
  {
    hide Tokens, Filled;
    RowFields(fs);
    FilledColumns(fs);
    var line := RowText(fs);
    assert Take(line, 511) == line;
    forall i: nat | i < |Filled(fs)| ensures Trim(Filled(fs)[i]) == Filled(fs)[i] {
      TrimOfTrimmed(Filled(fs)[i]);
    }
  }

  lemma TrimOfTrimmed(s: string)
    requires Trimmed(s)
    ensures Trim(s) == s
  {
    if s == "" {
      TrimBlank("");
    } else {
      TrimPadded("", s, "");
      assert "" + s + "" == s;
    }
  }

  lemma CellRead(fs: seq<string>)
    requires fs != [] && IsRow(fs)
    ensures CellOfLine(RowText(fs)).Some? && J.Value(CellOfLine(RowText(fs)).value) == CellJson(fs)
  {
    hide CellFields, IsRow, Column, RowText, Atoi;
    var line := RowText(fs);
    RowIsRead(fs);
    RowIsNoHeading(fs);
    var cs := CellFields(line);
    var ms := CellMembers(cs, line);
    CompactValue(ms);
    CellEntries(cs, line);
    assert forall i: nat | i < 8 :: cs[i] == FieldOr(cs, i);
    assert Entries(ms) == CellJson(fs).members;
  }

  lemma RowIsNoHeading(fs: seq<string>)
    requires fs != [] && IsRow(fs)
    ensures var line := RowText(fs); line != "" && line != "OK" && ',' in line && !("+GTCCINFO:" <= line)
  {
    FilledShorter(fs);
    var rest := RowRest(fs[1..]);
    assert rest[0] == ',';
    var line := RowText(fs);
    assert line[|fs[0]|] == ',';
  }

  lemma CellEntries(cs: seq<string>, line: string)
    requires |cs| >= 8
    ensures Entries(CellMembers(cs, line)) ==
      [ Entry("service", Number(Atoi(cs[0]))), Entry("rat", Str(cs[1])), Entry("mcc", Str(cs[2])), Entry("mnc", Str(cs[3])),
        Entry("area", Str(cs[4])), Entry("cell", Str(cs[5])), Entry("earfcn", Number(Atoi(cs[6]))),
        Entry("pci", Number(Atoi(cs[7]))), Entry("band", Str(FieldOr(cs, 8))), Entry("sinr", Str(FieldOr(cs, 10))),
        Entry("rsrp", Str(FieldOr(cs, 12))), Entry("rsrq", Str(FieldOr(cs, 13))), Entry("raw", Str(line)) ]
  {
    hide Atoi, FieldOr, Dec;
    var vs := CellIdentity(cs) + CellQuality(cs, line);
    EntriesOfScalars(vs);
    assert ScalarEntries(vs) ==
      [ Entry("service", Number(Atoi(cs[0]))), Entry("rat", Str(cs[1])), Entry("mcc", Str(cs[2])), Entry("mnc", Str(cs[3])),
        Entry("area", Str(cs[4])), Entry("cell", Str(cs[5])), Entry("earfcn", Number(Atoi(cs[6]))),
        Entry("pci", Number(Atoi(cs[7]))), Entry("band", Str(FieldOr(cs, 8))), Entry("sinr", Str(FieldOr(cs, 10))),
        Entry("rsrp", Str(FieldOr(cs, 12))), Entry("rsrq", Str(FieldOr(cs, 13))), Entry("raw", Str(line)) ];
  }

  /** A line of the response: a cell, or a heading, a group name or `OK`. */
  datatype CellLine = Row(fs: seq<string>) | Other(text: string)

  predicate IsCellLine(l: CellLine) {
    match l
    case Row(fs) => fs != [] && IsRow(fs)
    case Other(t) =>
      && t != "" && Trimmed(t) && (forall i: nat | i < |t| :: !IsLineBreak(t[i]))
      && (t == "OK" || "+GTCCINFO:" <= t || ',' !in t)
  }

  function LineText(l: CellLine): string
    requires IsCellLine(l)
  {
    match l
    case Row(fs) => RowText(fs)
    case Other(t) => t
  }

  function CellsText(ls: seq<CellLine>): string
    requires forall i: nat | i < |ls| :: IsCellLine(ls[i])
  {
    if ls == [] then "" else LineText(ls[0]) + ("\r\n" + CellsText(ls[1..]))
  }

  /** The cells among the lines, in order. */
  function CellJsons(ls: seq<CellLine>): seq<Json>
    requires forall i: nat | i < |ls| :: IsCellLine(ls[i])
  {
    if ls == [] then [] else
    assert IsCellLine(ls[0]);
    (if ls[0].Row? then [CellJson(ls[0].fs)] else []) + CellJsons(ls[1..])
  }

  lemma {:induction false} RowRestPlain(fs: seq<string>)
    requires forall i: nat | i < |fs| :: IsColumn(fs[i])
    ensures forall i: nat | i < |RowRest(fs)| :: !IsLineBreak(RowRest(fs)[i])
    ensures RowRest(fs) == "" || (!IsBlank(RowRest(fs)[0]) && !IsBlank(RowRest(fs)[|RowRest(fs)| - 1]))
  {
    if fs != [] {
      assert IsColumn(fs[0]);
      RowRestPlain(fs[1..]);
      var t, rest := RowRest(fs), RowRest(fs[1..]);
      assert t == "," + (fs[0] + rest);
      assert t[|t| - 1] == if rest != "" then rest[|rest| - 1] else if fs[0] != "" then fs[0][|fs[0]| - 1] else ',';
    }
  }

  lemma TextOfLine(l: CellLine)
    requires IsCellLine(l)
    ensures var t := LineText(l); t != "" && Trimmed(t) && forall i: nat | i < |t| :: !IsLineBreak(t[i])
  {
    if l.Row? {
      var fs := l.fs;
      assert IsColumn(fs[0]);
      FilledShorter(fs);
      RowRestPlain(fs[1..]);
      var rest := RowRest(fs[1..]);
      assert rest != "" && RowText(fs)[|RowText(fs)| - 1] == rest[|rest| - 1];
      assert RowText(fs)[0] == if fs[0] == "" then rest[0] else fs[0][0];
    }
  }

  lemma {:induction false} CellsRead(before: string, ls: seq<CellLine>)
    requires (forall i: nat | i < |before| :: IsLineBreak(before[i])) && forall i: nat | i < |ls| :: IsCellLine(ls[i])
    ensures JU.Values(CellDocs(Lines(before + CellsText(ls)))) == CellJsons(ls)
    decreases |ls|
  {
    hide Tokens, CellOfLine, IsCellLine, LineText, CellJson, Trim;
    if ls == [] {
      assert before + "" == before;
      TokensEnd(before, IsLineBreak);
    } else {
      var t, rest := LineText(ls[0]), CellsText(ls[1..]);
      TextOfLine(ls[0]);
      CellsRead("\r\n", ls[1..]);
      TokensStep(before, t, "\r\n" + rest, IsLineBreak);
      TrimOfTrimmed(t);
      OneCell(ls[0]);
      FirstCell(t, Lines("\r\n" + rest));
    }
  }

  lemma OneCell(l: CellLine)
    requires IsCellLine(l)
    ensures match CellOfLine(LineText(l)) case None => l.Other? case Some(d) => l.Row? && J.Value(d) == CellJson(l.fs)
  {
    hide CellFields, CellMembers, CellJson;
    if l.Row? {
      CellRead(l.fs);
    }
  }

  lemma FirstCell(t: string, more: seq<string>)
    ensures JU.Values(CellDocs([t] + more)) ==
            (match CellOfLine(Trim(t)) case None => [] case Some(d) => [J.Value(d)]) + JU.Values(CellDocs(more))
  {
    hide CellOfLine, Trim;
    assert ([t] + more)[1..] == more;
    match CellOfLine(Trim(t))
    case None => assert [] + CellDocs(more) == CellDocs(more);
    case Some(d) => ValuesFirst(d, CellDocs(more));
  }

  /** The reader gets one item for each cell line, in order, with its columns under their names. */
  lemma CellsReceived(before: string, ls: seq<CellLine>)
    requires (forall i: nat | i < |before| :: IsLineBreak(before[i])) && forall i: nat | i < |ls| :: IsCellLine(ls[i])
    ensures var payload := before + CellsText(ls);
      Read(ObjectText(ResponseMembers(GtCcInfo, payload))) ==
      Some(Obj([Entry("items", Arr(CellJsons(ls))), Entry("raw", Str(payload))]))
  {
    hide *;
    var payload := before + CellsText(ls);
    CellsRead(before, ls);
    CellsWellFormed(Lines(payload));
    ListRead("items", CellDocs(Lines(payload)), payload);
    CellsMembers(payload);
  }

  lemma CellsMembers(payload: string)
    ensures ResponseMembers(GtCcInfo, payload) == ListMembers("items", CellDocs(Lines(payload)), payload)
  {
    hide CellDocs, Tokens, ListMembers;
  }
}
