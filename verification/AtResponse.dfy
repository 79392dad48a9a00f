/** src/parsers.c: `parse_at_response_json` and the parsers behind it, writing into a buffer. */
module AtResponse {
  import opened CStrings
  import opened Buffer
  import opened Json
  import opened JsonUtil
  import opened Payload
  import opened Bands
  import opened Sms
  import opened AtParsers

  /** The payload that every parser normalises its response to. */
  function PayloadText(raw: Option<string>): string {
    if raw.None? then "" else PayloadOf(raw.value)
  }

  // ---------- objects without structure ----------

  lemma ScalarsSnoc(vs: Values, name: string, v: Scalar)
    ensures Scalars(vs + [(name, v)]) == Scalars(vs) + [(name, ScalarDoc(v))]
  {
    hide ScalarDoc;
  }

  method AppendString(b: Buf, name: string, value: string, comma: bool, ghost base: string, ghost vs: Values)
    returns (ghost grown: Values)
    requires b.Valid() && b.text == base + JoinMembers(Scalars(vs)) && comma == (vs != [])
    modifies b, b.data
    ensures b.Valid() && (b.data == old(b.data) || fresh(b.data))
    ensures grown == vs + [(name, SStr(value))] && b.text == base + JoinMembers(Scalars(grown))
  {
    hide JoinMembers;
    ScalarsSnoc(vs, name, SStr(value));
    grown := vs + [(name, SStr(value))];
    ghost var ms := PropString(b, name, value, comma, base, Scalars(vs));
  }

  method AppendInt(b: Buf, name: string, value: int, comma: bool, ghost base: string, ghost vs: Values)
    returns (ghost grown: Values)
    requires b.Valid() && b.text == base + JoinMembers(Scalars(vs)) && comma == (vs != [])
    modifies b, b.data
    ensures b.Valid() && (b.data == old(b.data) || fresh(b.data))
    ensures grown == vs + [(name, SInt(value))] && b.text == base + JoinMembers(Scalars(grown))
  {
    hide JoinMembers, IntDoc;
    ScalarsSnoc(vs, name, SInt(value));
    grown := vs + [(name, SInt(value))];
    ghost var ms := PropInt(b, name, value, comma, base, Scalars(vs));
  }

  /** The buffer with the opening brace of an object. */
  method OpenObject(capacity: nat) returns (b: Buf)
    ensures fresh(b) && fresh(b.data) && b.Valid()
    ensures b.text == "{" + JoinMembers(Scalars([]))
  {
    b := new Buf(capacity);
    b.Append("{");
    assert Scalars([]) == [];
    StartList("{");
    EmptyLeft("{");
  }

  /** The closing brace and the finished text. */
  method CloseObjectText(b: Buf, ghost ms: seq<Member>) returns (json: string)
    requires b.Valid() && b.text == "{" + JoinMembers(ms)
    modifies b, b.data
    ensures json == ObjectText(ms)
  {
    b.Append("}");
    ObjPrinted(ms);
    json := b.CString();
  }

  method JsonRawWithParser(parser: string, raw: Option<string>) returns (json: string)
    ensures json == ObjectText(ResponseMembers(Raw(parser), PayloadText(raw)))
  {
    hide JoinMembers, Scalars, ObjectText, PayloadOf;
    var payload := NormalizedAtPayload(raw);
    var b := OpenObject(512);
    ghost var vs := AppendString(b, "parser", parser, false, "{", []);
    vs := AppendString(b, "raw", payload, true, "{", vs);
    assert vs == RawValues(parser, payload);
    json := CloseObjectText(b, Scalars(vs));
  }

  method ParseCsq(raw: Option<string>) returns (json: string)
    ensures json == ObjectText(ResponseMembers(Csq, PayloadText(raw)))
  {
    hide Scalars, ObjectText, PayloadOf, Scan, Ints, CsqValues;
    var payload := NormalizedAtPayload(raw);
    var rssi, ber := -1, -1;
    var p := FindLinePrefix(payload, "+CSQ:");
    if p.Some? {
      var f := Scan(Ints(1), p.value);
      rssi, ber := IntOr(f, 0, rssi), IntOr(f, 1, ber);
    }
    json := CsqText(rssi, ber, payload);
  }

  method CsqText(rssi: int, ber: int, payload: string) returns (json: string)
    ensures json == ObjectText(Scalars(CsqValues(rssi, ber, payload)))
  {
    hide JoinMembers, Scalars, ObjectText;
    var dbm := if 0 <= rssi <= 31 then -113 + 2 * rssi else 0;
    var b := OpenObject(256);
    ghost var vs := AppendInt(b, "rssi", rssi, false, "{", []);
    vs := AppendInt(b, "ber", ber, true, "{", vs);
    if dbm != 0 {
      vs := AppendInt(b, "rssi_dbm", dbm, true, "{", vs);
    } else {
      NullPiece(b.text, vs);
      b.Append(",\"rssi_dbm\":null");
      vs := vs + [("rssi_dbm", SNull)];
    }
    vs := AppendString(b, "raw", payload, true, "{", vs);
    assert vs == CsqValues(rssi, ber, payload);
    json := CloseObjectText(b, Scalars(vs));
  }

  lemma NullPiece(text: string, vs: Values)
    requires text == "{" + JoinMembers(Scalars(vs)) && vs != []
    ensures text + ",\"rssi_dbm\":null" == "{" + JoinMembers(Scalars(vs + [("rssi_dbm", SNull)]))
  {
    var named := text + ",\"rssi_dbm\":";
    hide JoinMembers, Scalars;
    NamePiece(text, "rssi_dbm", ",\"rssi_dbm\":");
    ScalarsSnoc(vs, "rssi_dbm", SNull);
    NullPrinted();
    ScalarsNotEmpty(vs);
    var grown := GrowMembers("{", Scalars(vs), ("rssi_dbm", DAtom("null")), named + "null");
    Assoc(text, ",\"rssi_dbm\":", "null");
    assert ",\"rssi_dbm\":" + "null" == ",\"rssi_dbm\":null";
  }

  lemma ScalarsNotEmpty(vs: Values)
    requires vs != []
    ensures Scalars(vs) != []
  {}

  lemma NullPrinted()
    ensures Print(DAtom("null")) == "null"
  {
    assert "null" + "" == "null";
  }

  method ParseCops(raw: Option<string>) returns (json: string)
    ensures json == ObjectText(ResponseMembers(Cops, PayloadText(raw)))
  {
    hide JoinMembers, Scalars, ObjectText, PayloadOf, Scan, CopsFormat;
    var payload := NormalizedAtPayload(raw);
    var f: seq<Field> := [];
    var p := FindLinePrefix(payload, "+COPS:");
    if p.Some? {
      f := Scan(CopsFormat(), p.value);
    }
    json := CopsText(f, payload);
  }

  method CopsText(f: seq<Field>, payload: string) returns (json: string)
    ensures json == ObjectText(Scalars(CopsValues(f, payload)))
  {
    hide JoinMembers, Scalars, ObjectText, IntOr, TextOr;
    var b := OpenObject(256);
    ghost var vs := AppendInt(b, "mode", IntOr(f, 0, -1), false, "{", []);
    vs := AppendInt(b, "format", IntOr(f, 1, -1), true, "{", vs);
    vs := AppendString(b, "operator", TextOr(f, 2, ""), true, "{", vs);
    vs := AppendInt(b, "act", IntOr(f, 3, -1), true, "{", vs);
    vs := AppendString(b, "raw", payload, true, "{", vs);
    assert vs == CopsValues(f, payload);
    json := CloseObjectText(b, Scalars(vs));
  }

  method ParseRegistration(raw: Option<string>, prefix: string) returns (json: string)
    ensures json == ObjectText(ResponseMembers(Registrations(prefix), PayloadText(raw)))
  {
    hide JoinMembers, Scalars, ObjectText, PayloadOf, Scan, RegistrationFormat, Ints;
    var payload := NormalizedAtPayload(raw);
    var n, stat, act := -1, -1, -1;
    var area, cell := "", "";
    var p := FindLinePrefix(payload, prefix);
    if p.Some? {
      var f := Scan(RegistrationFormat(), p.value);
      n, stat, area, cell, act :=
        IntOr(f, 0, n), IntOr(f, 1, stat), TextOr(f, 2, area), TextOr(f, 3, cell), IntOr(f, 4, act);
      if stat < 0 {
        f := Scan(Ints(1), p.value);
        n, stat := IntOr(f, 0, n), IntOr(f, 1, stat);
      }
    }
    json := RegistrationText(n, stat, area, cell, act, payload);
  }

  method RegistrationText(n: int, stat: int, area: string, cell: string, act: int, payload: string) returns (json: string)
    ensures json == ObjectText(Scalars(RegistrationValues(n, stat, area, cell, act, payload)))
  {
    hide JoinMembers, Scalars, ObjectText;
    var b := OpenObject(320);
    ghost var vs := AppendInt(b, "n", n, false, "{", []);
    vs := AppendInt(b, "stat", stat, true, "{", vs);
    vs := AppendString(b, "area", area, true, "{", vs);
    vs := AppendString(b, "cell", cell, true, "{", vs);
    vs := AppendInt(b, "act", act, true, "{", vs);
    vs := AppendString(b, "raw", payload, true, "{", vs);
    assert vs == RegistrationValues(n, stat, area, cell, act, payload);
    json := CloseObjectText(b, Scalars(vs));
  }

  method ParseGtcelllock(raw: Option<string>) returns (json: string)
    ensures json == ObjectText(ResponseMembers(GtCellLock, PayloadText(raw)))
  {
    hide JoinMembers, Scalars, ObjectText, PayloadOf, Scan, Ints;
    var payload := NormalizedAtPayload(raw);
    var f: seq<Field> := [];
    var p := FindLinePrefix(payload, "+GTCELLLOCK:");
    if p.Some? {
      f := Scan(Ints(4), p.value);
    }
    json := CellLockText(f, payload);
  }

  method CellLockText(f: seq<Field>, payload: string) returns (json: string)
    ensures json == ObjectText(Scalars(CellLockValues(f, payload)))
  {
    hide JoinMembers, Scalars, ObjectText, IntOr;
    var b := OpenObject(320);
    ghost var vs := AppendInt(b, "mode", IntOr(f, 0, -1), false, "{", []);
    vs := AppendInt(b, "rat", IntOr(f, 1, -1), true, "{", vs);
    vs := AppendInt(b, "type", IntOr(f, 2, -1), true, "{", vs);
    vs := AppendInt(b, "earfcn", IntOr(f, 3, -1), true, "{", vs);
    vs := AppendInt(b, "pci", IntOr(f, 4, -1), true, "{", vs);
    vs := AppendString(b, "raw", payload, true, "{", vs);
    assert vs == CellLockValues(f, payload);
    json := CloseObjectText(b, Scalars(vs));
  }

  // ---------- objects with a list ----------

  /** `,"raw":` with the payload, the closing brace, and the finished text. */
  method CloseWithRaw(b: Buf, payload: string, ghost ms: seq<Member>) returns (json: string)
    requires b.Valid() && b.text == "{" + JoinMembers(ms) && ms != []
    modifies b, b.data
    ensures json == ObjectText(ms + [("raw", DStr(payload))])
  {
    hide JoinMembers;
    NamePiece(b.text, "raw", ",\"raw\":");
    b.Append(",\"raw\":");
    JsonEscape(b, payload);
    ghost var grown := GrowMembers("{", ms, ("raw", DStr(payload)), b.text);
    json := CloseObjectText(b, grown);
  }

  method ParseGtact(raw: Option<string>) returns (json: string)
    ensures json == ObjectText(ResponseMembers(Gtact, PayloadText(raw)))
  {
    hide JoinMembers, BandDocs, BandsOf, PayloadOf, ObjectText, Print, ArrDoc, Quote;
    var payload := NormalizedAtPayload(raw);
    var b := new Buf(1024);
    b.Append("{\"bands\":");
    BandsPiece();
    EmptyLeft(b.text);
    AppendFibocomBandItems(b, payload);
    ghost var ms := GrowMembers("{", [], ("bands", ArrDoc(BandDocs(BandsOf(payload)))), b.text);
    assert ms + [("raw", DStr(payload))] == GtactMembers(payload);
    json := CloseWithRaw(b, payload, ms);
  }

  lemma BandsPiece()
    ensures "" + "{\"bands\":" == "{" + JoinMembers([]) + Comma(false) + Quote("bands") + ":"
  {
    StartList("{");
    PlainQuote("bands");
    assert "{\"bands\":" == "{" + "" + ("\"" + "bands" + "\"") + ":";
  }

  /** The text up to the opening bracket of the only array. */
  ghost function ListBase(): string {
    "{" + JoinMembers([]) + Comma(false) + Quote("items") + ":" + "["
  }

  method OpenList(capacity: nat) returns (b: Buf)
    ensures fresh(b) && fresh(b.data) && b.Valid()
    ensures b.text == ListBase() + JoinItems([])
  {
    b := new Buf(capacity);
    b.Append("{\"items\":[");
    FirstArrayPiece("items", "{\"items\":[");
    EmptyLeft("{\"items\":[");
    StartList(ListBase());
  }

  /** The closing bracket of the only array, and everything after it. */
  method CloseList(b: Buf, ghost ds: seq<Doc>, payload: string) returns (json: string)
    requires b.Valid()
    requires b.text == ListBase() + JoinItems(ds) + "]"
    modifies b, b.data
    ensures json == ObjectText(ListMembers("items", ds, payload))
  {
    hide JoinMembers, JoinItems, ObjectText, ArrDoc, Quote;
    ghost var ms := GrowArray("{", [], "items", ds, b.text);
    assert ms + [("raw", DStr(payload))] == ListMembers("items", ds, payload);
    json := CloseWithRaw(b, payload, ms);
  }

  method ParseCgeqos(raw: Option<string>) returns (json: string)
    ensures json == ObjectText(ResponseMembers(CgeQos, PayloadText(raw)))
  {
    hide ListBase, JoinItems, PayloadOf, ObjectText, ListMembers, QosDocs;
    var payload := NormalizedAtPayload(raw);
    var b := OpenList(768);
    AppendQosItems(b, payload, ListBase());
    b.Append("]");
    json := CloseList(b, QosDocs(payload, 0), payload);
  }

  method AppendQosItems(b: Buf, payload: string, ghost base: string)
    requires b.Valid() && b.text == base + JoinItems([])
    modifies b, b.data
    ensures b.Valid() && (b.data == old(b.data) || fresh(b.data))
    ensures b.text == base + JoinItems(QosDocs(payload, 0))
  {
    hide JoinItems, QosMembers, Scan, Ints, QosDocs, Print, ObjDoc, FindFrom;
    ghost var done: seq<Doc> := [];
    ghost var all := QosDocs(payload, 0);
    ghost var from := 0;
    assert done + all == all;
    var first := true;
    var p := FindFrom(payload, "+CGEQOS:", 0);
    while p.Some?
      invariant p == FindFrom(payload, "+CGEQOS:", from)
      invariant b.Valid() && (b.data == old(b.data) || fresh(b.data))
      invariant b.text == base + JoinItems(done) && first == (done == [])
      invariant done + QosDocs(payload, from) == all
      decreases |payload| - from
    {
      QosStep(payload, from, done);
      var f := Scan(Ints(1), payload[p.value + 8..]);
      AppendQos(b, f, first, base, done);
      first := false;
      done := done + [ObjDoc(QosMembers(f))];
      from := p.value + 8;
      p := FindFrom(payload, "+CGEQOS:", p.value + 8);
    }
    NoQos(payload, from, done);
  }

  lemma NoQos(text: string, i: nat, done: seq<Doc>)
    requires FindFrom(text, "+CGEQOS:", i) == None
    ensures done + QosDocs(text, i) == done
  {}

  lemma QosStep(text: string, i: nat, done: seq<Doc>)
    ensures match FindFrom(text, "+CGEQOS:", i)
      case None => true
      case Some(j) =>
        && j + 8 <= |text|
        && done + QosDocs(text, i) == done + [ObjDoc(QosMembers(Scan(Ints(1), text[j + 8..])))] + QosDocs(text, j + 8)
  {
    hide ObjDoc, QosMembers, Scan, Ints, FindFrom;
    match FindFrom(text, "+CGEQOS:", i)
    case None =>
    case Some(j) =>
      var d := ObjDoc(QosMembers(Scan(Ints(1), text[j + 8..])));
      QosFirst(text, i, j);
      hide QosDocs;
      assert j + 8 <= |text|;
      assert done + ([d] + QosDocs(text, j + 8)) == done + [d] + QosDocs(text, j + 8);
  }

  lemma QosFirst(text: string, i: nat, j: nat)
    requires FindFrom(text, "+CGEQOS:", i) == Some(j)
    ensures j + 8 <= |text|
    ensures QosDocs(text, i) == [ObjDoc(QosMembers(Scan(Ints(1), text[j + 8..])))] + QosDocs(text, j + 8)
  {
    hide ObjDoc, QosMembers, Scan, Ints;
    assert Occurs(text, "+CGEQOS:", j);
    assert |"+CGEQOS:"| == 8;
    hide FindFrom, Occurs;
  }

  method AppendQos(b: Buf, f: seq<Field>, first: bool, ghost base: string, ghost done: seq<Doc>)
    requires b.Valid() && b.text == base + JoinItems(done) && first == (done == [])
    modifies b, b.data
    ensures b.Valid() && (b.data == old(b.data) || fresh(b.data))
    ensures b.text == base + JoinItems(done + [ObjDoc(QosMembers(f))])
  {
    hide JoinItems, Print, ObjDoc, QosMembers;
    if !first {
      b.Append(",");
    } else {
      assert b.text + "" == b.text;
    }
    AppendQosObject(b, f);
    ghost var grown := GrowItems(base, done, ObjDoc(QosMembers(f)), b.text);
  }

  method AppendQosObject(b: Buf, f: seq<Field>)
    requires b.Valid()
    modifies b, b.data
    ensures b.Valid() && (b.data == old(b.data) || fresh(b.data))
    ensures b.text == old(b.text) + Print(ObjDoc(QosMembers(f)))
  {
    hide JoinMembers, Scalars, Print, ObjDoc, IntOr;
    ghost var base := b.text + "{";
    b.Append("{");
    StartScalars(base);
    ghost var vs := AppendInt(b, "cid", IntOr(f, 0, -1), false, base, []);
    vs := AppendInt(b, "qci", IntOr(f, 1, -1), true, base, vs);
    assert vs == QosValues(f);
    b.Append("}");
    CloseObject(old(b.text), Scalars(vs), b.text);
  }

  lemma StartScalars(base: string)
    ensures base == base + JoinMembers(Scalars([]))
  {
    assert Scalars([]) == [];
    StartList(base);
  }

  // ----- +GTCCINFO -----

  /** The fields of a line: `strtok_r` with commas, at most 24 of them, each trimmed. */
  method SplitFields(line: string) returns (fields: seq<string>)
    ensures fields == CellFields(line)
  {
    hide Tokens, Trim;
    ghost var all := Tokens(Take(line, 511), IsComma);
    var f, save := StrTok(Take(line, 511), IsComma);
    fields := [];
    while f.Some? && |fields| < 24
      invariant |fields| <= 24 && |fields| <= |all|
      invariant all[|fields|..] == if f.None? then [] else [f.value] + Tokens(save, IsComma)
      invariant forall i: nat | i < |fields| :: fields[i] == Trim(all[i])
      decreases 24 - |fields|
    {
      assert f.value == all[|fields|..][0];
      assert all[|fields| + 1..] == all[|fields|..][1..];
      fields := fields + [Trim(f.value)];
      f, save := StrTok(save, IsComma);
    }
  }

  method AppendCellIdentity(b: Buf, fs: seq<string>, ghost base: string) returns (ghost vs: Values)
    requires b.Valid() && b.text == base && |fs| >= 8
    modifies b, b.data
    ensures b.Valid() && (b.data == old(b.data) || fresh(b.data))
    ensures vs == CellIdentity(fs) && b.text == base + JoinMembers(Scalars(vs))
  {
    hide JoinMembers, Scalars, Atoi;
    StartScalars(base);
    vs := AppendInt(b, "service", Atoi(fs[0]), false, base, []);
    vs := AppendString(b, "rat", fs[1], true, base, vs);
    vs := AppendString(b, "mcc", fs[2], true, base, vs);
    vs := AppendString(b, "mnc", fs[3], true, base, vs);
    assert vs == CellIdentity(fs)[..4];
    vs := AppendCellPlace(b, fs, base, vs);
    assert CellIdentity(fs)[..4] + CellIdentity(fs)[4..] == CellIdentity(fs);
  }

  method AppendCellPlace(b: Buf, fs: seq<string>, ghost base: string, ghost before: Values) returns (ghost vs: Values)
    requires b.Valid() && |fs| >= 8 && b.text == base + JoinMembers(Scalars(before)) && before != []
    modifies b, b.data
    ensures b.Valid() && (b.data == old(b.data) || fresh(b.data))
    ensures vs == before + CellIdentity(fs)[4..] && b.text == base + JoinMembers(Scalars(vs))
  {
    hide JoinMembers, Scalars, Atoi;
    vs := AppendString(b, "area", fs[4], true, base, before);
    vs := AppendString(b, "cell", fs[5], true, base, vs);
    vs := AppendInt(b, "earfcn", Atoi(fs[6]), true, base, vs);
    vs := AppendInt(b, "pci", Atoi(fs[7]), true, base, vs);
    assert vs == before + CellIdentity(fs)[4..];
  }

  method AppendCellQuality(b: Buf, fs: seq<string>, line: string, ghost base: string, ghost id: Values)
    requires b.Valid() && b.text == base + JoinMembers(Scalars(id)) && id != []
    modifies b, b.data
    ensures b.Valid() && (b.data == old(b.data) || fresh(b.data))
    ensures b.text == base + JoinMembers(Scalars(id + CellQuality(fs, line)))
  {
    hide JoinMembers, Scalars;
    ghost var all := CellQuality(fs, line);
    ghost var vs := AppendString(b, "band", if |fs| > 8 then fs[8] else "", true, base, id);
    vs := AppendString(b, "sinr", if |fs| > 10 then fs[10] else "", true, base, vs);
    assert vs == id + all[..2];
    vs := AppendString(b, "rsrp", if |fs| > 12 then fs[12] else "", true, base, vs);
    vs := AppendString(b, "rsrq", if |fs| > 13 then fs[13] else "", true, base, vs);
    assert vs == id + all[..4];
    vs := AppendString(b, "raw", line, true, base, vs);
    assert vs == id + all;
  }

  lemma IdentityCount(fs: seq<string>)
    requires |fs| >= 8
    ensures CellIdentity(fs) != []
  {}

  method AppendCell(b: Buf, fs: seq<string>, line: string)
    requires b.Valid() && |fs| >= 8
    modifies b, b.data
    ensures b.Valid() && (b.data == old(b.data) || fresh(b.data))
    ensures b.text == old(b.text) + Print(ObjDoc(CellMembers(fs, line)))
  {
    hide JoinMembers, CellQuality, CellIdentity, Print, ObjDoc, Scalars;
    ghost var base := b.text + "{";
    b.Append("{");
    ghost var vs := AppendCellIdentity(b, fs, base);
    IdentityCount(fs);
    AppendCellQuality(b, fs, line, base, vs);
    b.Append("}");
    CloseObject(old(b.text), CellMembers(fs, line), b.text);
  }

  method ParseGtccinfo(raw: Option<string>) returns (json: string)
    ensures json == ObjectText(ResponseMembers(GtCcInfo, PayloadText(raw)))
  {
    hide ListBase, JoinItems, PayloadOf, ObjectText, ListMembers, CellDocs, Tokens;
    var payload := NormalizedAtPayload(raw);
    var b := OpenList(1536);
    AppendCells(b, payload, ListBase());
    b.Append("]");
    json := CloseList(b, CellDocs(Lines(payload)), payload);
  }

  /** One round of the loop over the lines: the fields of a line, if it describes a cell. */
  method CellLineFields(line: string) returns (fields: Option<seq<string>>)
    ensures fields.None? ==> CellOfLine(line) == None
    ensures fields.Some? ==> |fields.value| >= 8 && CellOfLine(line) == Some(ObjDoc(CellMembers(fields.value, line)))
  {
    hide CellFields, CellMembers, ObjDoc;
    if line == "" || line == "OK" || "+GTCCINFO:" <= line || !(',' in line) {
      return None;
    }
    var fs := SplitFields(line);
    fields := if |fs| < 8 then None else Some(fs);
  }

  method AppendCells(b: Buf, payload: string, ghost base: string)
    requires b.Valid() && b.text == base + JoinItems([])
    modifies b, b.data
    ensures b.Valid() && (b.data == old(b.data) || fresh(b.data))
    ensures b.text == base + JoinItems(CellDocs(Lines(payload)))
  {
    hide JoinItems, CellDocs, CellOfLine, CellMembers, ObjDoc, Print, Tokens, Trim;
    ghost var done: seq<Doc> := [];
    ghost var all := CellDocs(Lines(payload));
    assert done + all == all;
    var first := true;
    var tok, save := StrTok(payload, IsLineBreak);
    while tok.Some?
      invariant b.Valid() && (b.data == old(b.data) || fresh(b.data))
      invariant b.text == base + JoinItems(done) && first == (done == [])
      invariant done + CellDocs(if tok.None? then [] else [tok.value] + Lines(save)) == all
      decreases tok.Some?, |save|
    {
      CellStep(tok.value, Lines(save), done);
      var line := Trim(tok.value);
      var fields := CellLineFields(line);
      if fields.Some? {
        if !first {
          b.Append(",");
        } else {
          assert b.text + "" == b.text;
        }
        first := false;
        AppendCell(b, fields.value, line);
        done := GrowItems(base, done, ObjDoc(CellMembers(fields.value, line)), b.text);
      }
      tok, save := StrTok(save, IsLineBreak);
    }
    NoCells(done);
  }

  lemma NoCells(done: seq<Doc>)
    ensures done + CellDocs([]) == done
  {}

  lemma CellStep(line: string, rest: seq<string>, done: seq<Doc>)
    ensures done + CellDocs([line] + rest) ==
            match CellOfLine(Trim(line)) case None => done + CellDocs(rest) case Some(d) => done + [d] + CellDocs(rest)
  {
    hide CellOfLine, Trim;
    assert ([line] + rest)[1..] == rest;
    match CellOfLine(Trim(line))
    case None => assert [] + CellDocs(rest) == CellDocs(rest);
    case Some(d) => assert done + ([d] + CellDocs(rest)) == done + [d] + CellDocs(rest);
  }

  // ----- +CMGL, +CMGR -----

  method ParseSmsList(raw: Option<string>) returns (json: string)
    ensures json == ObjectText(ResponseMembers(Cmgl, PayloadText(raw)))
  {
    var payload := NormalizedAtPayload(raw);
    assert payload == PayloadText(raw);
    hide *;
    var b := OpenListing();
    AppendListing(b, payload);
    json := CloseListing(b, payload, [("parser", DStr("cmgl"))] + [("items", ArrDoc(MessageDocs(Messages(Lines(payload)))))]);
    ListingIsResponse(payload);
  }

  lemma ListingIsResponse(payload: string)
    ensures ListingMembers(payload) == ResponseMembers(Cmgl, payload)
  {
    hide ListingMembers;
  }

  method OpenListing() returns (b: Buf)
    ensures fresh(b) && fresh(b.data) && b.Valid() && b.text == "{" + JoinMembers([("parser", DStr("cmgl"))])
  {
    hide JoinMembers, Quote, Print;
    b := OpenObject(1024);
    assert Scalars([]) == [];
    ghost var ms := PropString(b, "parser", "cmgl", false, "{", []);
    assert ms == [("parser", DStr("cmgl"))];
  }

  method AppendListing(b: Buf, payload: string)
    requires b.Valid() && b.text == "{" + JoinMembers([("parser", DStr("cmgl"))])
    modifies b, b.data
    ensures b.Valid() && (b.data == old(b.data) || fresh(b.data))
    ensures b.text == "{" + JoinMembers([("parser", DStr("cmgl"))] +
                                        [("items", ArrDoc(MessageDocs(Messages(Lines(payload)))))])
  {
    hide JoinMembers, JoinItems, MessageDocs, Messages, Tokens, ArrDoc, Quote, Print;
    ArrayPiece(b.text, "items", ",\"items\":[");
    b.Append(",\"items\":[");
    AppendMessages(b, payload);
    b.Append("]");
    ghost var ms :=
      GrowArray("{", [("parser", DStr("cmgl"))], "items", MessageDocs(Messages(Lines(payload))), b.text);
  }

  method CloseListing(b: Buf, payload: string, ghost before: seq<Member>) returns (json: string)
    requires b.Valid() && b.text == "{" + JoinMembers(before)
    requires before == [("parser", DStr("cmgl"))] + [("items", ArrDoc(MessageDocs(Messages(Lines(payload)))))]
    modifies b, b.data
    ensures json == ObjectText(ListingMembers(payload))
  {
    hide JoinMembers, ObjectText, MessageDocs, Messages, Tokens, ArrDoc;
    ghost var ms := PropString(b, "raw", payload, true, "{", before);
    assert ms == ListingMembers(payload);
    json := CloseObjectText(b, ms);
  }

  /** The loop that looks for the line of the message. */
  method FindReadLine(copy: string) returns (line: Option<string>)
    ensures line == ReadLine(copy)
  {
    var p := copy;
    while p != "" && !("+CMGR:" <= p)
      invariant ReadLine(p) == ReadLine(copy)
      decreases |p|
    {
      var t := p[TokenLength(p, IsLineBreak)..];
      if t == "" {
        return None;
      }
      assert IsLineBreak(t[0]);
      p := DropBreaksFrom(t);
    }
    line := if p == "" then None else Some(p);
  }

  method AppendMessageTail(b: Buf, m: Message)
    requires b.Valid()
    modifies b, b.data
    ensures b.Valid() && (b.data == old(b.data) || fresh(b.data))
    ensures b.text == old(b.text) + Print(ObjDoc(MessageTail(m)))
  {
    hide JoinMembers, Print, ObjDoc, IntDoc;
    ghost var base := b.text + "{";
    b.Append("{");
    StartList(base);
    ghost var all := MessageTail(m);
    ghost var ms := PropString(b, "status", m.status, false, base, []);
    assert ms == all[..1];
    ms := PropString(b, "sender", m.sender, true, base, ms);
    assert ms == all[..2];
    ms := PropString(b, "timestamp", m.timestamp, true, base, ms);
    assert ms == all[..3];
    ms := PropString(b, "body", m.body, true, base, ms);
    assert ms == all;
    b.Append("}");
    CloseObject(old(b.text), ms, b.text);
  }

  method ParseSmsRead(raw: Option<string>) returns (json: string)
    ensures json == ObjectText(ResponseMembers(Cmgr, PayloadText(raw)))
  {
    hide PayloadOf, ObjectText, Scan, ReadFormat, ReadBodyText, ReadMembersOf;
    var payload := NormalizedAtPayload(raw);
    var m := Message(1, "", "", "", "");
    var line := FindReadLine(payload);
    if line.Some? {
      var f := Scan(ReadFormat(), line.value[6..]);
      m := Message(1, TextOr(f, 0, ""), TextOr(f, 1, ""), TextOr(f, 3, ""), ReadBodyText(line.value));
    }
    assert m == ReadMessage(payload);
    json := ReadText(m, payload);
  }

  method ReadText(m: Message, payload: string) returns (json: string)
    ensures json == ObjectText(ReadMembersOf(m, payload))
  {
    hide JoinMembers, JoinItems, ObjectText, MessageMembers, MessageTail, ObjDoc, ArrDoc, Quote, Print;
    var b := OpenObject(1024);
    assert Scalars([]) == [];
    ghost var ms := PropString(b, "parser", "cmgr", false, "{", []);
    ArrayPiece(b.text, "items", ",\"items\":[");
    b.Append(",\"items\":[");
    AppendOnlyItem(b, m, b.text);
    b.Append("]");
    ms := GrowArray("{", ms, "items", [ObjDoc(MessageMembers(m))], b.text);
    assert ms == ReadMembersOf(m, payload)[..2];
    json := ReadTextEnd(b, m, payload, ms);
  }

  method ReadTextEnd(b: Buf, m: Message, payload: string, ghost before: seq<Member>) returns (json: string)
    requires b.Valid() && b.text == "{" + JoinMembers(before) && before == ReadMembersOf(m, payload)[..2]
    modifies b, b.data
    ensures json == ObjectText(ReadMembersOf(m, payload))
  {
    hide JoinMembers, ObjectText, MessageMembers, MessageTail, ObjDoc, ArrDoc, Quote, Print;
    NamePiece(b.text, "message", ",\"message\":");
    b.Append(",\"message\":");
    AppendMessageTail(b, m);
    ghost var ms := GrowMembers("{", before, ("message", ObjDoc(MessageTail(m))), b.text);
    ms := PropString(b, "raw", payload, true, "{", ms);
    assert ms == ReadMembersOf(m, payload);
    json := CloseObjectText(b, ms);
  }

  method AppendOnlyItem(b: Buf, m: Message, ghost base: string)
    requires b.Valid() && b.text == base
    modifies b, b.data
    ensures b.Valid() && (b.data == old(b.data) || fresh(b.data))
    ensures b.text == base + JoinItems([ObjDoc(MessageMembers(m))])
  {
    hide JoinItems, ObjDoc, MessageMembers, Print;
    AppendMessageObject(b, m);
    NoComma(base, Print(ObjDoc(MessageMembers(m))));
    ghost var ds := GrowItems(base, [], ObjDoc(MessageMembers(m)), b.text);
    assert ds == [ObjDoc(MessageMembers(m))];
  }

  lemma NoComma(base: string, text: string)
    ensures base + text == base + JoinItems([]) + Comma(false) + text
  {
    StartList(base);
    assert base + "" == base;
  }

  // ---------- parse_at_response_json ----------

  method ParseAtResponseJson(parser: Option<string>, raw: Option<string>) returns (json: string)
    ensures json == ObjectText(ResponseMembers(ParserOf(parser), PayloadText(raw)))
  {
    hide ResponseMembers, ObjectText, PayloadText;
    if parser.None? || parser.value == "raw" || parser.value == "ok_error" {
      json := JsonRawWithParser(if parser.None? then "raw" else parser.value, raw);
      return;
    }
    if parser.value == "csq" {
      json := ParseCsq(raw);
    } else if parser.value == "cops" {
      json := ParseCops(raw);
    } else if parser.value == "creg" {
      json := ParseRegistration(raw, "+CREG:");
    } else if parser.value == "cgreg" {
      json := ParseRegistration(raw, "+CGREG:");
    } else if parser.value == "cereg" {
      json := ParseRegistration(raw, "+CEREG:");
    } else if parser.value == "c5greg" {
      json := ParseRegistration(raw, "+C5GREG:");
    } else if parser.value == "gtact" {
      json := ParseGtact(raw);
    } else if parser.value == "gtcelllock" {
      json := ParseGtcelllock(raw);
    } else if parser.value == "gtccinfo" {
      json := ParseGtccinfo(raw);
    } else if parser.value == "cgeqos" {
      json := ParseCgeqos(raw);
    } else if parser.value == "cmgl" {
      json := ParseSmsList(raw);
    } else if parser.value == "cmgr" {
      json := ParseSmsRead(raw);
    } else {
      json := JsonRawWithParser(parser.value, raw);
    }
  }
}
