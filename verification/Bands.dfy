/** src/parsers.c: the bands in the response to a band query. */
module Bands {
  import opened CStrings
  import opened Buffer
  import opened Json
  import opened JsonUtil

  datatype Band = Band(rat: string, code: int, band: int, shown: string)

  const SEEN_MAX: nat := 256

  // ---------- what the response says ----------

  /** `BAND_%15[^_]_%d` after its fixed first part. */
  const BAND_FORMAT: seq<Directive> := [Until(15, '_'), Lit('_'), Int]

  /** The symbolic band name that starts at `i`, if a complete one does. */
  function SymbolicAt(text: string, i: nat): Option<Band> {
    if !Occurs(text, "BAND_", i) then None else
    var fields := Scan(BAND_FORMAT, text[i + 5..]);
    if |fields| != 2 then None else
    var rat, band := TextOr(fields, 0, ""), IntOr(fields, 1, 0);
    Some(Band(rat, (if rat == "NR" then 5000 else 100) + band, band,
              if rat == "LTE" then "B" + Dec(band) else if rat == "NR" then "n" + Dec(band) else text[i..]))
  }

  /** All symbolic band names from position `i` on, in order. */
  function SymbolicFrom(text: string, i: nat): seq<Band>
    decreases |text| - i
  {
    if i >= |text| then []
    else
      match SymbolicAt(text, i)
      case Some(b) => [b] + SymbolicFrom(text, i + 1)
      case None => SymbolicFrom(text, i + 1)
  }

  /** `text[i..i + n]` is a maximal run of digits. */
  predicate MaximalRun(text: string, i: nat, n: nat) {
    && 0 < n && i + n <= |text|
    && (forall k: nat | i <= k < i + n :: IsDigit(text[k]))
    && (i > 0 ==> !IsDigit(text[i - 1]))
    && (i + n < |text| ==> !IsDigit(text[i + n]))
  }

  /** The values of the maximal runs of digits from position `i` on, in order. */
  function RunsFrom(text: string, i: nat): seq<int>
    decreases |text| - i
  {
    if i >= |text| then []
    else if !IsDigit(text[i]) then RunsFrom(text, i + 1)
    else
      var n := DigitRun(text[i..]);
      assert IsDigit(text[i..][0]);
      [Atoi(text[i..])] + RunsFrom(text, i + n)
  }

  function NumericBand(code: int): Band {
    if code >= 5000 then Band("NR", code, code - 5000, "n" + Dec(code - 5000))
    else Band("LTE", code, code - 100, "B" + Dec(code - 100))
  }

  /** The bands of the codes that are at least 100 and not recorded; recording stops when the table is full. */
  function NumericBands(runs: seq<int>, seen: seq<int>): seq<Band> {
    if runs == [] then []
    else if runs[0] < 100 || runs[0] in seen then NumericBands(runs[1..], seen)
    else [NumericBand(runs[0])] + NumericBands(runs[1..], Record(seen, runs[0]))
  }

  function Record(seen: seq<int>, code: int): (r: seq<int>)
    ensures |seen| <= SEEN_MAX ==> |r| <= SEEN_MAX
  {
    if |seen| < SEEN_MAX then seen + [code] else seen
  }

  function RecordAll(seen: seq<int>, codes: seq<int>): seq<int>
    decreases |codes|
  {
    if codes == [] then seen else RecordAll(Record(seen, codes[0]), codes[1..])
  }

  function Codes(bands: seq<Band>): (cs: seq<int>)
    ensures |cs| == |bands|
  {
    seq(|bands|, i requires 0 <= i < |bands| => bands[i].code)
  }

  function SymbolicBands(text: string): seq<Band> {
    SymbolicFrom(text, 0)
  }

  /** The bands only found by their numeric codes. */
  function NumericPart(text: string): seq<Band> {
    NumericBands(RunsFrom(text, 0), RecordAll([], Codes(SymbolicBands(text))))
  }

  function BandsOf(text: string): seq<Band> {
    SymbolicBands(text) + NumericPart(text)
  }

  // ---------- coverage: a union of two sets of codes ----------

  /** Some maximal run of digits at or after position `i` has the value `c`. */
  ghost predicate HasRun(text: string, i: nat, c: int) {
    exists j: nat, n: nat :: i <= j && MaximalRun(text, j, n) && Atoi(text[j..]) == c
  }

  lemma {:induction false} RunValues(text: string, i: nat, c: int)
    requires i <= |text|
    requires 0 < i < |text| && IsDigit(text[i]) ==> !IsDigit(text[i - 1])
    ensures c in RunsFrom(text, i) <==> HasRun(text, i, c)
    decreases |text| - i
  {
    hide Atoi, DigitRun;
    if i < |text| {
      if !IsDigit(text[i]) {
        RunValues(text, i + 1, c);
        assert forall n: nat :: !MaximalRun(text, i, n);
      } else {
        var n := DigitRun(text[i..]);
        RunIsMaximal(text, i, n);
        RunValues(text, i + n, c);
        forall j: nat, m: nat | i < j < i + n
          ensures !MaximalRun(text, j, m)
        {
          assert IsDigit(text[j - 1]);
        }
        assert forall j: nat, m: nat :: i <= j && MaximalRun(text, j, m) ==> j == i || i + n <= j;
      }
    }
  }

  lemma RunIsMaximal(text: string, i: nat, n: nat)
    requires i < |text| && IsDigit(text[i]) && (i > 0 ==> !IsDigit(text[i - 1]))
    requires n == DigitRun(text[i..])
    ensures MaximalRun(text, i, n)
    ensures i + n < |text| ==> !IsDigit(text[i + n])
  {
    assert IsDigit(text[i..][0]);
    assert forall k: nat | i <= k < i + n :: text[k] == text[i..][k - i];
    assert i + n < |text| ==> text[i + n] == text[i..][n];
  }

  /** Whatever has been recorded: a code of at least 100 is either recorded before or emitted. */
  lemma {:induction false} NumericCoverage(runs: seq<int>, seen: seq<int>, c: int)
    ensures c in Codes(NumericBands(runs, seen)) ==> c in runs && c >= 100 && c !in seen
    ensures c in runs && c >= 100 ==> c in seen || c in Codes(NumericBands(runs, seen))
  {
    if runs != [] {
      var rest := runs[1..];
      assert runs == [runs[0]] + rest;
      if runs[0] < 100 || runs[0] in seen {
        NumericCoverage(rest, seen, c);
      } else {
        var tail := NumericBands(rest, Record(seen, runs[0]));
        NumericCoverage(rest, Record(seen, runs[0]), c);
        assert Codes(NumericBands(runs, seen)) == [runs[0]] + Codes(tail);
      }
    }
  }

  lemma {:induction false} RecordedBefore(seen: seq<int>, codes: seq<int>, c: int)
    ensures c in RecordAll(seen, codes) ==> c in seen || c in codes
    ensures |seen| + |codes| <= SEEN_MAX ==> RecordAll(seen, codes) == seen + codes
    decreases |codes|
  {
    if codes == [] {
      assert seen + codes == seen;
    } else {
      RecordedBefore(Record(seen, codes[0]), codes[1..], c);
      assert codes == [codes[0]] + codes[1..];
      assert (seen + [codes[0]]) + codes[1..] == seen + codes;
    }
  }

  /** A complete band name at or after position `i` has the code `c`. */
  ghost predicate HasName(text: string, i: nat, c: int) {
    exists j: nat :: i <= j < |text| && SymbolicAt(text, j).Some? && SymbolicAt(text, j).value.code == c
  }

  lemma {:induction false} NamedCodes(text: string, i: nat, c: int)
    ensures c in Codes(SymbolicFrom(text, i)) <==> HasName(text, i, c)
    decreases |text| - i
  {
    hide SymbolicAt;
    if i < |text| {
      NamedCodes(text, i + 1, c);
      var more := SymbolicFrom(text, i + 1);
      match SymbolicAt(text, i)
      case Some(b) => assert Codes([b] + more) == [b.code] + Codes(more);
      case None =>
    }
  }

  /** The codes emitted are exactly those of the band names in the text and the values of at least 100 of the maximal
      digit runs, however many there are. */
  lemma BandCodesAreUnion(text: string, c: int)
    ensures c in Codes(BandsOf(text)) <==> HasName(text, 0, c) || (c >= 100 && HasRun(text, 0, c))
  {
    hide HasRun, HasName, SymbolicFrom, RunsFrom, NumericBands, RecordAll;
    var named, runs := SymbolicBands(text), RunsFrom(text, 0);
    var seen := RecordAll([], Codes(named));
    NamedCodes(text, 0, c);
    RunValues(text, 0, c);
    NumericCoverage(runs, seen, c);
    RecordedBefore([], Codes(named), c);
    CodesConcat(named, NumericBands(runs, seen));
  }

  lemma CodesConcat(a: seq<Band>, b: seq<Band>)
    ensures Codes(a + b) == Codes(a) + Codes(b)
  {}

  /** A run without overflow counts with its decimal value. */
  lemma RunValue(text: string, j: nat, n: nat)
    requires MaximalRun(text, j, n)
    ensures var digits := text[j..j + n];
      (forall c | c in digits :: IsDigit(c)) && (DigitsValue(digits) <= INT_MAX ==> Atoi(text[j..]) == DigitsValue(digits))
  {
    var t := text[j..];
    assert forall k: nat | k < n :: t[k] == text[j + k];
    SpanUnique(t, IsSpace, 0);
    assert t[0..] == t;
    assert n < |t| ==> t[n] == text[j + n];
    SpanUnique(t, IsDigit, n);
    assert t[..n] == text[j..j + n];
    assert IsDigit(t[0]);
  }

  // ---------- codes and bands ----------

  predicate CodeMatchesBand(b: Band) {
    b.code == (if b.rat == "NR" then 5000 else 100) + b.band
  }

  lemma {:induction false} SymbolicConsistent(text: string, i: nat)
    ensures forall b | b in SymbolicFrom(text, i) :: CodeMatchesBand(b)
    decreases |text| - i
  {
    if i < |text| {
      SymbolicConsistent(text, i + 1);
    }
  }

  lemma {:induction false} NumericConsistent(runs: seq<int>, seen: seq<int>)
    ensures forall b | b in NumericBands(runs, seen) :: CodeMatchesBand(b)
  {
    if runs != [] {
      NumericConsistent(runs[1..], seen);
      NumericConsistent(runs[1..], Record(seen, runs[0]));
    }
  }

  /** Every item's code is its band plus the offset of its radio technology. */
  lemma BandsConsistent(text: string)
    ensures forall b | b in BandsOf(text) :: CodeMatchesBand(b)
  {
    SymbolicConsistent(text, 0);
    NumericConsistent(RunsFrom(text, 0), RecordAll([], Codes(SymbolicBands(text))));
  }

  /** What a numeric code stands for: from 5000 on a band of 5G, below that one of LTE. */
  predicate IsNumericBand(b: Band) {
    && b.code >= 100
    && (b.code >= 5000 ==> b.rat == "NR" && b.band == b.code - 5000 && b.shown == "n" + Dec(b.code - 5000))
    && (b.code < 5000 ==> b.rat == "LTE" && b.band == b.code - 100 && b.shown == "B" + Dec(b.code - 100))
  }

  lemma {:induction false} NumericBandsAre(runs: seq<int>, seen: seq<int>)
    ensures forall b | b in NumericBands(runs, seen) :: IsNumericBand(b)
  {
    hide Dec;
    if runs != [] {
      NumericBandsAre(runs[1..], seen);
      NumericBandsAre(runs[1..], Record(seen, runs[0]));
    }
  }

  lemma NumericCodeMeans(text: string)
    ensures forall b | b in NumericPart(text) :: IsNumericBand(b)
  {
    NumericBandsAre(RunsFrom(text, 0), RecordAll([], Codes(SymbolicBands(text))));
  }

  /** A printed band name stands for that band; LTE and 5G have their usual labels. */
  lemma NameMeans(text: string, i: nat, rat: string, band: int, rest: string)
    requires i <= |text| && text[i..] == "BAND_" + (rat + ("_" + (Dec(band) + rest)))
    requires rat != "" && |rat| <= 15 && '_' !in rat && IsInt(band) && (rest == "" || !IsDigit(rest[0]))
    ensures SymbolicAt(text, i) ==
            Some(if rat == "NR" then Band("NR", 5000 + band, band, "n" + Dec(band))
                 else Band(rat, 100 + band, band, if rat == "LTE" then "B" + Dec(band) else text[i..]))
  {
    hide Scan, Dec, SymbolicAt, IsDigit;
    NameScanned(rat, band, rest);
    var tail := rat + ("_" + (Dec(band) + rest));
    assert |"BAND_"| == 5 && text[i..][5..] == tail;
    NameTaken(text, i, rat, band);
  }

  lemma NameTaken(text: string, i: nat, rat: string, band: int)
    requires Occurs(text, "BAND_", i) && i + 5 <= |text|
    requires Scan(BAND_FORMAT, text[i + 5..]) == [TextField(rat), IntField(band)]
    ensures SymbolicAt(text, i) ==
            Some(if rat == "NR" then Band("NR", 5000 + band, band, "n" + Dec(band))
                 else Band(rat, 100 + band, band, if rat == "LTE" then "B" + Dec(band) else text[i..]))
  {
    hide Scan, Dec, Occurs;
    assert |"LTE"| != |"NR"|;
  }

  lemma NameScanned(rat: string, band: int, rest: string)
    requires rat != "" && |rat| <= 15 && '_' !in rat && IsInt(band) && (rest == "" || !IsDigit(rest[0]))
    ensures Scan(BAND_FORMAT, rat + ("_" + (Dec(band) + rest))) == [TextField(rat), IntField(band)]
  {
    var tail := "_" + (Dec(band) + rest);
    var s := rat + tail;
    UntilScanned(rat, tail);
    NumberScanned(band, rest);
    hide Scan;
    assert BAND_FORMAT[1..] == [Lit('_'), Int];
  }

  lemma UntilScanned(rat: string, tail: string)
    requires rat != "" && |rat| <= 15 && '_' !in rat && tail != "" && tail[0] == '_'
    ensures Scan(BAND_FORMAT, rat + tail) == [TextField(rat)] + Scan([Lit('_'), Int], tail)
  {
    var s := rat + tail;
    assert forall i: nat | i < |rat| :: rat[i] in rat;
    SpanUnique(Take(s, 15), c => c != '_', |rat|);
    assert s[..|rat|] == rat && s[|rat|..] == tail;
    assert BAND_FORMAT[1..] == [Lit('_'), Int];
  }

  lemma NumberScanned(band: int, rest: string)
    requires IsInt(band) && (rest == "" || !IsDigit(rest[0]))
    ensures Scan([Lit('_'), Int], "_" + (Dec(band) + rest)) == [IntField(band)]
  {
    IntAtPrinted(band, rest);
    var t := Dec(band) + rest;
    SpanUnique(t, IsSpace, 0);
    assert ("_" + t)[1..] == t && t[0..] == t && [Lit('_'), Int][1..] == [Int];
    assert Scan([Int], t) == [IntField(band)] + Scan([], t[|Dec(band)|..]);
  }

  // ---------- the order of the bands ----------

  /** How many complete band names begin before position `i`. */
  function NamesBefore(text: string, i: nat): nat {
    if i == 0 then 0 else NamesBefore(text, i - 1) + if SymbolicAt(text, i - 1).Some? then 1 else 0
  }

  /** All of `cs` occur in `all`, in this order. */
  predicate InOrder(cs: seq<int>, all: seq<int>) {
    if cs == [] then true
    else if all == [] then false
    else if cs[0] == all[0] then InOrder(cs[1..], all[1..])
    else InOrder(cs, all[1..])
  }

  lemma {:induction false} NamesFrom(text: string, i: nat)
    requires i <= |text|
    ensures NamesBefore(text, i) <= |SymbolicBands(text)|
    ensures SymbolicBands(text)[NamesBefore(text, i)..] == SymbolicFrom(text, i)
  {
    hide SymbolicAt;
    if i > 0 {
      NamesFrom(text, i - 1);
      if SymbolicAt(text, i - 1).Some? {
        var all, k := SymbolicBands(text), NamesBefore(text, i - 1);
        assert all[k..] == [SymbolicAt(text, i - 1).value] + SymbolicFrom(text, i);
        assert k < |all| && all[k + 1..] == all[k..][1..];
      }
    }
  }

  lemma {:induction false} NumericOrder(runs: seq<int>, seen: seq<int>)
    ensures InOrder(Codes(NumericBands(runs, seen)), runs)
    ensures runs != [] ==> InOrder(Codes(NumericBands(runs[1..], seen)), runs[1..])
    decreases |runs|
  {
    if runs != [] {
      NumericOrder(runs[1..], seen);
      var next := Record(seen, runs[0]);
      NumericOrder(runs[1..], next);
      var cs := Codes(NumericBands(runs, seen));
      if runs[0] < 100 || runs[0] in seen {
        NotFirst(runs, seen);
      } else {
        assert cs[1..] == Codes(NumericBands(runs[1..], next));
      }
    }
  }

  /** A code that is passed over is not the next one emitted. */
  lemma NotFirst(runs: seq<int>, seen: seq<int>)
    requires runs != [] && (runs[0] < 100 || runs[0] in seen)
    ensures Codes(NumericBands(runs, seen)) == [] || Codes(NumericBands(runs, seen))[0] != runs[0]
  {
    NumericCoverage(runs, seen, runs[0]);
  }

  /** The bands of the names come first, in the order of the names; those of the numeric codes follow, in the order
      of the runs of digits. */
  lemma BandsInOrder(text: string, i: nat)
    requires i < |text| && SymbolicAt(text, i).Some?
    ensures var k, n := NamesBefore(text, i), NamesBefore(text, |text|);
      && k < n <= |BandsOf(text)| && BandsOf(text)[k] == SymbolicAt(text, i).value
      && BandsOf(text)[n..] == NumericPart(text) && InOrder(Codes(NumericPart(text)), RunsFrom(text, 0))
  {
    hide SymbolicAt, RunsFrom, NumericBands, RecordAll;
    NamesFrom(text, i);
    NamesFrom(text, i + 1);
    NamesFrom(text, |text|);
    NumericOrder(RunsFrom(text, 0), RecordAll([], Codes(SymbolicBands(text))));
  }

  // ---------- no code twice ----------

  predicate Distinct(codes: seq<int>) {
    forall i: nat, j: nat | i < j < |codes| :: codes[i] != codes[j]
  }

  lemma {:induction false} NumericDistinct(runs: seq<int>, seen: seq<int>)
    requires |seen| + |NumericBands(runs, seen)| <= SEEN_MAX
    ensures Distinct(Codes(NumericBands(runs, seen)))
    ensures forall c | c in Codes(NumericBands(runs, seen)) :: c !in seen
  {
    if runs != [] {
      if runs[0] < 100 || runs[0] in seen {
        NumericDistinct(runs[1..], seen);
      } else {
        var tail := NumericBands(runs[1..], Record(seen, runs[0]));
        NumericDistinct(runs[1..], Record(seen, runs[0]));
        assert Codes(NumericBands(runs, seen)) == [runs[0]] + Codes(tail);
        assert runs[0] in Record(seen, runs[0]);
        assert forall j: nat | j < |tail| :: Codes(tail)[j] in Codes(tail);
      }
    }
  }

  /** As long as the table holds every code, no numeric code is emitted twice, and none that is also symbolic. */
  lemma NumericPartDistinct(text: string)
    requires |BandsOf(text)| <= SEEN_MAX
    ensures Distinct(Codes(NumericPart(text)))
    ensures forall c | c in Codes(NumericPart(text)) :: c !in Codes(SymbolicBands(text))
  {
    var symbolic := Codes(SymbolicBands(text));
    RecordedBefore([], symbolic, 0);
    assert [] + symbolic == symbolic;
    NumericDistinct(RunsFrom(text, 0), symbolic);
  }

  // ---------- append_fibocom_band_items ----------

  function BandMembers(b: Band): seq<Member> {
    [("rat", DStr(b.rat)), ("code", IntDoc(b.code)), ("band", IntDoc(b.band)), ("label", DStr(b.shown))]
  }

  function BandDocs(bands: seq<Band>): (ds: seq<Doc>)
    ensures |ds| == |bands|
  {
    seq(|bands|, i requires 0 <= i < |bands| => ObjDoc(BandMembers(bands[i])))
  }

  method AppendBandObject(b: Buf, item: Band)
    requires b.Valid()
    modifies b, b.data
    ensures b.Valid() && (b.data == old(b.data) || fresh(b.data))
    ensures b.text == old(b.text) + Print(ObjDoc(BandMembers(item)))
  {
    hide JoinMembers, Print, ObjDoc;
    ghost var base := b.text + "{";
    b.Append("{");
    StartList(base);
    ghost var members := BandMembers(item);
    ghost var ms := PropString(b, "rat", item.rat, false, base, []);
    assert ms == members[..1];
    ms := PropInt(b, "code", item.code, true, base, ms);
    assert ms == members[..2];
    ms := PropInt(b, "band", item.band, true, base, ms);
    assert ms == members[..3];
    AppendShown(b, item.shown, base, ms);
    b.Append("}");
    assert members[..3] + [("label", DStr(item.shown))] == members;
    CloseObject(old(b.text), members, b.text);
  }

  method AppendShown(b: Buf, shown: string, ghost base: string, ghost ms: seq<Member>)
    requires b.Valid() && b.text == base + JoinMembers(ms) && ms != []
    modifies b, b.data
    ensures b.Valid() && (b.data == old(b.data) || fresh(b.data))
    ensures b.text == base + JoinMembers(ms + [("label", DStr(shown))])
  {
    NamePiece(b.text, "label", ",\"label\":");
    b.Append(",\"label\":");
    JsonEscape(b, shown);
    ghost var grown := GrowMembers(base, ms, ("label", DStr(shown)), b.text);
  }

  /** One item, its comma first if one is needed. */
  method AppendBand(b: Buf, item: Band, first: bool, ghost base: string, ghost done: seq<Band>)
    requires b.Valid() && b.text == base + JoinItems(BandDocs(done)) && first == (done == [])
    modifies b, b.data
    ensures b.Valid() && (b.data == old(b.data) || fresh(b.data))
    ensures b.text == base + JoinItems(BandDocs(done + [item]))
  {
    if !first {
      b.Append(",");
    } else {
      assert b.text + "" == b.text;
    }
    AppendBandObject(b, item);
    ghost var grown := GrowItems(base, BandDocs(done), ObjDoc(BandMembers(item)), b.text);
    assert BandDocs(done + [item]) == grown;
  }

  lemma SymbolicSkip(text: string, i: nat, j: nat)
    requires i <= j <= |text|
    requires forall k: nat | i <= k < j :: !Occurs(text, "BAND_", k)
    ensures SymbolicFrom(text, i) == SymbolicFrom(text, j)
    decreases j - i
  {
    if i < j {
      SymbolicSkip(text, i + 1, j);
    }
  }

  lemma SymbolicRest(text: string, i: nat)
    requires Occurs(text, "BAND_", i)
    ensures i + 5 <= |text|
    ensures SymbolicFrom(text, i) ==
            (match SymbolicAt(text, i) case Some(b) => [b] case None => []) + SymbolicFrom(text, i + 5)
  {
    var t := text[i..];
    assert t[0] == 'B' && t[1] == 'A' && t[2] == 'N' && t[3] == 'D' && t[4] == '_';
    forall k: nat | i < k < i + 5
      ensures !Occurs(text, "BAND_", k)
    {
      assert text[k..][0] == t[k - i];
    }
    SymbolicSkip(text, i + 1, i + 5);
  }

  /** First phase: the symbolic names. */
  method AppendSymbolic(b: Buf, raw: string, seen: array<int>, ghost base: string)
    returns (first: bool, seenCount: nat)
    requires b.Valid() && b.text == base && seen.Length == SEEN_MAX && seen as object != b.data
    modifies b, b.data, seen
    ensures b.Valid() && (b.data == old(b.data) || fresh(b.data))
    ensures b.text == base + JoinItems(BandDocs(SymbolicBands(raw)))
    ensures first == (SymbolicBands(raw) == [])
    ensures seenCount <= SEEN_MAX && seen[..seenCount] == RecordAll([], Codes(SymbolicBands(raw)))
  {
    hide SymbolicAt, SymbolicFrom, RecordAll, Record, JoinItems, BandDocs, FindFrom;
    first, seenCount := true, 0;
    ghost var done: seq<Band> := [];
    StartSymbolic(raw, base);
    var p := 0;
    var m := FindFrom(raw, "BAND_", p);
    while m.Some?
      invariant p <= |raw| && m == FindFrom(raw, "BAND_", p)
      invariant b.Valid() && (b.data == old(b.data) || fresh(b.data))
      invariant b.text == base + JoinItems(BandDocs(done)) && first == (done == [])
      invariant done + SymbolicFrom(raw, p) == SymbolicBands(raw)
      invariant seenCount <= SEEN_MAX && seen[..seenCount] == RecordAll([], Codes(done))
      decreases |raw| - p
    {
      SymbolicProgress(raw, p, m.value, done);
      p := m.value;
      var item := SymbolicAt(raw, p);
      if item.Some? {
        seenCount := RecordCode(seen, seenCount, item.value.code);
        AppendBand(b, item.value, first, base, done);
        first := false;
        done := done + [item.value];
      }
      p := p + 5;
      m := FindFrom(raw, "BAND_", p);
    }
    SymbolicDone(raw, p, done);
  }

  lemma StartSymbolic(raw: string, base: string)
    ensures base == base + JoinItems(BandDocs([]))
    ensures RecordAll([], Codes([])) == []
    ensures [] + SymbolicFrom(raw, 0) == SymbolicBands(raw)
  {
    assert BandDocs([]) == [] && Codes([]) == [];
    StartList(base);
  }

  lemma SymbolicDone(raw: string, p: nat, done: seq<Band>)
    requires p <= |raw| && FindFrom(raw, "BAND_", p) == None
    ensures done + SymbolicFrom(raw, p) == done
  {
    SymbolicSkip(raw, p, |raw|);
  }

  lemma SymbolicProgress(raw: string, p: nat, i: nat, done: seq<Band>)
    requires p <= |raw| && FindFrom(raw, "BAND_", p) == Some(i)
    ensures i + 5 <= |raw|
    ensures match SymbolicAt(raw, i)
      case Some(item) =>
        && done + SymbolicFrom(raw, p) == done + [item] + SymbolicFrom(raw, i + 5)
        && RecordAll([], Codes(done + [item])) == Record(RecordAll([], Codes(done)), item.code)
      case None =>
        SymbolicFrom(raw, p) == SymbolicFrom(raw, i + 5)
  {
    hide SymbolicAt, SymbolicFrom, RecordAll;
    SymbolicRest(raw, i);
    SymbolicSkip(raw, p, i);
    match SymbolicAt(raw, i)
    case Some(item) =>
      RecordSnoc([], Codes(done), item.code);
      assert Codes(done + [item]) == Codes(done) + [item.code];
      assert done + ([item] + SymbolicFrom(raw, i + 5)) == done + [item] + SymbolicFrom(raw, i + 5);
    case None =>
  }

  /** Adds a code to the table unless it is full. */
  method RecordCode(seen: array<int>, count: nat, code: int) returns (grown: nat)
    requires count <= SEEN_MAX == seen.Length
    modifies seen
    ensures grown <= SEEN_MAX && seen[..grown] == Record(old(seen[..count]), code)
  {
    grown := count;
    if count < SEEN_MAX {
      seen[count] := code;
      grown := count + 1;
      assert seen[..grown] == old(seen[..count]) + [code];
    }
  }

  method IsRecorded(seen: array<int>, count: nat, code: int) returns (found: bool)
    requires count <= seen.Length
    ensures found <==> code in seen[..count]
  {
    for i := 0 to count
      invariant code !in seen[..i]
    {
      if seen[i] == code {
        return true;
      }
    }
    found := false;
  }

  /** Second phase: the numeric codes that are not recorded yet. */
  method AppendNumeric(b: Buf, raw: string, wasFirst: bool, seen: array<int>, count: nat,
                       ghost base: string, ghost symbolic: seq<Band>)
    requires b.Valid() && count <= SEEN_MAX == seen.Length && seen as object != b.data
    requires b.text == base + JoinItems(BandDocs(symbolic)) && wasFirst == (symbolic == [])
    modifies b, b.data, seen
    ensures b.Valid() && (b.data == old(b.data) || fresh(b.data))
    ensures b.text == base + JoinItems(BandDocs(symbolic + NumericBands(RunsFrom(raw, 0), old(seen[..count]))))
  {
    hide RunsFrom, NumericBands, Atoi, DigitRun, JoinItems, BandDocs, Record;
    ghost var all := symbolic + NumericBands(RunsFrom(raw, 0), seen[..count]);
    ghost var done := symbolic;
    var first, seenCount, p := wasFirst, count, 0;
    while p < |raw|
      invariant p <= |raw|
      invariant b.Valid() && (b.data == old(b.data) || fresh(b.data))
      invariant b.text == base + JoinItems(BandDocs(done)) && first == (done == [])
      invariant 0 <= seenCount <= SEEN_MAX
      invariant done + NumericBands(RunsFrom(raw, p), seen[..seenCount]) == all
      decreases |raw| - p
    {
      if !IsDigit(raw[p]) {
        NoRun(raw, p);
        p := p + 1;
        continue;
      }
      var code := Atoi(raw[p..]);
      NumericProgress(raw, p, done, seen[..seenCount]);
      p := p + DigitRun(raw[p..]);
      if code < 100 {
        continue;
      }
      var found := IsRecorded(seen, seenCount, code);
      if found {
        continue;
      }
      seenCount := RecordCode(seen, seenCount, code);
      AppendBand(b, NumericBand(code), first, base, done);
      first := false;
      done := done + [NumericBand(code)];
    }
    NoRun(raw, p);
    NoBands(done, seen[..seenCount]);
  }

  lemma NoBands(done: seq<Band>, seen: seq<int>)
    ensures done + NumericBands([], seen) == done
  {}

  lemma NoRun(raw: string, p: nat)
    requires p < |raw| ==> !IsDigit(raw[p])
    ensures RunsFrom(raw, p) == if p < |raw| then RunsFrom(raw, p + 1) else []
  {}

  lemma NumericProgress(raw: string, p: nat, done: seq<Band>, seen: seq<int>)
    requires p < |raw| && IsDigit(raw[p])
    ensures var code, q := Atoi(raw[p..]), p + DigitRun(raw[p..]);
      && p < q <= |raw|
      && done + NumericBands(RunsFrom(raw, p), seen) ==
         if code < 100 || code in seen then done + NumericBands(RunsFrom(raw, q), seen)
         else done + [NumericBand(code)] + NumericBands(RunsFrom(raw, q), Record(seen, code))
  {
    assert IsDigit(raw[p..][0]);
    var code, q := Atoi(raw[p..]), p + DigitRun(raw[p..]);
    assert RunsFrom(raw, p)[1..] == RunsFrom(raw, q) && RunsFrom(raw, p)[0] == code;
    hide Atoi, DigitRun, RunsFrom, NumericBand, Record;
    if code >= 100 && code !in seen {
      var tail := NumericBands(RunsFrom(raw, q), Record(seen, code));
      assert done + ([NumericBand(code)] + tail) == done + [NumericBand(code)] + tail;
    }
  }

  /** `append_fibocom_band_items`: the array of all bands. */
  method AppendFibocomBandItems(b: Buf, raw: string)
    requires b.Valid()
    modifies b, b.data
    ensures b.Valid() && (b.data == old(b.data) || fresh(b.data))
    ensures b.text == old(b.text) + Print(ArrDoc(BandDocs(BandsOf(raw))))
  {
    ghost var base := b.text + "[";
    b.Append("[");
    var seen := new int[SEEN_MAX];
    var first, seenCount := AppendSymbolic(b, raw, seen, base);
    AppendNumeric(b, raw, first, seen, seenCount, base, SymbolicBands(raw));
    b.Append("]");
    CloseArray(old(b.text), BandDocs(BandsOf(raw)), b.text);
  }

  lemma {:induction false} RecordSnoc(seen: seq<int>, codes: seq<int>, c: int)
    ensures RecordAll(seen, codes + [c]) == Record(RecordAll(seen, codes), c)
    decreases |codes|
  {
    if codes == [] {
      assert codes + [c] == [c] && [c][1..] == [];
    } else {
      assert (codes + [c])[1..] == codes[1..] + [c];
      RecordSnoc(Record(seen, codes[0]), codes[1..], c);
    }
  }
}
