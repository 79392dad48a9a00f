/** Listings as a modem sends them, and what the parser gets back from them. */
module SmsListing {
  import opened CStrings
  import opened JsonUtil
  import opened Sms

  /** A message as the modem has it. */
  datatype Stored = Stored(index: int, status: string, sender: string, alpha: string, timestamp: string,
                           lines: seq<string>)

  predicate IsField(f: string, width: nat) {
    |f| <= width && forall i: nat | i < |f| :: f[i] != '"' && !IsLineBreak(f[i])
  }

  predicate IsBodyLine(l: string) {
    l != "" && !EndsBody(l) && forall i: nat | i < |l| :: !IsLineBreak(l[i])
  }

  /** What a text-mode listing can carry: fields within their widths, body lines that do not end the body. */
  predicate Sendable(m: Stored) {
    && IsInt(m.index)
    && IsField(m.status, 63) && IsField(m.sender, 95) && IsField(m.alpha, 63) && IsField(m.timestamp, 63)
    && forall i: nat | i < |m.lines| :: IsBodyLine(m.lines[i])
  }

  /** A quoted field, followed by `rest`. */
  function QuotedTo(f: string, rest: string): string {
    "\"" + (f + ("\"" + rest))
  }

  function HeaderRest(m: Stored): string {
    " " + (Dec(m.index) + ("," + QuotedTo(m.status, "," + QuotedTo(m.sender, "," + QuotedTo(m.alpha, "," +
      QuotedTo(m.timestamp, ""))))))
  }

  function HeaderLine(m: Stored): string {
    HEADER + HeaderRest(m)
  }

  function BodyTo(lines: seq<string>, rest: string): string {
    if lines == [] then rest else lines[0] + ("\r\n" + BodyTo(lines[1..], rest))
  }

  /** `+CMGL: <index>,"<stat>","<oa>","<alpha>","<scts>"<CR><LF><data><CR><LF> .. OK`. */
  function Listing(ms: seq<Stored>): string {
    if ms == [] then "\r\nOK\r\n" else HeaderLine(ms[0]) + ("\r\n" + BodyTo(ms[0].lines, Listing(ms[1..])))
  }

  // ---------- the lines of a listing ----------

  function ListingLines(ms: seq<Stored>): seq<string> {
    if ms == [] then ["OK"] else [HeaderLine(ms[0])] + (ms[0].lines + ListingLines(ms[1..]))
  }

  ghost predicate AllBreaks(s: string) {
    forall i: nat | i < |s| :: IsLineBreak(s[i])
  }

  ghost predicate NoBreak(s: string) {
    forall i: nat | i < |s| :: !IsLineBreak(s[i])
  }

  lemma NoBreakConcat(s: string, t: string)
    requires NoBreak(s) && NoBreak(t)
    ensures NoBreak(s + t)
  {}

  lemma QuotedNoBreak(f: string, width: nat, rest: string)
    requires IsField(f, width) && NoBreak(rest)
    ensures NoBreak(QuotedTo(f, rest))
  {
    NoBreakConcat("\"", rest);
    NoBreakConcat(f, "\"" + rest);
    NoBreakConcat("\"", f + ("\"" + rest));
  }

  lemma HeaderNoBreak(m: Stored)
    requires Sendable(m)
    ensures NoBreak(HeaderLine(m)) && HeaderLine(m) != ""
  {
    var t := QuotedTo(m.timestamp, "");
    QuotedNoBreak(m.timestamp, 63, "");
    NoBreakConcat(",", t);
    var a := QuotedTo(m.alpha, "," + t);
    QuotedNoBreak(m.alpha, 63, "," + t);
    NoBreakConcat(",", a);
    var s := QuotedTo(m.sender, "," + a);
    QuotedNoBreak(m.sender, 95, "," + a);
    NoBreakConcat(",", s);
    var st := QuotedTo(m.status, "," + s);
    QuotedNoBreak(m.status, 63, "," + s);
    NoBreakConcat(",", st);
    assert forall i: nat | i < |Dec(m.index)| :: Dec(m.index)[i] in Dec(m.index);
    NoBreakConcat(Dec(m.index), "," + st);
    NoBreakConcat(" ", Dec(m.index) + ("," + st));
    NoBreakConcat(HEADER, HeaderRest(m));
  }

  lemma {:induction false} LinesOfBody(before: string, lines: seq<string>, rest: string)
    requires AllBreaks(before) && before != ""
    requires forall i: nat | i < |lines| :: IsBodyLine(lines[i])
    ensures exists b: string :: AllBreaks(b) && b != "" && Lines(before + BodyTo(lines, rest)) == lines + Lines(b + rest)
    decreases |lines|
  {
    hide Tokens;
    if lines == [] {
      assert [] + Lines(before + rest) == Lines(before + rest);
    } else {
      var l, tail := lines[0], BodyTo(lines[1..], rest);
      assert IsBodyLine(l);
      TokensStep(before, l, "\r\n" + tail, IsLineBreak);
      LinesOfBody("\r\n", lines[1..], rest);
      var b: string :| AllBreaks(b) && b != "" && Lines("\r\n" + tail) == lines[1..] + Lines(b + rest);
      assert [l] + (lines[1..] + Lines(b + rest)) == lines + Lines(b + rest);
    }
  }

  lemma {:induction false} LinesOfListing(before: string, ms: seq<Stored>)
    requires AllBreaks(before)
    requires forall i: nat | i < |ms| :: Sendable(ms[i])
    ensures Lines(before + Listing(ms)) == ListingLines(ms)
    decreases |ms|
  {
    hide Tokens;
    if ms == [] {
      assert before + "\r\nOK\r\n" == (before + "\r\n") + ("OK" + "\r\n");
      TokensStep(before + "\r\n", "OK", "\r\n", IsLineBreak);
      TokensEnd("\r\n", IsLineBreak);
    } else {
      var m, rest := ms[0], Listing(ms[1..]);
      HeaderNoBreak(m);
      TokensStep(before, HeaderLine(m), "\r\n" + BodyTo(m.lines, rest), IsLineBreak);
      LinesOfBody("\r\n", m.lines, rest);
      var b: string :| AllBreaks(b) && b != "" && Lines("\r\n" + BodyTo(m.lines, rest)) == m.lines + Lines(b + rest);
      LinesOfListing(b, ms[1..]);
    }
  }

  // ---------- the fields of a header ----------

  lemma ScanLit(c: char, format: seq<Directive>, s: string)
    ensures Scan([Lit(c)] + format, [c] + s) == Scan(format, s)
  {
    assert ([Lit(c)] + format)[1..] == format;
    assert ([c] + s)[1..] == s;
  }

  lemma ScanUntil(width: nat, f: string, format: seq<Directive>, rest: string)
    requires IsField(f, width)
    ensures Scan([Until(width, '"')] + format, f + ("\"" + rest)) ==
            if f == "" then [] else [TextField(f)] + Scan(format, "\"" + rest)
  {
    var s := f + ("\"" + rest);
    assert ([Until(width, '"')] + format)[1..] == format;
    SpanUnique(Take(s, width), c => c != '"', |f|);
    assert s[..|f|] == f && s[|f|..] == "\"" + rest;
  }

  /** A quoted field is converted and left behind, unless it is empty: then scanning stops. */
  lemma ScanQuoted(width: nat, f: string, format: seq<Directive>, rest: string)
    requires IsField(f, width)
    ensures Scan(QuotedField(width) + format, QuotedTo(f, rest)) ==
            if f == "" then [] else [TextField(f)] + Scan(format, rest)
  {
    hide Scan;
    assert QuotedField(width) + format == [Lit('"')] + ([Until(width, '"')] + ([Lit('"')] + format));
    ScanLit('"', [Until(width, '"')] + ([Lit('"')] + format), f + ("\"" + rest));
    ScanUntil(width, f, [Lit('"')] + format, rest);
    ScanLit('"', format, rest);
  }

  lemma ScanIndex(n: int, format: seq<Directive>, rest: string)
    requires IsInt(n) && (rest == "" || !IsDigit(rest[0]))
    ensures Scan([White, Int] + format, " " + (Dec(n) + rest)) == [IntField(n)] + Scan(format, rest)
  {
    hide Scan, IntLength, IntValue;
    IntAtPrinted(n, rest);
    ScanWhite([Int] + format, Dec(n) + rest);
    assert [White, Int] + format == [White] + ([Int] + format);
    ScanInt(n, format, rest);
  }

  lemma ScanWhite(format: seq<Directive>, s: string)
    requires s != "" && !IsSpace(s[0])
    ensures Scan([White] + format, " " + s) == Scan(format, s)
  {
    SpanUnique(" " + s, IsSpace, 1);
    assert (" " + s)[1..] == s && ([White] + format)[1..] == format;
  }

  lemma ScanInt(n: int, format: seq<Directive>, rest: string)
    requires IsInt(n) && (rest == "" || !IsDigit(rest[0]))
    ensures Scan([Int] + format, Dec(n) + rest) == [IntField(n)] + Scan(format, rest)
  {
    IntAtPrinted(n, rest);
    var s := Dec(n) + rest;
    SpanUnique(s, IsSpace, 0);
    assert s[0..] == s && s[|Dec(n)|..] == rest && ([Int] + format)[1..] == format;
  }

  /** The fields up to the first empty one. */
  function HeaderFields(m: Stored): seq<Field> {
    [IntField(m.index)] + (if m.status == "" then [] else [TextField(m.status)] + SenderFields(m))
  }

  function SenderFields(m: Stored): seq<Field> {
    if m.sender == "" then [] else [TextField(m.sender)] + AlphaFields(m)
  }

  function AlphaFields(m: Stored): seq<Field> {
    if m.alpha == "" then [] else [TextField(m.alpha)] + TimestampField(m)
  }

  function TimestampField(m: Stored): seq<Field> {
    if m.timestamp == "" then [] else [TextField(m.timestamp)]
  }

  lemma ScanHeader(m: Stored)
    requires Sendable(m)
    ensures Scan(HeaderFormat(), HeaderRest(m)) == HeaderFields(m)
  {
    hide Scan, QuotedTo, QuotedField;
    var t := QuotedTo(m.timestamp, "");
    var a := QuotedTo(m.alpha, "," + t);
    var s := QuotedTo(m.sender, "," + a);
    var ft := QuotedField(63);
    var fa := QuotedField(63) + ([Lit(',')] + ft);
    var fs := QuotedField(95) + ([Lit(',')] + fa);
    var fst := QuotedField(63) + ([Lit(',')] + fs);
    assert HeaderFormat() == [White, Int] + ([Lit(',')] + fst) by {
      assert [White, Int, Lit(',')] + fst == [White, Int] + ([Lit(',')] + fst);
    }
    ScanIndex(m.index, [Lit(',')] + fst, "," + QuotedTo(m.status, "," + s));
    ScanLit(',', fst, QuotedTo(m.status, "," + s));
    ScanQuoted(63, m.status, [Lit(',')] + fs, "," + s);
    ScanLit(',', fs, s);
    ScanQuoted(95, m.sender, [Lit(',')] + fa, "," + a);
    ScanLit(',', fa, a);
    ScanQuoted(63, m.alpha, [Lit(',')] + ft, "," + t);
    ScanLit(',', ft, t);
    assert ft + [] == ft;
    ScanQuoted(63, m.timestamp, [], "");
    ScanEmpty("");
  }

  lemma ScanEmpty(s: string)
    ensures Scan([], s) == []
    ensures forall f: Field :: [f] + Scan([], s) == [f]
  {}

  // ---------- round trip ----------

  /** What the parser gets: no field after an empty one, and the first 511 bytes of the body. */
  function Received(m: Stored): Message {
    Message(m.index,
            m.status,
            if m.status == "" then "" else m.sender,
            if m.status == "" || m.sender == "" || m.alpha == "" then "" else m.timestamp,
            Take(JoinLines(m.lines), BODY_MAX))
  }

  /** The message without loss. */
  function Original(m: Stored): Message {
    Message(m.index, m.status, m.sender, m.timestamp, JoinLines(m.lines))
  }

  function ReceivedAll(ms: seq<Stored>): seq<Message> {
    seq(|ms|, i requires 0 <= i < |ms| => Received(ms[i]))
  }

  lemma FieldsOfHeader(m: Stored)
    ensures var f := HeaderFields(m);
      && IntOr(f, 0, 0) == m.index && TextOr(f, 1, "") == m.status
      && TextOr(f, 2, "") == (if m.status == "" then "" else m.sender)
      && TextOr(f, 4, "") == (if m.status == "" || m.sender == "" || m.alpha == "" then "" else m.timestamp)
  {}

  lemma MessageOfHeader(m: Stored)
    requires Sendable(m)
    ensures IsHeader(HeaderLine(m)) && MessageOf(HeaderLine(m), m.lines) == Received(m)
  {
    ScanHeader(m);
    FieldsOfHeader(m);
    assert HeaderLine(m)[|HEADER|..] == HeaderRest(m);
  }

  lemma {:induction false} MessagesOfLines(ms: seq<Stored>)
    requires forall i: nat | i < |ms| :: Sendable(ms[i])
    ensures Messages(ListingLines(ms)) == ReceivedAll(ms)
    decreases |ms|
  {
    if ms == [] {
      NoMessages();
    } else {
      hide Messages, Received, HeaderLine, EndsBody, Sendable;
      var m, more := ms[0], ListingLines(ms[1..]);
      MessagesOfLines(ms[1..]);
      ListingStarts(ms[1..]);
      FirstOfLines(m, more);
      hide ListingLines;
      ReceivedFirst(ms);
    }
  }

  lemma FirstOfLines(m: Stored, more: seq<string>)
    requires Sendable(m) && more != [] && EndsBody(more[0])
    ensures Messages([HeaderLine(m)] + (m.lines + more)) == [Received(m)] + Messages(more)
  {
    hide MessageOf, Messages, Received, HeaderLine, EndsBody, Sendable, BodyCount;
    MessageOfHeader(m);
    BodyLinesStay(m);
    BodyCountPrefix(m.lines, more);
    MessagesOfHeader(HeaderLine(m), m.lines + more);
  }

  lemma ReceivedFirst(ms: seq<Stored>)
    requires ms != []
    ensures ReceivedAll(ms) == [Received(ms[0])] + ReceivedAll(ms[1..])
  {
    hide Received;
  }

  lemma NoMessages()
    ensures Messages(ListingLines([])) == []
  {
    assert ["OK"][1..] == [];
  }

  lemma BodyLinesStay(m: Stored)
    requires Sendable(m)
    ensures forall i: nat | i < |m.lines| :: !EndsBody(m.lines[i])
  {
    assert forall i: nat | i < |m.lines| :: IsBodyLine(m.lines[i]);
  }

  lemma ListingStarts(ms: seq<Stored>)
    requires forall i: nat | i < |ms| :: Sendable(ms[i])
    ensures ListingLines(ms) != [] && EndsBody(ListingLines(ms)[0])
  {
    if ms != [] {
      assert HEADER <= HeaderLine(ms[0]);
    }
  }

  /** Parsing a listing gives one message for each message sent, in order. */
  lemma ListingReceived(ms: seq<Stored>)
    requires forall i: nat | i < |ms| :: Sendable(ms[i])
    ensures Messages(Lines(Listing(ms))) == ReceivedAll(ms)
  {
    LinesOfListing("", ms);
    EmptyLeft(Listing(ms));
    MessagesOfLines(ms);
  }

  /** A message comes back without loss exactly if no empty field precedes a non-empty one it needs and the body fits.
      In particular a sender without an entry in the phone book (an empty alpha field) loses the timestamp. */
  lemma ReceivedIsOriginalIff(m: Stored)
    ensures Received(m) == Original(m) <==>
            && (m.sender != "" ==> m.status != "")
            && (m.timestamp != "" ==> m.status != "" && m.sender != "" && m.alpha != "")
            && |JoinLines(m.lines)| <= BODY_MAX
  {}
}
