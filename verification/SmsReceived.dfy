/** What a JSON reader gets of the messages that a modem lists (`+CMGL`) or reads (`+CMGR`). */
module SmsReceived {
  import opened CStrings
  import opened Json
  import J = Json
  import opened JsonUtil
  import JU = JsonUtil
  import ConfigFile
  import opened Sms
  import opened SmsListing
  import opened AtParsers
  import opened AtReceived

  // ---------- messages as JSON ----------

  function MessageJson(m: Message): Json {
    Obj([ Entry("index", Number(m.index)), Entry("status", Str(m.status)), Entry("sender", Str(m.sender)),
          Entry("timestamp", Str(m.timestamp)), Entry("body", Str(m.body)) ])
  }

  lemma MessageRead(m: Message)
    ensures WellFormed(ObjDoc(MessageMembers(m))) && J.Value(ObjDoc(MessageMembers(m))) == MessageJson(m)
  {
    hide Dec;
    MessageWellFormed(m);
    CompactValue(MessageMembers(m));
    assert Entries(MessageMembers(m)) == MessageJson(m).members;
  }

  // ---------- +CMGL ----------

  function MessageJsons(ms: seq<Stored>): (vs: seq<Json>)
    ensures |vs| == |ms|
  {
    seq(|ms|, i requires 0 <= i < |ms| => MessageJson(Received(ms[i])))
  }

  /** The reader gets every message of a listing, in order, with its fields under their names. */
  lemma ListingRead(ms: seq<Stored>)
    requires forall i: nat | i < |ms| :: Sendable(ms[i])
    ensures Read(ObjectText(ResponseMembers(Cmgl, Listing(ms)))) ==
            Some(Obj([ Entry("parser", Str("cmgl")), Entry("items", Arr(MessageJsons(ms))),
                       Entry("raw", Str(Listing(ms))) ]))
  {
    hide *;
    ListingReceived(ms);
    ListingText(Listing(ms), ReceivedAll(ms));
    ListingItems(ms);
  }

  lemma ListingItems(ms: seq<Stored>)
    ensures JU.Values(MessageDocs(ReceivedAll(ms))) == MessageJsons(ms)
  {
    hide MessageJson, Received, MessageDocs, JU.Values;
    ListingValues(ReceivedAll(ms));
  }

  lemma ListingText(payload: string, ms: seq<Message>)
    requires Messages(Lines(payload)) == ms
    ensures Read(ObjectText(ResponseMembers(Cmgl, payload))) ==
            Some(Obj([ Entry("parser", Str("cmgl")), Entry("items", Arr(JU.Values(MessageDocs(ms)))),
                       Entry("raw", Str(payload)) ]))
  {
    ListingSound(payload);
    hide Read, ObjDoc, JoinMembers, Messages, Tokens, WellFormed, ListingMembers, Entries, CarriesRaw, MessageDocs;
    ListingEntries(payload, ms);
    ObjPrinted(ListingMembers(payload));
    ReadObject(ListingMembers(payload));
  }

  lemma ListingEntries(payload: string, ms: seq<Message>)
    requires Messages(Lines(payload)) == ms
    ensures Entries(ListingMembers(payload)) ==
            [ Entry("parser", Str("cmgl")), Entry("items", Arr(JU.Values(MessageDocs(ms)))), Entry("raw", Str(payload)) ]
  {
    hide Messages, Tokens, ArrDoc, MessageDocs;
    ListingValues(ms);
  }

  lemma ListingValues(ms: seq<Message>)
    ensures |JU.Values(MessageDocs(ms))| == |ms|
    ensures forall i: nat | i < |ms| :: JU.Values(MessageDocs(ms))[i] == MessageJson(ms[i])
    ensures J.Value(ArrDoc(MessageDocs(ms))) == Arr(JU.Values(MessageDocs(ms)))
  {
    hide ObjDoc, MessageMembers, MessageJson;
    CompactItemsValue(MessageDocs(ms));
    forall i: nat | i < |ms| ensures JU.Values(MessageDocs(ms))[i] == MessageJson(ms[i]) {
      MessageRead(ms[i]);
    }
  }

  // ---------- +CMGR ----------

  /** The four quoted fields of a message that is read. */
  predicate IsReadable(m: Stored) {
    IsField(m.status, 63) && IsField(m.sender, 95) && IsField(m.alpha, 63) && IsField(m.timestamp, 63)
  }

  function ReadHeader(m: Stored, rest: string): string {
    " " + QuotedTo(m.status, "," + QuotedTo(m.sender, "," + QuotedTo(m.alpha, "," + QuotedTo(m.timestamp, rest))))
  }

  function ReadTail(body: string): string {
    "\r\n" + (body + "\r\n\r\nOK\r\n")
  }

  /** `+CMGR: "<stat>","<oa>","<alpha>","<scts>"<CR><LF><data><CR><LF><CR><LF>OK<CR><LF>`. */
  function ReadText(m: Stored, body: string): string {
    "+CMGR:" + ReadHeader(m, ReadTail(body))
  }

  /** A body that does not begin with a line break and has no line after its first that starts with OK. */
  predicate IsBody(body: string) {
    body != "" && !IsLineBreak(body[0]) && Find(body, "\nOK").None?
  }

  /** What the parser gets: no field behind an empty one, and the body cut and trimmed. */
  function ReadBack(m: Stored, body: string): Message {
    Message(1, m.status, if m.status == "" then "" else m.sender,
            if m.status == "" || m.sender == "" || m.alpha == "" then "" else m.timestamp, Trim(Take(body, 511)))
  }

  lemma ReadFields(m: Stored, rest: string)
    requires IsReadable(m)
    ensures var f := Scan(ReadFormat(), ReadHeader(m, rest));
      && TextOr(f, 0, "") == m.status && TextOr(f, 1, "") == (if m.status == "" then "" else m.sender)
      && TextOr(f, 3, "") == (if m.status == "" || m.sender == "" || m.alpha == "" then "" else m.timestamp)
  {
    hide Scan, IsField, QuotedTo, QuotedField;
    var q4 := QuotedTo(m.timestamp, rest);
    var q3 := QuotedTo(m.alpha, "," + q4);
    var q2 := QuotedTo(m.sender, "," + q3);
    var q1 := QuotedTo(m.status, "," + q2);
    var f4 := QuotedField(63);
    var f3 := QuotedField(63) + ([Lit(',')] + f4);
    var f2 := QuotedField(95) + ([Lit(',')] + f3);
    var f1 := QuotedField(63) + ([Lit(',')] + f2);
    QuoteStarts(m.status, "," + q2);
    ScanWhite(f1, q1);
    ScanQuoted(63, m.status, [Lit(',')] + f2, "," + q2);
    ScanLit(',', f2, q2);
    ScanQuoted(95, m.sender, [Lit(',')] + f3, "," + q3);
    ScanLit(',', f3, q3);
    ScanQuoted(63, m.alpha, [Lit(',')] + f4, "," + q4);
    ScanLit(',', f4, q4);
    ScanQuoted(63, m.timestamp, [], rest);
    ScanEmpty(rest);
    assert f4 + [] == f4;
  }

  lemma QuoteStarts(f: string, rest: string)
    ensures QuotedTo(f, rest) != "" && !IsSpace(QuotedTo(f, rest)[0])
  {}

  /** The line is found after any line breaks. */
  lemma ReadLineFound(breaks: string, line: string)
    requires (forall i: nat | i < |breaks| :: IsLineBreak(breaks[i])) && "+CMGR:" <= line
    ensures ReadLine(breaks + line) == Some(line)
  {
    var s := breaks + line;
    if breaks == "" {
      assert s == line;
    } else {
      assert IsLineBreak(s[0]) && s[0] != '+';
      SpanUnique(s, c => !IsLineBreak(c), 0);
      assert s[0..] == s;
      SpanUnique(s, IsLineBreak, |breaks|);
      assert s[|breaks|..] == line;
    }
  }

  lemma HeaderPlain(m: Stored)
    requires IsReadable(m)
    ensures forall i: nat | i < |ReadHeader(m, "")| :: !IsLineBreak(ReadHeader(m, "")[i])
  {
    QuotedPlain(m.timestamp, "", 63);
    var q4 := QuotedTo(m.timestamp, "");
    QuotedPlain(m.alpha, "," + q4, 63);
    var q3 := QuotedTo(m.alpha, "," + q4);
    QuotedPlain(m.sender, "," + q3, 95);
    var q2 := QuotedTo(m.sender, "," + q3);
    QuotedPlain(m.status, "," + q2, 63);
  }

  lemma QuotedPlain(f: string, rest: string, width: nat)
    requires IsField(f, width) && forall i: nat | i < |rest| :: !IsLineBreak(rest[i])
    ensures forall i: nat | i < |QuotedTo(f, rest)| :: !IsLineBreak(QuotedTo(f, rest)[i])
  {}

  lemma HeaderSplit(m: Stored, rest: string)
    ensures ReadHeader(m, rest) == ReadHeader(m, "") + rest
  {
    QuotedSplit(m.timestamp, "", rest);
    QuotedSplit(m.alpha, "," + QuotedTo(m.timestamp, ""), rest);
    QuotedSplit(m.sender, "," + QuotedTo(m.alpha, "," + QuotedTo(m.timestamp, "")), rest);
    QuotedSplit(m.status, "," + QuotedTo(m.sender, "," + QuotedTo(m.alpha, "," + QuotedTo(m.timestamp, ""))), rest);
    hide QuotedTo;
    assert "" + rest == rest;
  }

  lemma QuotedSplit(f: string, middle: string, rest: string)
    ensures QuotedTo(f, middle + rest) == QuotedTo(f, middle) + rest
    ensures "," + (QuotedTo(f, middle) + rest) == ("," + QuotedTo(f, middle)) + rest
  {}

  /** The line of a message ends where its body begins. */
  lemma LineEnd(m: Stored, tail: string)
    requires IsReadable(m) && tail != "" && IsLineBreak(tail[0])
    ensures var line := "+CMGR:" + ReadHeader(m, tail);
      && line[6..] == ReadHeader(m, tail) && line[TokenLength(line, IsLineBreak)..] == tail
  {
    hide ReadHeader, IsReadable;
    HeaderPlain(m);
    HeaderSplit(m, tail);
    var head := "+CMGR:" + ReadHeader(m, "");
    assert "+CMGR:" + (ReadHeader(m, "") + tail) == head + tail;
    SpanUnique(head + tail, c => !IsLineBreak(c), |head|);
    assert (head + tail)[|head|..] == tail;
  }

  lemma {:induction false} TrimBlankTail(s: string, blanks: string)
    requires AllBlank(blanks)
    ensures Trim(s + blanks) == Trim(s)
  {
    hide Trim;
    var left, right := ConfigFile.TrimParts(s);
    var t := Trim(s);
    assert AllBlank(right + blanks);
    if t == "" {
      assert AllBlank(left + t + right + blanks);
      TrimBlank(s + blanks);
    } else {
      TrimPadded(left, t, right + blanks);
      assert left + t + right + blanks == left + t + (right + blanks);
    }
  }

  lemma TrimCut(body: string)
    ensures Trim(Take(body + "\r\n\r", BODY_MAX)) == Trim(Take(body, BODY_MAX))
  {
    hide Trim;
    var blanks := Take("\r\n\r", if |body| < BODY_MAX then BODY_MAX - |body| else 0);
    assert Take(body + "\r\n\r", BODY_MAX) == Take(body, BODY_MAX) + blanks;
    TrimBlankTail(Take(body, BODY_MAX), blanks);
  }

  /** The first line that starts with OK is the final result code. */
  lemma ResultFound(body: string)
    requires Find(body, "\nOK").None?
    ensures Find(body + "\r\n\r\nOK\r\n", "\nOK") == Some(|body| + 3)
  {
    var s := body + "\r\n\r\nOK\r\n";
    forall j: nat | j < |body| + 3
      ensures !Occurs(s, "\nOK", j)
    {
      assert s[|body|] == '\r' && s[|body| + 1] == '\n' && s[|body| + 2] == '\r';
      assert s[j..][0] == s[j] && s[j..][1] == s[j + 1] && s[j..][2] == s[j + 2];
      if j + 3 <= |body| {
        assert s[j..] == body[j..] + "\r\n\r\nOK\r\n";
        assert !Occurs(body, "\nOK", j);
      }
    }
    assert s[|body| + 3..][..3] == "\nOK";
    FindUnique(s, "\nOK", |body| + 3);
  }

  lemma BodyRead(line: string, body: string)
    requires line[TokenLength(line, IsLineBreak)..] == ReadTail(body) && IsBody(body)
    ensures ReadBodyText(line) == Trim(Take(body, BODY_MAX))
  {
    hide Find, Trim, Take;
    var rest, all := ReadTail(body), body + "\r\n\r\nOK\r\n";
    SpanUnique(rest, IsLineBreak, 2);
    assert rest[2..] == all;
    ResultFound(body);
    assert all[..|body| + 3] == body + "\r\n\r";
    TrimCut(body);
  }

  lemma NoResultFound()
    ensures Find("OK\r\n", "\nOK").None?
  {
    var s := "OK\r\n";
    forall j: nat ensures !Occurs(s, "\nOK", j) {
      if j < 4 {
        assert s[j..][0] == s[j];
        assert |s[j..]| == 4 - j;
      }
    }
  }

  /** The result code of a message without text is taken for its text. */
  lemma EmptyBodyIsOk(line: string)
    requires line[TokenLength(line, IsLineBreak)..] == ReadTail("")
    ensures ReadBodyText(line) == "OK"
  {
    hide Find, Trim;
    var rest := ReadTail("");
    assert rest == "\r\n\r\n\r\nOK\r\n";
    SpanUnique(rest, IsLineBreak, 6);
    assert rest[6..] == "OK\r\n";
    NoResultFound();
    TrimPadded("", "OK", "\r\n");
    assert "" + "OK" + "\r\n" == "OK\r\n";
  }

  lemma MessageIsRead(breaks: string, m: Stored, body: string)
    requires (forall i: nat | i < |breaks| :: IsLineBreak(breaks[i])) && IsReadable(m) && (IsBody(body) || body == "")
    ensures ReadMessage(breaks + ReadText(m, body)) == ReadBack(m, if body == "" then "OK" else body)
  {
    hide Scan, ReadHeader, IsReadable, Trim, ReadBodyText, ReadLine;
    var line := ReadText(m, body);
    ReadLineFound(breaks, line);
    LineEnd(m, ReadTail(body));
    ReadFields(m, ReadTail(body));
    if body != "" {
      BodyRead(line, body);
    } else {
      EmptyBodyIsOk(line);
      TrimPadded("", "OK", "");
      assert "" + "OK" + "" == "OK";
    }
  }

  lemma ReadEntries(m: Message, payload: string)
    ensures Entries(ReadMembersOf(m, payload)) ==
            [ Entry("parser", Str("cmgr")), Entry("items", Arr([MessageJson(m)])),
              Entry("message", Obj([ Entry("status", Str(m.status)), Entry("sender", Str(m.sender)),
                                     Entry("timestamp", Str(m.timestamp)), Entry("body", Str(m.body)) ])),
              Entry("raw", Str(payload)) ]
  {
    MessageRead(m);
    hide MessageMembers, MessageJson;
    var ds := [ObjDoc(MessageMembers(m))];
    CompactItemsValue(ds);
    assert JU.Values(ds) == [MessageJson(m)];
    CompactValue(MessageTail(m));
    assert Entries(MessageTail(m)) == [ Entry("status", Str(m.status)), Entry("sender", Str(m.sender)),
                                        Entry("timestamp", Str(m.timestamp)), Entry("body", Str(m.body)) ];
  }

  lemma ReadIsRead(payload: string)
    ensures Read(ObjectText(ResponseMembers(Cmgr, payload))) ==
            Some(Obj(Entries(ReadMembersOf(ReadMessage(payload), payload))))
  {
    ReadSound(payload);
    hide Read, ObjDoc, JoinMembers, WellFormed, ReadMembersOf, ReadMessage, Entries, CarriesRaw;
    ObjPrinted(AtParsers.ReadMembers(payload));
    ReadObject(AtParsers.ReadMembers(payload));
  }

  /** The reader gets a message that is read with its fields under their names, as an item and as the message; one
      without text has the result code as its body. */
  lemma ReadReceived(breaks: string, m: Stored, body: string)
    requires (forall i: nat | i < |breaks| :: IsLineBreak(breaks[i])) && IsReadable(m) && (IsBody(body) || body == "")
    ensures var payload, r := breaks + ReadText(m, body), ReadBack(m, if body == "" then "OK" else body);
      Read(ObjectText(ResponseMembers(Cmgr, payload))) ==
      Some(Obj([ Entry("parser", Str("cmgr")), Entry("items", Arr([MessageJson(r)])),
                 Entry("message", Obj([ Entry("status", Str(r.status)), Entry("sender", Str(r.sender)),
                                        Entry("timestamp", Str(r.timestamp)), Entry("body", Str(r.body)) ])),
                 Entry("raw", Str(payload)) ]))
  {
    hide *;
    MessageIsRead(breaks, m, body);
    var payload, r := breaks + ReadText(m, body), ReadBack(m, if body == "" then "OK" else body);
    ReadIsRead(payload);
    ReadEntries(r, payload);
  }
}
