/** src/parsers.c: text-mode message listings, section 3.4.2 of 3GPP TS 27.005. */
module Sms {
  import opened CStrings
  import opened Buffer
  import opened Json
  import opened JsonUtil

  datatype Message = Message(index: int, status: string, sender: string, timestamp: string, body: string)

  const BODY_MAX: nat := 511
  const HEADER: string := "+CMGL:"

  // ---------- what a listing says ----------

  /** `"%N[^"]"`. */
  function QuotedField(width: nat): seq<Directive> {
    [Lit('"'), Until(width, '"'), Lit('"')]
  }

  /** ` %d,"%63[^"]","%95[^"]","%63[^"]","%63[^"]"`. */
  function HeaderFormat(): seq<Directive> {
    [White, Int, Lit(',')] + (QuotedField(63) + ([Lit(',')] + (QuotedField(95) + ([Lit(',')] +
      (QuotedField(63) + ([Lit(',')] + QuotedField(63)))))))
  }

  predicate IsHeader(line: string) {
    HEADER <= line
  }

  predicate EndsBody(line: string) {
    IsHeader(line) || line == "OK"
  }

  /** How many lines belong to the body that starts with the first of `lines`. */
  function BodyCount(lines: seq<string>): (n: nat)
    ensures n <= |lines|
    ensures forall i: nat | i < n :: !EndsBody(lines[i])
    ensures n < |lines| ==> EndsBody(lines[n])
  {
    if lines == [] || EndsBody(lines[0]) then 0 else 1 + BodyCount(lines[1..])
  }

  function JoinLines(lines: seq<string>): string {
    if lines == [] then ""
    else if |lines| == 1 then lines[0]
    else JoinLines(lines[..|lines| - 1]) + "\n" + lines[|lines| - 1]
  }

  function MessageOf(header: string, body: seq<string>): Message
    requires IsHeader(header)
  {
    var f := Scan(HeaderFormat(), header[|HEADER|..]);
    Message(IntOr(f, 0, 0), TextOr(f, 1, ""), TextOr(f, 2, ""), TextOr(f, 4, ""), Take(JoinLines(body), BODY_MAX))
  }

  /** One message for every header line, in order; its body are the lines up to the next header or `OK`. */
  function Messages(lines: seq<string>): seq<Message> {
    if lines == [] then []
    else if IsHeader(lines[0]) then
      [MessageOf(lines[0], lines[1..][..BodyCount(lines[1..])])] + Messages(lines[1..])
    else Messages(lines[1..])
  }

  /** The headers of a listing, in order. */
  function Headers(lines: seq<string>): seq<string> {
    if lines == [] then [] else (if IsHeader(lines[0]) then [lines[0]] else []) + Headers(lines[1..])
  }

  lemma {:induction false} OneMessagePerHeader(lines: seq<string>)
    ensures |Messages(lines)| == |Headers(lines)|
  {
    if lines != [] {
      OneMessagePerHeader(lines[1..]);
    }
  }

  /** A header with `k` headers before it gives message `k`, made of that header and the lines up to the next header
      or `OK`. */
  lemma {:induction false} MessageAtHeader(lines: seq<string>, i: nat, end: nat)
    requires i < end <= |lines| && IsHeader(lines[i])
    requires (forall j: nat | i < j < end :: !EndsBody(lines[j])) && (end < |lines| ==> EndsBody(lines[end]))
    ensures var k := |Headers(lines[..i])|;
      k < |Messages(lines)| && Messages(lines)[k] == MessageOf(lines[i], lines[i + 1..end])
    decreases i
  {
    hide MessageOf, IsHeader;
    if i == 0 {
      BodyCountUnique(lines[1..], end - 1);
      assert lines[1..][..end - 1] == lines[1..end];
    } else {
      MessageAtHeader(lines[1..], i - 1, end - 1);
      assert lines[1..][i - 1] == lines[i] && lines[1..][i..end - 1] == lines[i + 1..end];
      assert lines[..i][1..] == lines[1..][..i - 1];
    }
  }

  // ---------- the loops of parse_sms_list_or_read ----------

  lemma {:induction false} SkipBody(lines: seq<string>, n: nat)
    requires n <= |lines| && forall i: nat | i < n :: !IsHeader(lines[i])
    ensures Messages(lines) == Messages(lines[n..])
  {
    if n > 0 {
      SkipBody(lines[1..], n - 1);
      assert lines[1..][n - 1..] == lines[n..];
    } else {
      assert lines[0..] == lines;
    }
  }

  lemma BodyCountUnique(lines: seq<string>, n: nat)
    requires n <= |lines| && (forall i: nat | i < n :: !EndsBody(lines[i]))
    requires n < |lines| ==> EndsBody(lines[n])
    ensures BodyCount(lines) == n
  {
    assert BodyCount(lines) <= n && n <= BodyCount(lines);
  }

  lemma BodyCountPrefix(body: seq<string>, rest: seq<string>)
    requires forall i: nat | i < |body| :: !EndsBody(body[i])
    requires rest != [] && EndsBody(rest[0])
    ensures BodyCount(body + rest) == |body|
    ensures (body + rest)[..|body|] == body && (body + rest)[|body|..] == rest
  {
    hide EndsBody;
    BodyCountUnique(body + rest, |body|);
  }

  /** `strncat(body, s, 511 - strlen(body))`. */
  function Cat(body: string, s: string): (r: string)
    requires |body| <= BODY_MAX
    ensures |r| <= BODY_MAX
  {
    body + Take(s, BODY_MAX - |body|)
  }

  /** Cutting after every line gives the cut of all of them. */
  lemma CatTake(all: string, s: string)
    ensures Cat(Take(all, BODY_MAX), s) == Take(all + s, BODY_MAX)
  {}

  lemma AddLine(lines: seq<string>, line: string, body: string)
    requires body == Take(JoinLines(lines), BODY_MAX)
    requires forall l | l in lines :: l != ""
    ensures Cat(if body != "" then Cat(body, "\n") else body, line) == Take(JoinLines(lines + [line]), BODY_MAX)
  {
    assert (lines + [line])[..|lines|] == lines;
    if lines == [] {
      assert "" + line == line;
      CatTake("", line);
    } else {
      assert lines[0] in lines;
      JoinNonEmpty(lines);
      CatTake(JoinLines(lines), "\n");
      CatTake(JoinLines(lines) + "\n", line);
    }
  }

  lemma {:induction false} JoinNonEmpty(lines: seq<string>)
    requires lines != [] && lines[0] != ""
    ensures JoinLines(lines) != ""
  {
    if |lines| > 1 {
      JoinNonEmpty(lines[..|lines| - 1]);
    }
  }

  /** The inner loop: the body of the message whose header has been read, and the line after it. */
  method ReadBody(save0: string) returns (body: string, next: Option<string>, save: string)
    ensures var lines := Lines(save0); var n := BodyCount(lines);
      && body == Take(JoinLines(lines[..n]), BODY_MAX)
      && lines[n..] == (if next.None? then [] else [next.value] + Lines(save))
      && (next.Some? ==> |save| < |save0|)
  {
    hide Tokens, JoinLines, BodyCount, Take, Cat;
    ghost var lines := Lines(save0);
    ghost var n := 0;
    body := "";
    next, save := StrTok(save0, IsLineBreak);
    NoBody(lines);
    LinesNonEmpty(save0);
    while next.Some? && !IsHeader(next.value) && next.value != "OK"
      invariant n <= |lines|
      invariant lines[n..] == if next.None? then [] else [next.value] + Lines(save)
      invariant next.Some? ==> |save| < |save0|
      invariant forall i: nat | i < n :: !EndsBody(lines[i])
      invariant body == Take(JoinLines(lines[..n]), BODY_MAX)
      decreases |lines| - n
    {
      CutAt(lines, n);
      AddLine(lines[..n], next.value, body);
      if body != "" {
        body := Cat(body, "\n");
      }
      body := Cat(body, next.value);
      next, save := StrTok(save, IsLineBreak);
      n := n + 1;
    }
    assert next.None? ==> n == |lines|;
    assert next.Some? ==> next.value == lines[n..][0];
    BodyCountUnique(lines, n);
  }

  lemma CutAt(lines: seq<string>, n: nat)
    requires n < |lines|
    ensures lines[n..][0] == lines[n] && lines[n..][1..] == lines[n + 1..]
    ensures lines[..n + 1] == lines[..n] + [lines[n]]
    ensures forall l | l in lines[..n] :: l in lines
  {}

  lemma NoBody(lines: seq<string>)
    ensures lines[0..] == lines && lines[..0] == [] && Take(JoinLines(lines[..0]), BODY_MAX) == ""
  {}

  lemma LinesNonEmpty(s: string)
    ensures forall l | l in Lines(s) :: l != ""
  {}

  function MessageMembers(m: Message): seq<Member> {
    [("index", IntDoc(m.index)), ("status", DStr(m.status)), ("sender", DStr(m.sender)),
     ("timestamp", DStr(m.timestamp)), ("body", DStr(m.body))]
  }

  function MessageDocs(ms: seq<Message>): (ds: seq<Doc>)
    ensures |ds| == |ms|
  {
    seq(|ms|, i requires 0 <= i < |ms| => ObjDoc(MessageMembers(ms[i])))
  }

  method AppendMessageObject(b: Buf, m: Message)
    requires b.Valid()
    modifies b, b.data
    ensures b.Valid() && (b.data == old(b.data) || fresh(b.data))
    ensures b.text == old(b.text) + Print(ObjDoc(MessageMembers(m)))
  {
    hide JoinMembers, Print, ObjDoc;
    ghost var base := b.text + "{";
    b.Append("{");
    StartList(base);
    ghost var all := MessageMembers(m);
    ghost var ms := PropInt(b, "index", m.index, false, base, []);
    assert ms == all[..1];
    ms := PropString(b, "status", m.status, true, base, ms);
    assert ms == all[..2];
    ms := PropString(b, "sender", m.sender, true, base, ms);
    assert ms == all[..3];
    ms := PropString(b, "timestamp", m.timestamp, true, base, ms);
    assert ms == all[..4];
    ms := PropString(b, "body", m.body, true, base, ms);
    assert ms == all;
    b.Append("}");
    CloseObject(old(b.text), ms, b.text);
  }

  method AppendMessage(b: Buf, m: Message, first: bool, ghost base: string, ghost done: seq<Message>)
    requires b.Valid() && b.text == base + JoinItems(MessageDocs(done)) && first == (done == [])
    modifies b, b.data
    ensures b.Valid() && (b.data == old(b.data) || fresh(b.data))
    ensures b.text == base + JoinItems(MessageDocs(done + [m]))
  {
    if !first {
      b.Append(",");
    } else {
      assert b.text + "" == b.text;
    }
    AppendMessageObject(b, m);
    ghost var grown := GrowItems(base, MessageDocs(done), ObjDoc(MessageMembers(m)), b.text);
    assert MessageDocs(done + [m]) == grown;
  }

  /** The `cmgl` branch: appends all messages of the listing, separated by commas. */
  method AppendMessages(b: Buf, payload: string)
    requires b.Valid()
    modifies b, b.data
    ensures b.Valid() && (b.data == old(b.data) || fresh(b.data))
    ensures b.text == old(b.text) + JoinItems(MessageDocs(Messages(Lines(payload))))
  {
    hide JoinItems, MessageDocs, Messages, Scan, Tokens;
    ghost var base := b.text;
    ghost var all := Messages(Lines(payload));
    ghost var done: seq<Message> := [];
    StartMessages(base, all);
    var first := true;
    var line, save := StrTok(payload, IsLineBreak);
    while line.Some?
      invariant b.Valid() && (b.data == old(b.data) || fresh(b.data))
      invariant b.text == base + JoinItems(MessageDocs(done)) && first == (done == [])
      invariant done + Messages(if line.None? then [] else [line.value] + Lines(save)) == all
      decreases line.Some?, |save|
    {
      if IsHeader(line.value) {
        var f := Scan(HeaderFormat(), line.value[|HEADER|..]);
        var body, next, rest := ReadBody(save);
        var m := Message(IntOr(f, 0, 0), TextOr(f, 1, ""), TextOr(f, 2, ""), TextOr(f, 4, ""), body);
        HeaderStep(line.value, Lines(save), done, m);
        AppendMessage(b, m, first, base, done);
        first := false;
        done := done + [m];
        line, save := next, rest;
        continue;
      }
      OtherStep(line.value, Lines(save));
      line, save := StrTok(save, IsLineBreak);
    }
    EndMessages(done);
  }

  lemma StartMessages(base: string, all: seq<Message>)
    ensures base == base + JoinItems(MessageDocs([])) && [] + all == all
  {
    assert MessageDocs([]) == [];
    StartList(base);
  }

  lemma EndMessages(done: seq<Message>)
    ensures done + Messages([]) == done
  {}

  lemma OtherStep(line: string, lines: seq<string>)
    requires !IsHeader(line)
    ensures Messages([line] + lines) == Messages(lines)
  {
    assert ([line] + lines)[1..] == lines;
  }

  /** A header takes the lines of its body; the messages after it are those of the remaining lines. */
  lemma MessagesOfHeader(line: string, lines: seq<string>)
    requires IsHeader(line)
    ensures Messages([line] + lines) ==
            [MessageOf(line, lines[..BodyCount(lines)])] + Messages(lines[BodyCount(lines)..])
  {
    hide MessageOf;
    assert ([line] + lines)[1..] == lines;
    SkipBody(lines, BodyCount(lines));
  }

  lemma HeaderStep(line: string, lines: seq<string>, done: seq<Message>, m: Message)
    requires IsHeader(line) && m == MessageOf(line, lines[..BodyCount(lines)])
    ensures done + Messages([line] + lines) == done + [m] + Messages(lines[BodyCount(lines)..])
  {
    hide MessageOf, Messages;
    MessagesOfHeader(line, lines);
    var rest := Messages(lines[BodyCount(lines)..]);
    assert done + ([m] + rest) == done + [m] + rest;
  }
}
