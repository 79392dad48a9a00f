/** The block that `find_capability_block` cuts out of a profile, in terms of the profile's tree: the object that
    begins next after the first token equal to the capability, and what the lookups make of it. */
module ProfileBlocks {
  import opened CStrings
  import opened Json
  import opened JsonUtil
  import opened Profile
  import opened PrintedBlocks
  import opened ProfileLookup

  // ---------- the next opening brace of a document ----------

  /** An opening brace belongs to a string, of which `text` is the part from the brace on, or to an object. */
  datatype Opening = InString(text: string) | AnObject(o: Doc)

  function InText(s: string): Option<Opening> {
    var n := Span(s, c => c != '{');
    if n == |s| then None else Some(InString(s[n..]))
  }

  function Either(first: Option<Opening>, second: Option<Opening>): Option<Opening> {
    if first.Some? then first else second
  }

  /** The first opening brace, in the order of the text. */
  function FirstOpening(d: Doc): Option<Opening>
    decreases d
  {
    match d
    case DStr(s) => InText(s)
    case DAtom(_) => None
    case DArr(_, items) => FirstOpeningItems(items)
    case DObj(_, _) => Some(AnObject(d))
  }

  function FirstOpeningItems(items: Items): Option<Opening>
    decreases items
  {
    match items
    case INil => None
    case ICons(_, v, _, tail) => Either(FirstOpening(v), FirstOpeningItems(tail))
  }

  function FirstOpeningMembers(members: Members): Option<Opening>
    decreases members
  {
    match members
    case MNil => None
    case MCons(_, k, _, _, v, _, tail) => Either(InText(k), Either(FirstOpening(v), FirstOpeningMembers(tail)))
  }

  /** What follows the first token that equals a key: the next opening brace of the same document, if there is one. */
  datatype Rest = Missing | After(next: Option<Opening>)

  function RestThen(r: Rest, more: Option<Opening>): Rest {
    match r
    case Missing => Missing
    case After(next) => After(Either(next, more))
  }

  function RestOf(d: Doc, key: string): Rest
    decreases d
  {
    match d
    case DStr(s) => if s == key then After(None) else Missing
    case DAtom(_) => Missing
    case DArr(_, items) => RestOfItems(items, key)
    case DObj(_, members) => RestOfMembers(members, key)
  }

  function RestOfItems(items: Items, key: string): Rest
    decreases items
  {
    match items
    case INil => Missing
    case ICons(_, v, _, tail) =>
      if RestOf(v, key).Missing? then RestOfItems(tail, key) else RestThen(RestOf(v, key), FirstOpeningItems(tail))
  }

  function RestOfMembers(members: Members, key: string): Rest
    decreases members
  {
    match members
    case MNil => Missing
    case MCons(_, k, _, _, v, _, tail) =>
      if k == key then After(Either(FirstOpening(v), FirstOpeningMembers(tail)))
      else if RestOf(v, key).Missing? then RestOfMembers(tail, key)
      else RestThen(RestOf(v, key), FirstOpeningMembers(tail))
  }

  /** The next opening brace after the first token that equals `key`. */
  function NextOpening(d: Doc, key: string): Option<Opening> {
    match RestOf(d, key)
    case Missing => None
    case After(next) => next
  }

  // ---------- the opening brace in the text ----------

  /** The block that starts at the first opening brace of `t`. */
  ghost function BlockAfter(t: string): Option<string> {
    var n := Span(t, c => c != '{');
    if n == |t| then None else Block(t[n..])
  }

  /** In `t` the first brace is the given one; without it, that of `rest`. */
  ghost predicate Reads(t: string, o: Option<Opening>, rest: string) {
    match o
    case None => BlockAfter(t) == BlockAfter(rest)
    case Some(opening) => ReadsAt(t, opening)
  }

  ghost predicate ReadsAt(t: string, opening: Opening) {
    match opening
    case AnObject(o) => BlockAfter(t) == Some(Print(o))
    case InString(u) => exists r: string :: BlockAfter(t) == Block(EscapeTo(u, r))
  }

  lemma ReadsThen(a: string, o: Option<Opening>, b: string, p: Option<Opening>, c: string)
    requires Reads(a, o, b) && Reads(b, p, c)
    ensures Reads(a, Either(o, p), c)
  {
    hide BlockAfter, EscapeTo, Print;
  }

  ghost predicate NoBrace(w: string) {
    forall i: nat | i < |w| :: w[i] != '{'
  }

  lemma ReadsPast(w: string, t: string)
    requires NoBrace(w)
    ensures Reads(w + t, None, t)
  {
    var n := Span(t, c => c != '{');
    SpanUnique(w + t, c => c != '{', |w| + n);
    assert n < |t| ==> (w + t)[|w| + n..] == t[n..];
  }

  lemma WsNoBrace(ws: string)
    requires AllWs(ws)
    ensures NoBrace(ws)
  {
    assert forall i: nat | i < |ws| :: ws[i] in ws;
  }

  lemma BraceHere(t: string)
    requires t != "" && t[0] == '{'
    ensures BlockAfter(t) == Block(t)
  {
    SpanUnique(t, c => c != '{', 0);
    assert t[0..] == t;
  }

  lemma EscapeNoBrace(c: char)
    requires c != '{'
    ensures NoBrace(EscapeChar(c))
  {}

  lemma InTextTail(s: string)
    requires s != ""
    ensures InText(s) == if s[0] == '{' then Some(InString(s)) else InText(s[1..])
  {
    if s[0] == '{' {
      SpanUnique(s, c => c != '{', 0);
      assert s[0..] == s;
    } else {
      var n := Span(s[1..], c => c != '{');
      SpanUnique(s, c => c != '{', n + 1);
      assert s[n + 1..] == s[1..][n..];
    }
  }

  lemma {:induction false} ReadsBody(s: string, rest: string)
    ensures Reads(EscapeTo(s, rest), InText(s), rest)
  {
    hide Reads, InText, EscapeChar;
    if s == "" {
      NoText(rest);
    } else {
      InTextTail(s);
      if s[0] == '{' {
        BraceInText(s, rest);
      } else {
        var tail := EscapeTo(s[1..], rest);
        ReadsBody(s[1..], rest);
        EscapeNoBrace(s[0]);
        ReadsPast(EscapeChar(s[0]), tail);
        ReadsThen(EscapeTo(s, rest), None, tail, InText(s[1..]), rest);
      }
    }
  }

  lemma NoText(rest: string)
    ensures Reads(EscapeTo("", rest), InText(""), rest)
  {
    hide BlockAfter;
  }

  lemma BraceInText(s: string, rest: string)
    requires s != "" && s[0] == '{'
    ensures Reads(EscapeTo(s, rest), Some(InString(s)), rest)
  {
    var t := EscapeTo(s, rest);
    assert EscapeChar('{') == "{";
    assert t != "" && t[0] == '{';
    hide EscapeTo;
    BraceHere(t);
  }

  lemma ReadsLiteral(s: string, rest: string)
    ensures Reads(QuoteTo(s, rest), InText(s), rest)
  {
    hide InText, EscapeTo, BlockAfter;
    var body := EscapeTo(s, "\"" + rest);
    ReadsBody(s, "\"" + rest);
    ReadsPast("\"", rest);
    ReadsPast("\"", body);
    ReadsThen(body, InText(s), "\"" + rest, None, rest);
    ReadsThen("\"" + body, None, body, Either(InText(s), None), rest);
  }

  lemma {:induction false} ReadsDoc(d: Doc, rest: string)
    requires WellFormed(d)
    ensures Reads(PrintTo(d, rest), FirstOpening(d), rest)
    decreases d, 0
  {
    match d
    case DStr(s) => ReadsLiteral(s, rest);
    case DAtom(text) =>
      AtomChars(text);
      ReadsPast(text, rest);
    case DArr(ws, items) => ReadsArray(ws, items, rest);
    case DObj(ws, members) =>
      BraceHere(PrintTo(d, rest));
      BlockOfObject(ws, members, rest);
  }

  lemma {:induction false} ReadsArray(ws: string, items: Items, rest: string)
    requires AllWs(ws) && WellFormedItems(items)
    ensures Reads(PrintTo(DArr(ws, items), rest), FirstOpeningItems(items), rest)
    decreases items, 1
  {
    hide Reads, FirstOpeningItems, ItemsTo;
    var body := ItemsTo(items, "]" + rest);
    ReadsItems(items, "]" + rest);
    ReadsPast("]", rest);
    ReadsThen(body, FirstOpeningItems(items), "]" + rest, None, rest);
    WsNoBrace(ws);
    ReadsPast(ws, body);
    ReadsPast("[", ws + body);
    ReadsThen("[" + (ws + body), None, ws + body, None, body);
    ReadsThen("[" + (ws + body), None, body, Either(FirstOpeningItems(items), None), rest);
  }

  lemma {:induction false} ReadsItems(items: Items, rest: string)
    requires WellFormedItems(items)
    ensures Reads(ItemsTo(items, rest), FirstOpeningItems(items), rest)
    decreases items, 0
  {
    if items.ICons? {
      hide Reads, FirstOpening, PrintTo;
      var after := AfterItem(items.tail, rest);
      ReadsAfterItem(items.tail, rest);
      ReadsValue(items.pre, items.v, items.post, after, FirstOpeningItems(items.tail), rest);
    }
  }

  lemma {:induction false} ReadsAfterItem(tail: Items, rest: string)
    requires WellFormedItems(tail)
    ensures Reads(AfterItem(tail, rest), FirstOpeningItems(tail), rest)
    decreases tail, 1
  {
    if tail.ICons? {
      hide Reads, FirstOpeningItems, ItemsTo;
      ReadsItems(tail, rest);
      ReadsPast(",", ItemsTo(tail, rest));
      ReadsThen("," + ItemsTo(tail, rest), None, ItemsTo(tail, rest), FirstOpeningItems(tail), rest);
    }
  }

  /** A value between white space, and what follows it. */
  lemma {:induction false} ReadsValue(pre: string, v: Doc, post: string, after: string, more: Option<Opening>, rest: string)
    requires WellFormed(v) && AllWs(pre) && AllWs(post) && Reads(after, more, rest)
    ensures Reads(pre + PrintTo(v, post + after), Either(FirstOpening(v), more), rest)
    decreases v, 1
  {
    hide Reads, FirstOpening, PrintTo;
    var value := PrintTo(v, post + after);
    ReadsDoc(v, post + after);
    WsNoBrace(pre);
    WsNoBrace(post);
    ReadsPast(pre, value);
    ReadsPast(post, after);
    ReadsThen(post + after, None, after, more, rest);
    ReadsThen(value, FirstOpening(v), post + after, more, rest);
    ReadsThen(pre + value, None, value, Either(FirstOpening(v), more), rest);
  }

  lemma {:induction false} ReadsMembers(members: Members, rest: string)
    requires WellFormedMembers(members)
    ensures Reads(MembersTo(members, rest), FirstOpeningMembers(members), rest)
    decreases members, 1
  {
    if members.MCons? {
      hide Reads, FirstOpening, InText, PrintTo, QuoteTo;
      var MCons(pre, k, gap, sep, v, post, tail) := members;
      var after := AfterMember(tail, rest);
      var value := PrintTo(v, post + after);
      var more := Either(FirstOpening(v), FirstOpeningMembers(tail));
      ReadsBound(members, rest);
      WsNoBrace(pre);
      var key := QuoteTo(k, gap + (":" + (sep + value)));
      ReadsLiteral(k, gap + (":" + (sep + value)));
      ReadsThen(key, InText(k), gap + (":" + (sep + value)), more, rest);
      ReadsPast(pre, key);
      ReadsThen(pre + key, None, key, Either(InText(k), more), rest);
    }
  }

  /** What follows the key of a member. */
  lemma {:induction false} ReadsBound(members: Members, rest: string)
    requires members.MCons? && WellFormedMembers(members)
    ensures var MCons(_, _, gap, sep, v, post, tail) := members;
      Reads(gap + (":" + (sep + PrintTo(v, post + AfterMember(tail, rest)))),
            Either(FirstOpening(v), FirstOpeningMembers(tail)), rest)
    decreases members, 0
  {
    hide Reads, FirstOpening, PrintTo;
    var MCons(_, _, gap, sep, v, post, tail) := members;
    var after := AfterMember(tail, rest);
    var more := Either(FirstOpening(v), FirstOpeningMembers(tail));
    ReadsAfterMember(tail, rest);
    ReadsValue(sep, v, post, after, FirstOpeningMembers(tail), rest);
    var t := sep + PrintTo(v, post + after);
    WsNoBrace(gap);
    ReadsPast(":", t);
    ReadsPast(gap, ":" + t);
    ReadsThen(":" + t, None, t, more, rest);
    ReadsThen(gap + (":" + t), None, ":" + t, more, rest);
  }

  lemma {:induction false} ReadsAfterMember(tail: Members, rest: string)
    requires WellFormedMembers(tail)
    ensures Reads(AfterMember(tail, rest), FirstOpeningMembers(tail), rest)
    decreases tail, 2
  {
    if tail.MCons? {
      hide Reads, FirstOpeningMembers, MembersTo;
      ReadsMembers(tail, rest);
      ReadsPast(",", MembersTo(tail, rest));
      ReadsThen("," + MembersTo(tail, rest), None, MembersTo(tail, rest), FirstOpeningMembers(tail), rest);
    } else {
      NothingRead(rest);
    }
  }

  lemma NothingRead(rest: string)
    ensures Reads(rest, None, rest)
  {}

  // ---------- the text after the first token ----------

  /** No string up to the first token that equals the key ends in a double quote followed by `key`. */
  predicate CleanBefore(d: Doc, key: string)
    decreases d
  {
    match d
    case DStr(s) => !EndsLikeKey(s, key)
    case DAtom(_) => true
    case DArr(_, items) => CleanBeforeItems(items, key)
    case DObj(_, members) => CleanBeforeMembers(members, key)
  }

  predicate CleanBeforeItems(items: Items, key: string)
    decreases items
  {
    match items
    case INil => true
    case ICons(_, v, _, tail) => CleanBefore(v, key) && (RestOf(v, key).Missing? ==> CleanBeforeItems(tail, key))
  }

  predicate CleanBeforeMembers(members: Members, key: string)
    decreases members
  {
    match members
    case MNil => true
    case MCons(_, k, _, _, v, _, tail) =>
      && !EndsLikeKey(k, key)
      && (k != key ==> CleanBefore(v, key) && (RestOf(v, key).Missing? ==> CleanBeforeMembers(tail, key)))
  }

  /** The search for the quoted key and then for a brace behaves as `r` says. */
  ghost predicate Goes(text: string, key: string, r: Rest, rest: string) {
    match r
    case Missing => AfterToken(text, key) == AfterToken(rest, key)
    case After(next) => AfterToken(text, key).Some? && Reads(AfterToken(text, key).value, next, rest)
  }

  /** Text before the token is passed over. */
  lemma GoesPast(w: string, t: string, key: string, r: Rest, rest: string)
    requires NoQuote(w) && Goes(t, key, r, rest)
    ensures Goes(w + t, key, r, rest)
  {
    hide AfterToken, Reads;
    AfterTokenNoQuote(w, t, key);
  }

  lemma GoesOn(a: string, key: string, b: string, r: Rest, c: string)
    requires Goes(a, key, Missing, b) && Goes(b, key, r, c)
    ensures Goes(a, key, r, c)
  {}

  lemma GoesThen(a: string, key: string, r: Rest, b: string, more: Option<Opening>, c: string)
    requires Goes(a, key, r, b) && r.After? && Reads(b, more, c)
    ensures Goes(a, key, RestThen(r, more), c)
  {
    hide AfterToken, Reads;
    ReadsThen(AfterToken(a, key).value, r.next, b, more, c);
  }

  lemma {:induction false} GoesDoc(d: Doc, rest: string, key: string)
    requires WellFormed(d) && IsKey(key) && CleanBefore(d, key) && FollowsToken(rest)
    ensures Goes(PrintTo(d, rest), key, RestOf(d, key), rest)
    decreases d, 0
  {
    match d
    case DStr(s) =>
      LiteralToken(s, rest, key);
      NothingRead(rest);
    case DAtom(text) =>
      AtomChars(text);
      AfterTokenNoQuote(text, rest, key);
    case DArr(ws, items) =>
      GoesItems(items, "]" + rest, key);
      GoesAround("[", ws, ItemsTo(items, "]" + rest), key, RestOfItems(items, key), "]", rest);
    case DObj(ws, members) =>
      GoesMembers(members, "}" + rest, key);
      GoesAround("{", ws, MembersTo(members, "}" + rest), key, RestOfMembers(members, key), "}", rest);
  }

  /** The brackets of an array or object. */
  lemma GoesAround(open: string, ws: string, inner: string, key: string, r: Rest, close: string, rest: string)
    requires NoQuote(open) && NoQuote(close) && NoBrace(close) && AllWs(ws) && Goes(inner, key, r, close + rest)
    ensures Goes(open + (ws + inner), key, r, rest)
  {
    hide Goes;
    GoesEnd(inner, key, r, close, rest);
    WsNoQuote(ws);
    GoesPast(ws, inner, key, r, rest);
    GoesPast(open, ws + inner, key, r, rest);
  }

  lemma GoesEnd(inner: string, key: string, r: Rest, close: string, rest: string)
    requires NoQuote(close) && NoBrace(close) && Goes(inner, key, r, close + rest)
    ensures Goes(inner, key, r, rest)
  {
    hide AfterToken, Reads;
    AfterTokenNoQuote(close, rest, key);
    ReadsPast(close, rest);
    match r
    case Missing =>
    case After(next) => ReadsThen(AfterToken(inner, key).value, next, close + rest, None, rest);
  }

  lemma PunctuationFollows(c: char, rest: string)
    requires c == ',' || c == ']' || c == '}'
    ensures FollowsToken([c] + rest)
  {}

  lemma {:induction false} GoesItems(items: Items, rest: string, key: string)
    requires WellFormedItems(items) && IsKey(key) && CleanBeforeItems(items, key) && FollowsToken(rest)
    ensures Goes(ItemsTo(items, rest), key, RestOfItems(items, key), rest)
    decreases items, 0
  {
    if items.ICons? {
      hide Goes, PrintTo, RestOf, CleanBefore;
      var after := AfterItem(items.tail, rest);
      if items.tail.ICons? {
        PunctuationFollows(',', ItemsTo(items.tail, rest));
      }
      GoesValue(items.pre, items.v, items.post, after, key);
      if RestOf(items.v, key).Missing? {
        GoesAfterItem(items.tail, rest, key);
        GoesOn(ItemsTo(items, rest), key, after, RestOfItems(items.tail, key), rest);
      } else {
        ReadsAfterItem(items.tail, rest);
        GoesThen(ItemsTo(items, rest), key, RestOf(items.v, key), after, FirstOpeningItems(items.tail), rest);
      }
    } else {
      NotInRest(rest, key);
    }
  }

  lemma NotInRest(rest: string, key: string)
    ensures Goes(rest, key, Missing, rest)
  {}

  lemma {:induction false} GoesAfterItem(tail: Items, rest: string, key: string)
    requires WellFormedItems(tail) && IsKey(key) && CleanBeforeItems(tail, key) && FollowsToken(rest)
    ensures Goes(AfterItem(tail, rest), key, RestOfItems(tail, key), rest)
    decreases tail, 1
  {
    hide Goes, RestOfItems, ItemsTo;
    if tail.ICons? {
      GoesItems(tail, rest, key);
      GoesPast(",", ItemsTo(tail, rest), key, RestOfItems(tail, key), rest);
    } else {
      NoItems(rest, key);
    }
  }

  lemma NoItems(rest: string, key: string)
    ensures Goes(rest, key, RestOfItems(INil, key), rest) && Goes(rest, key, RestOfMembers(MNil, key), rest)
  {}

  /** A value between white space. */
  lemma {:induction false} GoesValue(pre: string, v: Doc, post: string, after: string, key: string)
    requires WellFormed(v) && AllWs(pre) && AllWs(post) && IsKey(key) && CleanBefore(v, key) && FollowsToken(after)
    ensures Goes(pre + PrintTo(v, post + after), key, RestOf(v, key), after)
    decreases v, 1
  {
    hide Goes, RestOf, CleanBefore, PrintTo;
    WsFollowsToken(post, after);
    GoesDoc(v, post + after, key);
    WsNoQuote(post);
    WsNoBrace(post);
    GoesEnd(PrintTo(v, post + after), key, RestOf(v, key), post, after);
    WsNoQuote(pre);
    GoesPast(pre, PrintTo(v, post + after), key, RestOf(v, key), after);
  }

  lemma {:induction false} GoesMembers(members: Members, rest: string, key: string)
    requires WellFormedMembers(members) && IsKey(key) && CleanBeforeMembers(members, key) && FollowsToken(rest)
    ensures Goes(MembersTo(members, rest), key, RestOfMembers(members, key), rest)
    decreases members, 0
  {
    if members.MNil? {
      NotInRest(rest, key);
    } else if members.key == key {
      KeyHere(members, rest, key);
    } else {
      hide Goes, PrintTo, RestOf, CleanBefore, QuoteTo;
      var MCons(pre, k, gap, sep, v, post, tail) := members;
      var after := AfterMember(tail, rest);
      if tail.MCons? {
        PunctuationFollows(',', MembersTo(tail, rest));
      }
      GoesValue(sep, v, post, after, key);
      OtherKey(pre, k, gap, sep + PrintTo(v, post + after), key, RestOf(v, key), after);
      if RestOf(v, key).Missing? {
        GoesAfterMember(tail, rest, key);
        GoesOn(MembersTo(members, rest), key, after, RestOfMembers(tail, key), rest);
      } else {
        ReadsAfterMember(tail, rest);
        GoesThen(MembersTo(members, rest), key, RestOf(v, key), after, FirstOpeningMembers(tail), rest);
      }
    }
  }

  lemma {:induction false} GoesAfterMember(tail: Members, rest: string, key: string)
    requires WellFormedMembers(tail) && IsKey(key) && CleanBeforeMembers(tail, key) && FollowsToken(rest)
    ensures Goes(AfterMember(tail, rest), key, RestOfMembers(tail, key), rest)
    decreases tail, 1
  {
    hide Goes, RestOfMembers, MembersTo;
    if tail.MCons? {
      GoesMembers(tail, rest, key);
      GoesPast(",", MembersTo(tail, rest), key, RestOfMembers(tail, key), rest);
    } else {
      NoItems(rest, key);
    }
  }

  lemma KeyHere(members: Members, rest: string, key: string)
    requires members.MCons? && WellFormedMembers(members) && IsKey(key) && members.key == key
    ensures Goes(MembersTo(members, rest), key, RestOfMembers(members, key), rest)
  {
    hide Reads, PrintTo, FirstOpening, QuoteTo;
    var MCons(pre, k, gap, sep, v, post, tail) := members;
    var t := gap + (":" + (sep + PrintTo(v, post + AfterMember(tail, rest))));
    ReadsBound(members, rest);
    PlainKey(key, t);
    AfterTokenHere(t, key);
    WsNoQuote(pre);
    AfterTokenNoQuote(pre, QuoteTo(key, t), key);
  }

  /** A key that is not the one searched for. */
  lemma OtherKey(pre: string, k: string, gap: string, t: string, key: string, r: Rest, rest: string)
    requires AllWs(pre) && AllWs(gap) && IsKey(key) && k != key && !EndsLikeKey(k, key) && Goes(t, key, r, rest)
    ensures Goes(pre + QuoteTo(k, gap + (":" + t)), key, r, rest)
  {
    hide Goes, QuoteTo, EndsLikeKey;
    WsFollowsToken(gap, ":" + t);
    WsNoQuote(gap);
    WsNoQuote(pre);
    GoesPast(":", t, key, r, rest);
    GoesPast(gap, ":" + t, key, r, rest);
    PastLiteral(k, gap + (":" + t), key, r, rest);
    GoesPast(pre, QuoteTo(k, gap + (":" + t)), key, r, rest);
  }

  lemma PastLiteral(k: string, t: string, key: string, r: Rest, rest: string)
    requires IsKey(key) && k != key && !EndsLikeKey(k, key) && FollowsToken(t) && Goes(t, key, r, rest)
    ensures Goes(QuoteTo(k, t), key, r, rest)
  {
    hide AfterToken, Reads, QuoteTo;
    LiteralToken(k, t, key);
  }

  // ---------- the rest and the first token ----------

  /** The rest is missing exactly if the token is; after a key bound to an object that object begins first. */
  ghost predicate Fits(hit: Option<Hit<Doc>>, r: Rest) {
    && (hit.None? <==> r.Missing?)
    && (hit.Some? && hit.value.AsKey? && hit.value.v.DObj? ==> r == After(Some(AnObject(hit.value.v))))
  }

  lemma {:induction false} RestFits(d: Doc, key: string)
    ensures Fits(FirstTokenDoc(d, key), RestOf(d, key))
    decreases d
  {
    match d
    case DStr(_) =>
    case DAtom(_) =>
    case DArr(_, items) => RestFitsItems(items, key);
    case DObj(_, members) => RestFitsMembers(members, key);
  }

  lemma {:induction false} RestFitsItems(items: Items, key: string)
    ensures Fits(FirstTokenItems(items, key), RestOfItems(items, key))
    decreases items
  {
    if items.ICons? {
      RestFits(items.v, key);
      RestFitsItems(items.tail, key);
    }
  }

  lemma {:induction false} RestFitsMembers(members: Members, key: string)
    ensures Fits(FirstTokenMembers(members, key), RestOfMembers(members, key))
    decreases members
  {
    if members.MCons? {
      RestFits(members.v, key);
      RestFitsMembers(members.tail, key);
    }
  }

  lemma {:induction false} CleanIsBefore(d: Doc, key: string)
    requires Clean(d, key)
    ensures CleanBefore(d, key)
    decreases d
  {
    match d
    case DStr(_) =>
    case DAtom(_) =>
    case DArr(_, items) => CleanIsBeforeItems(items, key);
    case DObj(_, members) => CleanIsBeforeMembers(members, key);
  }

  lemma {:induction false} CleanIsBeforeItems(items: Items, key: string)
    requires CleanItems(items, key)
    ensures CleanBeforeItems(items, key)
    decreases items
  {
    if items.ICons? {
      CleanIsBefore(items.v, key);
      CleanIsBeforeItems(items.tail, key);
    }
  }

  lemma {:induction false} CleanIsBeforeMembers(members: Members, key: string)
    requires CleanMembers(members, key)
    ensures CleanBeforeMembers(members, key)
    decreases members
  {
    if members.MCons? {
      CleanIsBefore(members.v, key);
      CleanIsBeforeMembers(members.tail, key);
    }
  }

  /** The object of an opening is a well-formed part of the document. */
  predicate IsPart(next: Option<Opening>, k: string) {
    next.Some? && next.value.AnObject? ==>
      next.value.o.DObj? && WellFormed(next.value.o) && Clean(next.value.o, k)
  }

  lemma {:induction false} OpeningIsPart(d: Doc, k: string)
    requires WellFormed(d) && Clean(d, k)
    ensures IsPart(FirstOpening(d), k)
    decreases d
  {
    match d
    case DArr(_, items) => OpeningIsPartItems(items, k);
    case _ =>
  }

  lemma {:induction false} OpeningIsPartItems(items: Items, k: string)
    requires WellFormedItems(items) && CleanItems(items, k)
    ensures IsPart(FirstOpeningItems(items), k)
    decreases items
  {
    if items.ICons? {
      OpeningIsPart(items.v, k);
      OpeningIsPartItems(items.tail, k);
    }
  }

  lemma {:induction false} OpeningIsPartMembers(members: Members, k: string)
    requires WellFormedMembers(members) && CleanMembers(members, k)
    ensures IsPart(FirstOpeningMembers(members), k)
    decreases members
  {
    if members.MCons? {
      OpeningIsPart(members.v, k);
      OpeningIsPartMembers(members.tail, k);
    }
  }

  lemma {:induction false} RestIsPart(d: Doc, key: string, k: string)
    requires WellFormed(d) && Clean(d, k)
    ensures RestOf(d, key).After? ==> IsPart(RestOf(d, key).next, k)
    decreases d
  {
    match d
    case DArr(_, items) => RestIsPartItems(items, key, k);
    case DObj(_, members) => RestIsPartMembers(members, key, k);
    case _ =>
  }

  lemma {:induction false} RestIsPartItems(items: Items, key: string, k: string)
    requires WellFormedItems(items) && CleanItems(items, k)
    ensures RestOfItems(items, key).After? ==> IsPart(RestOfItems(items, key).next, k)
    decreases items
  {
    if items.ICons? {
      RestIsPart(items.v, key, k);
      RestIsPartItems(items.tail, key, k);
      OpeningIsPartItems(items.tail, k);
    }
  }

  lemma {:induction false} RestIsPartMembers(members: Members, key: string, k: string)
    requires WellFormedMembers(members) && CleanMembers(members, k)
    ensures RestOfMembers(members, key).After? ==> IsPart(RestOfMembers(members, key).next, k)
    decreases members
  {
    if members.MCons? {
      RestIsPart(members.v, key, k);
      RestIsPartMembers(members.tail, key, k);
      OpeningIsPart(members.v, k);
      OpeningIsPartMembers(members.tail, k);
    }
  }

  // ---------- find_capability_block on a document ----------

  lemma BlockAfterToken(text: string, key: string)
    requires IsKey(key) && |key| + 2 <= BLOCK_NEEDLE_MAX
    ensures CapabilityBlock(text, key) ==
            match AfterToken(text, key) case None => None case Some(t) => BlockAfter(t)
  {
    hide Block;
    NeedleFits(key, BLOCK_NEEDLE_MAX);
    match Find(text, Quoted(key))
    case None =>
    case Some(i) =>
      var head, t := Quoted(key), AfterToken(text, key).value;
      assert text[i..] == head + t;
      var n := Span(t, c => c != '{');
      SpanUnique(head + t, c => c != '{', |head| + n);
      assert n < |t| ==> text[i + |head| + n..] == t[n..];
  }

  ghost predicate Cuts(block: Option<string>, next: Option<Opening>) {
    match next
    case None => block == None
    case Some(opening) => CutsAt(block, opening)
  }

  ghost predicate CutsAt(block: Option<string>, opening: Opening) {
    match opening
    case AnObject(o) => block == Some(Print(o))
    case InString(u) => exists r: string :: block == Block(EscapeTo(u, r))
  }

  /** `find_capability_block` returns the printed object that begins next after the first token equal to the key. If a
      string holds the next brace, the scan starts inside that string; without a further brace there is no block. */
  lemma BlockInDoc(before: string, d: Doc, after: string, key: string)
    requires WellFormed(d) && AllWs(before) && AllWs(after)
    requires IsKey(key) && CleanBefore(d, key) && |key| + 2 <= BLOCK_NEEDLE_MAX
    ensures Cuts(CapabilityBlock(Printed(before, d, after), key), NextOpening(d, key))
  {
    hide RestOf, CleanBefore, PrintTo, Block, CapabilityBlock, AfterToken, EscapeTo;
    assert after + "" == after;
    WsFollowsToken(after, "");
    GoesDoc(d, after, key);
    WsNoQuote(after);
    WsNoBrace(after);
    hide Goes;
    GoesEnd(PrintTo(d, after), key, RestOf(d, key), after, "");
    WsNoQuote(before);
    GoesPast(before, PrintTo(d, after), key, RestOf(d, key), "");
    BlockAfterToken(Printed(before, d, after), key);
    GoesCuts(Printed(before, d, after), key, RestOf(d, key));
  }

  lemma GoesCuts(text: string, key: string, r: Rest)
    requires Goes(text, key, r, "")
    ensures var block := match AfterToken(text, key) case None => None case Some(t) => BlockAfter(t);
      Cuts(block, match r case Missing => None case After(next) => next)
  {
    hide Block, EscapeTo, Print;
    SpanUnique("", c => c != '{', 0);
    assert !Occurs("", Quoted(key), 0);
  }

  /** The object that begins next after the first token equal to the key. */
  function NextObject(d: Doc, key: string): Option<Doc> {
    match NextOpening(d, key)
    case None => None
    case Some(opening) => if opening.AnObject? then Some(opening.o) else None
  }

  /** The next opening brace after the token, if there is one, is no part of a string. */
  predicate NoStringNext(d: Doc, key: string) {
    NextOpening(d, key).Some? ==> NextOpening(d, key).value.AnObject?
  }

  /** The first token equal to `key`, if there is one, is a key bound to an object. */
  predicate ObjectOrAbsent(v: Json, key: string) {
    FirstToken(v, key).None? || TreeObject(v, key).Some?
  }

  /** An object bound to the key is the next one. */
  lemma BoundIsNext(d: Doc, key: string)
    ensures TreeObject(Value(d), key).Some? ==>
              NextObject(d, key).Some? && TreeObject(Value(d), key) == Some(Value(NextObject(d, key).value))
    ensures ObjectOrAbsent(Value(d), key) ==> NoStringNext(d, key)
    ensures FirstToken(Value(d), key).None? ==> NextOpening(d, key) == None
  {
    hide RestOf, FirstToken, FirstTokenDoc;
    FirstTokenOfValue(d, key);
    RestFits(d, key);
  }

  /** The block is the text of the next object, and it is a part of the document. */
  lemma NextObjectInDoc(before: string, d: Doc, after: string, key: string, k: string)
    requires WellFormed(d) && AllWs(before) && AllWs(after) && Searchable(d, key) && |key| + 2 <= BLOCK_NEEDLE_MAX
    requires NoStringNext(d, key) && Clean(d, k)
    ensures CapabilityBlock(Printed(before, d, after), key) ==
            match NextObject(d, key) case None => None case Some(o) => Some(Print(o))
    ensures NextObject(d, key).Some? ==>
              NextObject(d, key).value.DObj? && WellFormed(NextObject(d, key).value) && Clean(NextObject(d, key).value, k)
  {
    hide RestOf, CleanBefore, Clean, CapabilityBlock, Printed;
    CleanIsBefore(d, key);
    BlockInDoc(before, d, after, key);
    RestIsPart(d, key, k);
  }

  /** The text has a block exactly when the tree has an object, unless the first token equal to the key is no key of an
      object and some object begins behind it. An object that the tree has is the one in the block. */
  lemma BlockAgreesIff(before: string, d: Doc, after: string, key: string)
    requires WellFormed(d) && AllWs(before) && AllWs(after) && Searchable(d, key) && |key| + 2 <= BLOCK_NEEDLE_MAX
    requires NoStringNext(d, key)
    ensures (CapabilityBlock(Printed(before, d, after), key).Some? == TreeObject(Value(d), key).Some?) <==>
            ObjectOrAbsent(Value(d), key) || NextObject(d, key).None?
    ensures TreeObject(Value(d), key).Some? ==>
              exists o :: TreeObject(Value(d), key) == Some(Value(o)) &&
                          CapabilityBlock(Printed(before, d, after), key) == Some(Print(o))
  {
    hide NextObject, TreeObject, FirstToken, CapabilityBlock, Clean, NoStringNext;
    NextObjectInDoc(before, d, after, key, key);
    BoundIsNext(d, key);
    if FirstToken(Value(d), key).None? {
      AbsentHasNone(d, key);
    }
  }

  lemma AbsentHasNone(d: Doc, key: string)
    requires FirstToken(Value(d), key).None?
    ensures NextObject(d, key).None? && TreeObject(Value(d), key).None?
  {
    BoundIsNext(d, key);
  }

  /** When a string holds the next brace and braces balance within the plain part of it, that part is the block: the
      text has one although the tree has no object. */
  lemma BlockInText(before: string, d: Doc, after: string, key: string, n: nat)
    requires WellFormed(d) && AllWs(before) && AllWs(after) && Searchable(d, key) && |key| + 2 <= BLOCK_NEEDLE_MAX
    requires NextOpening(d, key).Some? && NextOpening(d, key).value.InString?
    requires var u := NextOpening(d, key).value.text; IsBlock(u, n) && PlainText(u[..n])
    ensures CapabilityBlock(Printed(before, d, after), key) == Some(NextOpening(d, key).value.text[..n])
    ensures TreeObject(Value(d), key) == None
  {
    hide RestOf, CleanBefore, Clean, CapabilityBlock, Printed, EscapeTo, IsBlock, TreeObject;
    CleanIsBefore(d, key);
    BlockInDoc(before, d, after, key);
    var u := NextOpening(d, key).value.text;
    var r: string :| CapabilityBlock(Printed(before, d, after), key) == Block(EscapeTo(u, r));
    BlockOfPlain(u, n, r);
    BoundIsNext(d, key);
  }

  /** Characters that are printed as they are. */
  predicate PlainText(s: string) {
    forall c | c in s :: EscapeChar(c) == [c]
  }

  lemma {:induction false} PlainPrinted(s: string, n: nat, rest: string)
    requires n <= |s| && PlainText(s[..n])
    ensures EscapeTo(s, rest) == s[..n] + EscapeTo(s[n..], rest)
    decreases n
  {
    hide EscapeChar;
    if n == 0 {
      assert s[0..] == s;
      EmptyLeft(EscapeTo(s, rest));
    } else {
      assert s[..n] == [s[0]] + s[1..][..n - 1];
      assert s[0] in s[..n] && forall c | c in s[1..][..n - 1] :: c in s[..n];
      PlainPrinted(s[1..], n - 1, rest);
      assert s[1..][n - 1..] == s[n..];
    }
  }

  lemma BlockOfPlain(u: string, n: nat, r: string)
    requires IsBlock(u, n) && PlainText(u[..n])
    ensures Block(EscapeTo(u, r)) == Some(u[..n])
  {
    hide Depth, EscapeTo, PlainText;
    PlainPrinted(u, n, r);
    var t := EscapeTo(u, r);
    forall m: nat | m <= n ensures t[..m] == u[..m] {
      assert t[..m] == u[..n][..m];
    }
    BlockUnique(t, n);
  }

  // ---------- the lookups on a document ----------

  /** The command found in the next object, or in the discovery object that begins next in it. */
  function DocCommand(d: Doc, capability: string, field: string): Option<string> {
    match NextObject(d, capability)
    case None => None
    case Some(o) =>
      match TreeString(Value(o), field)
      case Some(s) => Some(s)
      case None =>
        if field != "discovery.command" then None else
        match NextObject(o, "discovery")
        case None => None
        case Some(discovery) => TreeString(Value(discovery), "command")
  }

  function DocTtl(d: Doc, capability: string, fallback: int): int {
    match NextObject(d, capability)
    case None => fallback
    case Some(o) =>
      match NextObject(o, "discovery")
      case None => fallback
      case Some(discovery) => TreeInteger(Value(discovery), "cache_ttl_sec", fallback)
  }

  /** The strings that the discovery lookups pass over. */
  predicate DiscoverySearchable(d: Doc, field: string, o: Doc) {
    Searchable(d, "discovery") && Searchable(d, field) && NoStringNext(o, "discovery")
  }

  /** For any tree and any layout of it, searching the text gives the command in the next objects. */
  lemma CommandInNext(before: string, d: Doc, after: string, capability: string, field: string)
    requires WellFormed(d) && AllWs(before) && AllWs(after)
    requires Searchable(d, capability) && |capability| + 2 <= BLOCK_NEEDLE_MAX && NoStringNext(d, capability)
    requires Searchable(d, field) && |field| + 2 <= NEEDLE_MAX
    requires field == "discovery.command" && NextObject(d, capability).Some? &&
             TreeString(Value(NextObject(d, capability).value), field).None? ==>
               DiscoverySearchable(d, "command", NextObject(d, capability).value)
    requires DocCommand(d, capability, field).Some? ==> Decodable(DocCommand(d, capability, field).value)
    ensures CommandValue(Printed(before, d, after), capability, field) == DocCommand(d, capability, field)
  {
    hide NextObject, NoStringNext, TreeString, Clean, WellFormed, PrintTo, CapabilityBlock, StringValue, Value, Decodable,
      IsKey;
    NextObjectInDoc(before, d, after, capability, field);
    match NextObject(d, capability)
    case None =>
    case Some(o) =>
      PrintedAlone(o);
      StringInDoc("", o, "", field);
      if TreeString(Value(o), field).None? && field == "discovery.command" {
        NextObjectInDoc(before, d, after, capability, "discovery");
        NextObjectInDoc(before, d, after, capability, "command");
        DiscoveryCommand(o);
      }
  }

  lemma PrintedAlone(o: Doc)
    ensures Printed("", o, "") == Print(o)
  {
    EmptyLeft(Print(o));
  }

  lemma DiscoveryCommand(o: Doc)
    requires WellFormed(o) && Searchable(o, "discovery") && Searchable(o, "command") && NoStringNext(o, "discovery")
    requires NextObject(o, "discovery").Some? && TreeString(Value(NextObject(o, "discovery").value), "command").Some? ==>
               Decodable(TreeString(Value(NextObject(o, "discovery").value), "command").value)
    ensures (match CapabilityBlock(Print(o), "discovery") case None => None case Some(block) => StringValue(block, "command"))
            == match NextObject(o, "discovery") case None => None case Some(q) => TreeString(Value(q), "command")
  {
    hide NextObject, NoStringNext, TreeString, Clean, WellFormed, PrintTo, CapabilityBlock, StringValue, Value, Decodable,
      IsKey;
    PrintedAlone(o);
    NextObjectInDoc("", o, "", "discovery", "command");
    match NextObject(o, "discovery")
    case None =>
    case Some(q) =>
      PrintedAlone(q);
      StringInDoc("", q, "", "command");
  }

  lemma TtlInNext(before: string, d: Doc, after: string, capability: string, fallback: int)
    requires WellFormed(d) && AllWs(before) && AllWs(after)
    requires Searchable(d, capability) && |capability| + 2 <= BLOCK_NEEDLE_MAX && NoStringNext(d, capability)
    requires NextObject(d, capability).Some? ==>
               DiscoverySearchable(d, "cache_ttl_sec", NextObject(d, capability).value)
    ensures TtlValue(Printed(before, d, after), capability, fallback) == DocTtl(d, capability, fallback)
  {
    hide NextObject, NoStringNext, TreeInteger, Clean, WellFormed, PrintTo, CapabilityBlock, IntegerValue, Value, IsKey;
    NextObjectInDoc(before, d, after, capability, capability);
    match NextObject(d, capability)
    case None =>
    case Some(o) =>
      NextObjectInDoc(before, d, after, capability, "discovery");
      NextObjectInDoc(before, d, after, capability, "cache_ttl_sec");
      DiscoveryTtl(o, fallback);
  }

  lemma DiscoveryTtl(o: Doc, fallback: int)
    requires WellFormed(o) && Searchable(o, "discovery") && Searchable(o, "cache_ttl_sec") && NoStringNext(o, "discovery")
    ensures (match CapabilityBlock(Print(o), "discovery")
             case None => fallback
             case Some(block) => IntegerValue(block, "cache_ttl_sec", fallback))
            == match NextObject(o, "discovery")
               case None => fallback
               case Some(q) => TreeInteger(Value(q), "cache_ttl_sec", fallback)
  {
    hide NextObject, NoStringNext, TreeInteger, Clean, WellFormed, PrintTo, CapabilityBlock, IntegerValue, Value, IsKey;
    PrintedAlone(o);
    NextObjectInDoc("", o, "", "discovery", "cache_ttl_sec");
    match NextObject(o, "discovery")
    case None =>
    case Some(q) =>
      PrintedAlone(q);
      IntegerInDoc("", q, "", "cache_ttl_sec", fallback);
  }

  // ---------- when they find what the tree has ----------

  /** The lookup takes an object that the tree does not bind to the capability, or not to its discovery. */
  predicate Strays(d: Doc, capability: string) {
    || !ObjectOrAbsent(Value(d), capability)
    || (TreeObject(Value(d), capability).Some? && !ObjectOrAbsent(TreeObject(Value(d), capability).value, "discovery"))
  }

  /** The nested lookup is made only for this field, and only if the capability itself does not have it. */
  predicate CommandStrays(d: Doc, capability: string, field: string) {
    || !ObjectOrAbsent(Value(d), capability)
    || (field == "discovery.command" && Strays(d, capability) &&
        TreeString(TreeObject(Value(d), capability).value, field).None?)
  }

  lemma CommandOfDoc(d: Doc, capability: string, field: string)
    ensures CommandStrays(d, capability, field) ==> TreeCommand(Value(d), capability, field) == None
    ensures !CommandStrays(d, capability, field) ==>
              DocCommand(d, capability, field) == TreeCommand(Value(d), capability, field)
  {
    hide NextObject, NextOpening, TreeString, FirstToken, Value;
    BoundIsNext(d, capability);
    if FirstToken(Value(d), capability).None? {
      AbsentHasNone(d, capability);
    }
    if TreeObject(Value(d), capability).Some? {
      var o := NextObject(d, capability).value;
      BoundIsNext(o, "discovery");
      if FirstToken(Value(o), "discovery").None? {
        AbsentHasNone(o, "discovery");
      }
    }
  }

  /** The text gives the command that the tree has, unless the lookup strays to an object that has one. */
  lemma CommandInDocIff(before: string, d: Doc, after: string, capability: string, field: string)
    requires WellFormed(d) && AllWs(before) && AllWs(after)
    requires Searchable(d, capability) && |capability| + 2 <= BLOCK_NEEDLE_MAX && NoStringNext(d, capability)
    requires Searchable(d, field) && |field| + 2 <= NEEDLE_MAX
    requires field == "discovery.command" && NextObject(d, capability).Some? &&
             TreeString(Value(NextObject(d, capability).value), field).None? ==>
               DiscoverySearchable(d, "command", NextObject(d, capability).value)
    requires DocCommand(d, capability, field).Some? ==> Decodable(DocCommand(d, capability, field).value)
    ensures CommandValue(Printed(before, d, after), capability, field) == TreeCommand(Value(d), capability, field) <==>
            !(CommandStrays(d, capability, field) && DocCommand(d, capability, field).Some?)
  {
    hide DocCommand, CommandStrays, TreeCommand, Searchable, NoStringNext, NextObject, CommandValue, Printed, Value,
      TreeString, DiscoverySearchable, Decodable;
    CommandInNext(before, d, after, capability, field);
    CommandOfDoc(d, capability, field);
  }

  lemma TtlOfDoc(d: Doc, capability: string, fallback: int)
    ensures Strays(d, capability) ==> TreeTtl(Value(d), capability, fallback) == fallback
    ensures !Strays(d, capability) ==> DocTtl(d, capability, fallback) == TreeTtl(Value(d), capability, fallback)
  {
    hide NextObject, NextOpening, TreeInteger, FirstToken, Value;
    BoundIsNext(d, capability);
    if FirstToken(Value(d), capability).None? {
      AbsentHasNone(d, capability);
    }
    if TreeObject(Value(d), capability).Some? {
      var o := NextObject(d, capability).value;
      BoundIsNext(o, "discovery");
      if FirstToken(Value(o), "discovery").None? {
        AbsentHasNone(o, "discovery");
      }
    }
  }

  /** The text gives the time to live that the tree has, unless the lookup strays to an object with another one. */
  lemma TtlInDocIff(before: string, d: Doc, after: string, capability: string, fallback: int)
    requires WellFormed(d) && AllWs(before) && AllWs(after)
    requires Searchable(d, capability) && |capability| + 2 <= BLOCK_NEEDLE_MAX && NoStringNext(d, capability)
    requires NextObject(d, capability).Some? ==>
               DiscoverySearchable(d, "cache_ttl_sec", NextObject(d, capability).value)
    ensures TtlValue(Printed(before, d, after), capability, fallback) == TreeTtl(Value(d), capability, fallback) <==>
            !(Strays(d, capability) && DocTtl(d, capability, fallback) != fallback)
  {
    hide DocTtl, Strays, TreeTtl, Searchable, NoStringNext, NextObject, TtlValue, Printed, Value, DiscoverySearchable;
    TtlInNext(before, d, after, capability, fallback);
    TtlOfDoc(d, capability, fallback);
  }

  /** In particular for a capability that is an object or absent. Only the command itself has to be free of control
      bytes the decoder does not know. */
  lemma CommandInDoc(before: string, d: Doc, after: string, capability: string, field: string)
    requires WellFormed(d) && AllWs(before) && AllWs(after)
    requires Searchable(d, capability) && |capability| + 2 <= BLOCK_NEEDLE_MAX
    requires Searchable(d, field) && |field| + 2 <= NEEDLE_MAX
    requires ObjectOrAbsent(Value(d), capability)
    requires field == "discovery.command" && TreeObject(Value(d), capability).Some? ==>
               && Searchable(d, "discovery") && Searchable(d, "command")
               && ObjectOrAbsent(TreeObject(Value(d), capability).value, "discovery")
    requires TreeCommand(Value(d), capability, field).Some? ==>
               Decodable(TreeCommand(Value(d), capability, field).value)
    ensures CommandValue(Printed(before, d, after), capability, field) == TreeCommand(Value(d), capability, field)
  {
    hide DocCommand, TreeCommand, TreeObject, Searchable, NextOpening, CommandValue, Printed, Value, FirstToken, Decodable;
    BoundIsNext(d, capability);
    CommandOfDoc(d, capability, field);
    if NextObject(d, capability).Some? {
      NextIsBound(d, capability);
      BoundIsNext(NextObject(d, capability).value, "discovery");
    }
    CommandInNext(before, d, after, capability, field);
  }

  lemma NextIsBound(d: Doc, key: string)
    requires ObjectOrAbsent(Value(d), key) && NextObject(d, key).Some?
    ensures TreeObject(Value(d), key) == Some(Value(NextObject(d, key).value))
  {
    BoundIsNext(d, key);
  }

  /** Likewise for the lifetime of a discovery result. */
  lemma TtlInDoc(before: string, d: Doc, after: string, capability: string, fallback: int)
    requires WellFormed(d) && AllWs(before) && AllWs(after)
    requires Searchable(d, capability) && |capability| + 2 <= BLOCK_NEEDLE_MAX
    requires ObjectOrAbsent(Value(d), capability)
    requires TreeObject(Value(d), capability).Some? ==>
               && Searchable(d, "discovery") && Searchable(d, "cache_ttl_sec")
               && ObjectOrAbsent(TreeObject(Value(d), capability).value, "discovery")
    ensures TtlValue(Printed(before, d, after), capability, fallback) == TreeTtl(Value(d), capability, fallback)
  {
    hide DocTtl, TreeTtl, TreeObject, Searchable, NextOpening, TtlValue, Printed, Value, FirstToken;
    BoundIsNext(d, capability);
    if NextObject(d, capability).Some? {
      NextIsBound(d, capability);
      BoundIsNext(NextObject(d, capability).value, "discovery");
    }
    TtlOfDoc(d, capability, fallback);
    TtlInNext(before, d, after, capability, fallback);
  }

  // ---------- straying inputs ----------

  /** A document with a capability bound to an atom and another member behind it. */
  function TwoMembers(key: string, text: string, other: string, v: Doc): Doc {
    DObj("", MCons("", key, "", "", DAtom(text), "", MCons("", other, "", "", v, "", MNil)))
  }

  lemma NextOfTwo(key: string, text: string, other: string, v: Doc)
    requires IsKey(key) && IsKey(other) && v.DObj?
    ensures var d := TwoMembers(key, text, other, v);
      && CleanBefore(d, key) && NextOpening(d, key) == Some(AnObject(v)) && TreeObject(Value(d), key) == None
  {
    var d := TwoMembers(key, text, other, v);
    FirstTokenOfValue(d, key);
    assert FirstTokenDoc(d, key) == Some(AsKey(DAtom(text))) && Value(DAtom(text)) == Atom(text);
    assert !EndsLikeKey(key, key);
    var last := MCons("", other, "", "", v, "", MNil);
    SpanUnique(other, c => c != '{', |other|);
    assert InText(other) == None && FirstOpening(v) == Some(AnObject(v)) && FirstOpening(DAtom(text)) == None;
    assert FirstOpeningMembers(last) == Some(AnObject(v));
    assert RestOfMembers(d.members, key) == After(Some(AnObject(v)));
    assert RestOf(d, key) == After(Some(AnObject(v)));
  }

  /** A capability bound to a number, `true`, `false` or `null` gets the object of the member that follows, although the
      tree has no object for it. */
  lemma NextObjectTaken(key: string, text: string, other: string, ws: string, members: Members)
    requires IsKey(key) && |key| + 2 <= BLOCK_NEEDLE_MAX && IsKey(other) && IsAtom(text)
    requires AllWs(ws) && WellFormedMembers(members)
    ensures var d := TwoMembers(key, text, other, DObj(ws, members));
      && TreeObject(Value(d), key) == None
      && CapabilityBlock(Print(d), key) == Some(Print(DObj(ws, members)))
  {
    var d := TwoMembers(key, text, other, DObj(ws, members));
    NextOfTwo(key, text, other, DObj(ws, members));
    assert WellFormed(DObj(ws, members)) && WellFormed(DAtom(text));
    assert WellFormedMembers(MCons("", other, "", "", DObj(ws, members), "", MNil));
    assert WellFormedMembers(d.members);
    hide TwoMembers, CleanBefore, NextOpening, WellFormed;
    PrintedAlone(d);
    BlockInDoc("", d, "", key);
  }

  /** And with it that member's command, although the tree has none. */
  lemma NextCommandTaken(key: string, text: string, other: string, field: string, command: string)
    requires IsKey(key) && |key| + 2 <= BLOCK_NEEDLE_MAX && IsKey(other) && IsAtom(text)
    requires IsKey(field) && |field| + 2 <= NEEDLE_MAX && Decodable(command) && !EndsLikeKey(command, field)
    ensures var d := TwoMembers(key, text, other, OneMember(field, command));
      CommandValue(Print(d), key, field) == Some(command) && TreeCommand(Value(d), key, field) == None
  {
    var o := OneMember(field, command);
    OneMemberFacts(field, command);
    NextObjectTaken(key, text, other, "", o.members);
    hide *;
    PrintedAlone(o);
    CommandOfBlock(o, TwoMembers(key, text, other, o), key, field, command);
  }

  function OneMember(field: string, command: string): (o: Doc)
    ensures o.DObj? && o.ws == ""
  {
    DObj("", MCons("", field, "", "", DStr(command), "", MNil))
  }

  lemma OneMemberFacts(field: string, command: string)
    requires IsKey(field) && !EndsLikeKey(command, field)
    ensures var o := OneMember(field, command);
      && WellFormed(o) && WellFormedMembers(o.members) && Searchable(o, field)
      && TreeString(Value(o), field) == Some(command)
  {
    var o := OneMember(field, command);
    assert !EndsLikeKey(field, field);
    assert Clean(DStr(command), field) && CleanMembers(o.members, field);
    FirstTokenOfValue(o, field);
    assert FirstTokenDoc(o, field) == Some(AsKey(DStr(command)));
  }

  lemma CommandOfBlock(o: Doc, d: Doc, key: string, field: string, command: string)
    requires CapabilityBlock(Print(d), key) == Some(Print(o)) && TreeObject(Value(d), key) == None
    requires Printed("", o, "") == Print(o) && WellFormed(o) && Searchable(o, field) && |field| + 2 <= NEEDLE_MAX
    requires TreeString(Value(o), field) == Some(command) && Decodable(command)
    ensures CommandValue(Print(d), key, field) == Some(command) && TreeCommand(Value(d), key, field) == None
  {
    hide Print, Printed, CapabilityBlock, StringValue, Value, TreeString, Searchable, WellFormed, Decodable;
    StringInDoc("", o, "", field);
  }
}
