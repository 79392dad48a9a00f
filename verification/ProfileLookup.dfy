/** Searching the text of a profile finds what looking it up in the JSON tree finds.

    The lookups of src/profile.c and src/json_util.c never parse the profile. Here a profile is a document with any
    layout, a lookup in its tree is defined without reference to any text, and the textual lookups are shown to agree
    with it. */
module ProfileLookup {
  import opened CStrings
  import opened Json
  import opened JsonUtil
  import opened Profile

  // ---------- looking up in a tree ----------

  /** How a string token occurs in a tree: as a value, or as a key with the value bound to it. */
  datatype Hit<V> = AsValue | AsKey(v: V)

  /** The first string token of `v`, in the order of the text, that equals `key`. */
  function FirstToken(v: Json, key: string): Option<Hit<Json>>
    decreases v
  {
    match v
    case Str(s) => if s == key then Some(AsValue) else None
    case Atom(_) => None
    case Arr(items) => FirstInItems(items, key)
    case Obj(members) => FirstInMembers(members, key)
  }

  function FirstInItems(items: seq<Json>, key: string): Option<Hit<Json>>
    decreases items
  {
    if items == [] then None else
    match FirstToken(items[0], key)
    case Some(hit) => Some(hit)
    case None => FirstInItems(items[1..], key)
  }

  function FirstInMembers(members: seq<Entry>, key: string): Option<Hit<Json>>
    decreases members
  {
    if members == [] then None else
    if members[0].key == key then Some(AsKey(members[0].v)) else
    match FirstToken(members[0].v, key)
    case Some(hit) => Some(hit)
    case None => FirstInMembers(members[1..], key)
  }

  /** The string bound to `key`, provided the first token that equals `key` is a key. */
  function TreeString(v: Json, key: string): Option<string> {
    match FirstToken(v, key)
    case Some(AsKey(Str(s))) => Some(s)
    case _ => None
  }

  /** The object bound to `key`, provided the first token that equals `key` is a key. */
  function TreeObject(v: Json, key: string): Option<Json> {
    match FirstToken(v, key)
    case Some(AsKey(Obj(members))) => Some(Obj(members))
    case _ => None
  }

  /** The integer bound to `key`; a value that is not a number counts as 0, a missing one as the fallback. */
  function TreeInteger(v: Json, key: string, fallback: int): int {
    match FirstToken(v, key)
    case Some(AsKey(Atom(text))) => Atoi(text)
    case Some(AsKey(_)) => 0
    case _ => fallback
  }

  /** The command a profile gives for a capability. */
  function TreeCommand(profile: Json, capability: string, field: string): Option<string> {
    match TreeObject(profile, capability)
    case None => None
    case Some(block) =>
      match TreeString(block, field)
      case Some(s) => Some(s)
      case None =>
        if field != "discovery.command" then None else
        match TreeObject(block, "discovery")
        case None => None
        case Some(discovery) => TreeString(discovery, "command")
  }

  function TreeTtl(profile: Json, capability: string, fallback: int): int {
    match TreeObject(profile, capability)
    case None => fallback
    case Some(block) =>
      match TreeObject(block, "discovery")
      case None => fallback
      case Some(discovery) => TreeInteger(discovery, "cache_ttl_sec", fallback)
  }

  // ---------- the lookups of profile.c ----------

  ghost function CommandValue(json: string, capability: string, field: string): Option<string> {
    match CapabilityBlock(json, capability)
    case None => None
    case Some(block) =>
      match StringValue(block, field)
      case Some(s) => Some(s)
      case None =>
        if field != "discovery.command" then None else
        match CapabilityBlock(block, "discovery")
        case None => None
        case Some(discovery) => StringValue(discovery, "command")
  }

  ghost function TtlValue(json: string, capability: string, fallback: int): int {
    match CapabilityBlock(json, capability)
    case None => fallback
    case Some(block) =>
      match CapabilityBlock(block, "discovery")
      case None => fallback
      case Some(discovery) => IntegerValue(discovery, "cache_ttl_sec", fallback)
  }

  /** `profile_get_capability_command`. */
  method GetCapabilityCommand(json: string, capability: string, field: string) returns (r: Option<string>)
    ensures r == CommandValue(json, capability, field)
  {
    var block := FindCapabilityBlock(json, capability);
    if block.None? {
      return None;
    }
    r := JsonGetString(block.value, field);
    if r.None? && field == "discovery.command" {
      var discovery := FindCapabilityBlock(block.value, "discovery");
      if discovery.Some? {
        r := JsonGetString(discovery.value, "command");
      }
    }
  }

  /** `profile_get_capability_ttl`. */
  method GetCapabilityTtl(json: string, capability: string, fallback: int) returns (ttl: int)
    ensures ttl == TtlValue(json, capability, fallback)
  {
    var block := FindCapabilityBlock(json, capability);
    if block.None? {
      return fallback;
    }
    ttl := fallback;
    var discovery := FindCapabilityBlock(block.value, "discovery");
    if discovery.Some? {
      ttl := JsonGetInt(discovery.value, "cache_ttl_sec", fallback);
    }
  }

  // ---------- tokens of a document ----------

  function FirstTokenDoc(d: Doc, key: string): Option<Hit<Doc>>
    decreases d
  {
    match d
    case DStr(s) => if s == key then Some(AsValue) else None
    case DAtom(_) => None
    case DArr(_, items) => FirstTokenItems(items, key)
    case DObj(_, members) => FirstTokenMembers(members, key)
  }

  function FirstTokenItems(items: Items, key: string): Option<Hit<Doc>>
    decreases items
  {
    match items
    case INil => None
    case ICons(_, v, _, tail) =>
      match FirstTokenDoc(v, key)
      case Some(hit) => Some(hit)
      case None => FirstTokenItems(tail, key)
  }

  function FirstTokenMembers(members: Members, key: string): Option<Hit<Doc>>
    decreases members
  {
    match members
    case MNil => None
    case MCons(_, k, _, _, v, _, tail) =>
      if k == key then Some(AsKey(v)) else
      match FirstTokenDoc(v, key)
      case Some(hit) => Some(hit)
      case None => FirstTokenMembers(tail, key)
  }

  function HitValue(hit: Option<Hit<Doc>>): Option<Hit<Json>> {
    match hit
    case None => None
    case Some(AsValue) => Some(AsValue)
    case Some(AsKey(d)) => Some(AsKey(Value(d)))
  }

  /** The layout of a document has no influence on its tokens. */
  lemma {:induction false} FirstTokenOfValue(d: Doc, key: string)
    ensures FirstToken(Value(d), key) == HitValue(FirstTokenDoc(d, key))
    decreases d
  {
    match d
    case DStr(_) =>
    case DAtom(_) =>
    case DArr(_, items) => FirstTokenOfItems(items, key);
    case DObj(_, members) => FirstTokenOfMembers(members, key);
  }

  lemma {:induction false} FirstTokenOfItems(items: Items, key: string)
    ensures FirstInItems(ItemValues(items), key) == HitValue(FirstTokenItems(items, key))
    decreases items
  {
    if items.ICons? {
      FirstTokenOfValue(items.v, key);
      FirstTokenOfItems(items.tail, key);
      assert ItemValues(items)[1..] == ItemValues(items.tail);
    }
  }

  lemma {:induction false} FirstTokenOfMembers(members: Members, key: string)
    ensures FirstInMembers(MemberValues(members), key) == HitValue(FirstTokenMembers(members, key))
    decreases members
  {
    if members.MCons? {
      FirstTokenOfValue(members.v, key);
      FirstTokenOfMembers(members.tail, key);
      assert MemberValues(members)[1..] == MemberValues(members.tail);
    }
  }

  // ---------- occurrences of a quoted key in a text ----------

  /** Keys are made of letters, digits, dots and underscores. */
  predicate IsKeyChar(c: char) {
    IsDigit(c) || 'a' <= c <= 'z' || 'A' <= c <= 'Z' || c == '.' || c == '_'
  }

  predicate IsKey(key: string) {
    forall i: nat | i < |key| :: IsKeyChar(key[i])
  }

  function Quoted(key: string): string {
    "\"" + key + "\""
  }

  /** A string whose printed form ends like the quoted key. */
  predicate EndsLikeKey(s: string, key: string) {
    |key| < |s| && s[|s| - |key| - 1..] == "\"" + key
  }

  /** No string of the document, key or value, ends in a double quote followed by `key`. */
  predicate Clean(d: Doc, key: string)
    decreases d
  {
    match d
    case DStr(s) => !EndsLikeKey(s, key)
    case DAtom(_) => true
    case DArr(_, items) => CleanItems(items, key)
    case DObj(_, members) => CleanMembers(members, key)
  }

  predicate CleanItems(items: Items, key: string)
    decreases items
  {
    match items
    case INil => true
    case ICons(_, v, _, tail) => Clean(v, key) && CleanItems(tail, key)
  }

  predicate CleanMembers(members: Members, key: string)
    decreases members
  {
    match members
    case MNil => true
    case MCons(_, k, _, _, v, _, tail) => !EndsLikeKey(k, key) && Clean(v, key) && CleanMembers(tail, key)
  }

  /** The text after the first occurrence of the quoted key. */
  function AfterToken(text: string, key: string): Option<string> {
    match Find(text, Quoted(key))
    case None => None
    case Some(i) => Some(text[i + |key| + 2..])
  }

  lemma AfterTokenHere(rest: string, key: string)
    ensures AfterToken(Quoted(key) + rest, key) == Some(rest)
  {
    var text := Quoted(key) + rest;
    assert text[0..] == text;
    FindUnique(text, Quoted(key), 0);
  }

  /** Text in which the quoted key does not start can be skipped. */
  lemma AfterTokenSkip(w: string, rest: string, key: string)
    requires forall j: nat | j < |w| :: !Occurs(w + rest, Quoted(key), j)
    ensures AfterToken(w + rest, key) == AfterToken(rest, key)
  {
    var needle := Quoted(key);
    forall j: nat | j <= |rest|
      ensures Occurs(w + rest, needle, |w| + j) == Occurs(rest, needle, j)
    {
      assert (w + rest)[|w| + j..] == rest[j..];
    }
    match Find(rest, needle)
    case Some(i) =>
      forall j: nat | j < |w| + i
        ensures !Occurs(w + rest, needle, j)
      {
        if j >= |w| {
          assert !Occurs(rest, needle, j - |w|);
        }
      }
      FindUnique(w + rest, needle, |w| + i);
      assert (w + rest)[|w| + i + |key| + 2..] == rest[i + |key| + 2..];
    case None =>
      assert forall j: nat :: Occurs(w + rest, needle, j) ==> j < |w| || Occurs(rest, needle, j - |w|);
  }

  ghost predicate NoQuote(w: string) {
    forall i: nat | i < |w| :: w[i] != '"'
  }

  lemma AfterTokenNoQuote(w: string, rest: string, key: string)
    requires NoQuote(w)
    ensures AfterToken(w + rest, key) == AfterToken(rest, key)
  {
    forall j: nat | j < |w|
      ensures !Occurs(w + rest, Quoted(key), j)
    {
      assert (w + rest)[j..][0] == w[j];
      assert Quoted(key)[0] == '"';
    }
    AfterTokenSkip(w, rest, key);
  }

  /** What may follow a token: the end, white space, or punctuation. */
  predicate FollowsToken(rest: string) {
    rest == "" || (!IsKeyChar(rest[0]) && rest[0] != '"')
  }

  /** Inside a literal, key and closing quote match exactly when they are all that is left of it. */
  lemma {:induction false} KeyMatchesBody(s: string, rest: string, key: string)
    requires IsKey(key)
    ensures key + "\"" <= EscapeTo(s, "\"" + rest) <==> s == key
  {
    var text := EscapeTo(s, "\"" + rest);
    if key == "" {
      assert key + "\"" == "\"";
      assert s != "" ==> text[0] == EscapeChar(s[0])[0] != '"';
    } else if s == "" {
      assert (key + "\"")[0] == key[0] && text[0] == '"';
      assert IsKeyChar(key[0]);
    } else {
      var tail := EscapeTo(s[1..], "\"" + rest);
      assert (key + "\"")[0] == key[0];
      assert (key + "\"")[1..] == key[1..] + "\"";
      assert IsKeyChar(key[0]);
      assert text[0] == EscapeChar(s[0])[0];
      if s[0] == key[0] {
        assert text == [key[0]] + tail;
        KeyMatchesBody(s[1..], rest, key[1..]);
        HeadPrefix(key + "\"", text);
        assert s == [s[0]] + s[1..] && key == [key[0]] + key[1..];
      }
    }
  }

  lemma HeadPrefix(p: string, t: string)
    requires p != "" && t != "" && p[0] == t[0]
    ensures p <= t <==> p[1..] <= t[1..]
  {
    if p[1..] <= t[1..] {
      assert p == [p[0]] + p[1..] && t == [t[0]] + t[1..];
    }
  }

  lemma OccursAtQuote(text: string, key: string)
    ensures Occurs(text, Quoted(key), 0) <==> text != "" && text[0] == '"' && key + "\"" <= text[1..]
  {
    assert text[0..] == text;
    assert Quoted(key)[1..] == key + "\"";
    assert Quoted(key)[0] == '"';
    if text != "" && text[0] == '"' {
      HeadPrefix(Quoted(key), text);
    }
  }

  /** One character in which the quoted key does not start. */
  lemma AfterTokenChar(c: char, rest: string, key: string)
    requires c == '"' ==> !(key + "\"" <= rest)
    ensures AfterToken([c] + rest, key) == AfterToken(rest, key)
  {
    OccursAtQuote([c] + rest, key);
    assert ([c] + rest)[1..] == rest;
    AfterTokenSkip([c], rest, key);
  }

  /** The body of a literal that neither is the key nor ends like it, with its closing quote. */
  lemma {:induction false} SkipBody(s: string, rest: string, key: string)
    requires IsKey(key) && !EndsLikeKey(s, key) && FollowsToken(rest)
    ensures AfterToken(EscapeTo(s, "\"" + rest), key) == AfterToken(rest, key)
  {
    hide EscapeChar, AfterToken;
    if s == "" {
      NoKeyAtToken(rest, key);
      AfterTokenChar('"', rest, key);
    } else {
      var c, tail := s[0], EscapeTo(s[1..], "\"" + rest);
      EndsLikeKeyTail(s, key);
      SkipBody(s[1..], rest, key);
      if c == '"' {
        KeyMatchesBody(s[1..], rest, key);
        SkipEscapedQuote(tail, key);
      } else {
        EscapeNoQuote(c);
        AfterTokenNoQuote(EscapeChar(c), tail, key);
      }
    }
  }

  lemma NoKeyAtToken(rest: string, key: string)
    requires IsKey(key) && FollowsToken(rest)
    ensures !(key + "\"" <= rest)
  {
    assert (key + "\"")[0] == if key == "" then '"' else key[0];
  }

  lemma EndsLikeKeyTail(s: string, key: string)
    requires s != "" && !EndsLikeKey(s, key)
    ensures !EndsLikeKey(s[1..], key)
    ensures s[0] == '"' ==> s[1..] != key
  {
    if |key| < |s| - 1 {
      assert s[|s| - |key| - 1..] == s[1..][|s[1..]| - |key| - 1..];
    }
    assert s == [s[0]] + s[1..];
  }

  lemma EscapeNoQuote(c: char)
    requires c != '"'
    ensures NoQuote(EscapeChar(c))
  {}

  lemma SkipEscapedQuote(tail: string, key: string)
    requires !(key + "\"" <= tail)
    ensures AfterToken(EscapeChar('"') + tail, key) == AfterToken(tail, key)
  {
    AfterTokenChar('"', tail, key);
    AfterTokenChar('\\', "\"" + tail, key);
    assert EscapeChar('"') + tail == "\\" + ("\"" + tail);
  }

  /** A string literal: its text is skipped unless it is the key. */
  lemma LiteralToken(s: string, rest: string, key: string)
    requires IsKey(key) && !EndsLikeKey(s, key) && FollowsToken(rest)
    ensures AfterToken(QuoteTo(s, rest), key) == if s == key then Some(rest) else AfterToken(rest, key)
  {
    var body := EscapeTo(s, "\"" + rest);
    KeyMatchesBody(s, rest, key);
    if s == key {
      PlainKey(key, rest);
      AfterTokenHere(rest, key);
    } else {
      AfterTokenChar('"', body, key);
      SkipBody(s, rest, key);
    }
  }

  /** A key is printed as it is. */
  lemma {:induction false} PlainKeyBody(key: string, rest: string)
    requires IsKey(key)
    ensures EscapeTo(key, rest) == key + rest
  {
    if key == "" {
      assert "" + rest == rest;
    } else {
      PlainKeyBody(key[1..], rest);
      assert [key[0]] + (key[1..] + rest) == key + rest;
    }
  }

  lemma PlainKey(key: string, rest: string)
    requires IsKey(key)
    ensures QuoteTo(key, rest) == Quoted(key) + rest
  {
    PlainKeyBody(key, "\"" + rest);
    assert "\"" + (key + ("\"" + rest)) == Quoted(key) + rest;
  }

  // ---------- the first token in a printed document ----------

  /** `t` is what follows a key whose value is `v`. */
  predicate BoundTo(t: string, v: Doc, gap: string, sep: string, rest: string) {
    AllWs(gap) && AllWs(sep) && t == gap + (":" + (sep + PrintTo(v, rest))) && EndsAtom(rest)
  }

  /** `t` is the text after the given occurrence of a token. */
  ghost predicate AfterHit(hit: Hit<Doc>, t: string) {
    match hit
    case AsValue => ValueAfterKey(t) == None
    case AsKey(v) => exists gap, sep, rest :: BoundTo(t, v, gap, sep, rest)
  }

  /** The search behaves as the hit says; without a hit it goes on in `rest`. */
  ghost predicate Finds(text: string, key: string, hit: Option<Hit<Doc>>, rest: string) {
    match hit
    case None => AfterToken(text, key) == AfterToken(rest, key)
    case Some(h) => AfterToken(text, key).Some? && AfterHit(h, AfterToken(text, key).value)
  }

  /** What may follow a value in a document. */
  predicate FollowsValue(rest: string) {
    FollowsToken(rest) && EndsAtom(rest) && ValueAfterKey(rest) == None
  }

  lemma WsFollowsToken(ws: string, rest: string)
    requires AllWs(ws) && FollowsToken(rest)
    ensures FollowsToken(ws + rest)
  {
    if ws != "" {
      assert ws[0] in ws;
    }
  }

  lemma WsSkipSpace(ws: string, rest: string)
    requires AllWs(ws)
    ensures SkipSpace(ws + rest) == SkipSpace(rest)
  {
    assert forall i: nat | i < |ws| :: ws[i] in ws;
    var n := Span(rest, IsSpace);
    SpanUnique(ws + rest, IsSpace, |ws| + n);
    assert (ws + rest)[|ws| + n..] == rest[n..];
  }

  lemma WsFollowsValue(ws: string, rest: string)
    requires AllWs(ws) && FollowsValue(rest)
    ensures FollowsValue(ws + rest)
  {
    WsFollowsToken(ws, rest);
    WsEndsAtom(ws, rest);
    WsSkipSpace(ws, rest);
  }

  lemma PunctuationFollowsValue(c: char, rest: string)
    requires c == ',' || c == ']' || c == '}'
    ensures FollowsValue([c] + rest)
  {
    SpanUnique([c] + rest, IsSpace, 0);
    assert SkipSpace([c] + rest)[0] == c;
  }

  lemma WsNoQuote(ws: string)
    requires AllWs(ws)
    ensures NoQuote(ws)
  {
    assert forall i: nat | i < |ws| :: ws[i] in ws;
  }

  lemma {:induction false} SearchDoc(d: Doc, rest: string, key: string)
    requires WellFormed(d) && IsKey(key) && Clean(d, key) && FollowsValue(rest)
    ensures Finds(PrintTo(d, rest), key, FirstTokenDoc(d, key), rest)
    decreases d
  {
    match d
    case DStr(s) =>
      LiteralToken(s, rest, key);
    case DAtom(text) =>
      AtomChars(text);
      AfterTokenNoQuote(text, rest, key);
    case DArr(ws, items) =>
      var close := "]" + rest;
      PunctuationFollowsValue(']', rest);
      SearchItems(items, close, key);
      SkipOpening("[", ws, ItemsTo(items, close), key);
      AfterTokenNoQuote("]", rest, key);
    case DObj(ws, members) =>
      var close := "}" + rest;
      PunctuationFollowsValue('}', rest);
      SearchMembers(members, close, key);
      SkipOpening("{", ws, MembersTo(members, close), key);
      AfterTokenNoQuote("}", rest, key);
  }

  lemma SkipOpening(open: string, ws: string, inner: string, key: string)
    requires NoQuote(open) && AllWs(ws)
    ensures AfterToken(open + (ws + inner), key) == AfterToken(inner, key)
  {
    AfterTokenNoQuote(open, ws + inner, key);
    WsNoQuote(ws);
    AfterTokenNoQuote(ws, inner, key);
  }

  lemma {:induction false} SearchItems(items: Items, rest: string, key: string)
    requires WellFormedItems(items) && IsKey(key) && CleanItems(items, key) && FollowsValue(rest)
    ensures Finds(ItemsTo(items, rest), key, FirstTokenItems(items, key), rest)
    decreases items
  {
    if items.ICons? {
      var ICons(pre, v, post, tail) := items;
      var after := AfterItem(tail, rest);
      if tail.ICons? {
        PunctuationFollowsValue(',', ItemsTo(tail, rest));
        SearchItems(tail, rest, key);
        AfterTokenNoQuote(",", ItemsTo(tail, rest), key);
      }
      WsFollowsValue(post, after);
      SearchDoc(v, post + after, key);
      WsNoQuote(pre);
      WsNoQuote(post);
      AfterTokenNoQuote(pre, PrintTo(v, post + after), key);
      AfterTokenNoQuote(post, after, key);
      assert tail.INil? ==> after == rest && FirstTokenItems(tail, key) == None;
      assert FirstTokenDoc(v, key).None? ==> Finds(ItemsTo(items, rest), key, FirstTokenItems(tail, key), rest);
    }
  }

  lemma {:induction false} SearchMembers(members: Members, rest: string, key: string)
    requires WellFormedMembers(members) && IsKey(key) && CleanMembers(members, key) && FollowsValue(rest)
    ensures Finds(MembersTo(members, rest), key, FirstTokenMembers(members, key), rest)
    decreases members
  {
    if members.MCons? {
      var MCons(pre, k, gap, sep, v, post, tail) := members;
      var after := AfterMember(tail, rest);
      if tail.MCons? {
        PunctuationFollowsValue(',', MembersTo(tail, rest));
        SearchMembers(tail, rest, key);
        AfterTokenNoQuote(",", MembersTo(tail, rest), key);
      }
      WsFollowsValue(post, after);
      SearchDoc(v, post + after, key);
      WsNoQuote(pre);
      WsNoQuote(post);
      AfterTokenNoQuote(post, after, key);
      SearchKey(pre, k, gap, sep, v, post + after, key);
      assert tail.MNil? ==> after == rest && FirstTokenMembers(tail, key) == None;
      assert k != key && FirstTokenDoc(v, key).None? ==>
          Finds(MembersTo(members, rest), key, FirstTokenMembers(tail, key), rest);
    }
  }

  /** A key with its value: the search stops at the key or goes on in the value. */
  lemma SearchKey(pre: string, k: string, gap: string, sep: string, v: Doc, rest: string, key: string)
    requires AllWs(pre) && AllWs(gap) && AllWs(sep) && IsKey(key) && !EndsLikeKey(k, key) && EndsAtom(rest)
    ensures var text := pre + QuoteTo(k, gap + (":" + (sep + PrintTo(v, rest))));
      if k == key then AfterToken(text, key).Some? && AfterHit(AsKey(v), AfterToken(text, key).value)
      else AfterToken(text, key) == AfterToken(PrintTo(v, rest), key)
  {
    var value := PrintTo(v, rest);
    var afterKey := gap + (":" + (sep + value));
    WsNoQuote(pre);
    AfterTokenNoQuote(pre, QuoteTo(k, afterKey), key);
    WsFollowsToken(gap, ":" + (sep + value));
    LiteralToken(k, afterKey, key);
    if k == key {
      assert BoundTo(afterKey, v, gap, sep, rest);
    } else {
      WsNoQuote(gap);
      AfterTokenNoQuote(gap, ":" + (sep + value), key);
      SkipOpening(":", sep, value, key);
    }
  }

  // ---------- textual lookup is tree lookup ----------

  /** The key can be searched for in the document: no string ends like it. */
  predicate Searchable(d: Doc, key: string) {
    IsKey(key) && Clean(d, key)
  }

  /** A printed document, with white space around it. */
  function Printed(before: string, d: Doc, after: string): string {
    before + PrintTo(d, after)
  }

  lemma SearchPrinted(before: string, d: Doc, after: string, key: string)
    requires WellFormed(d) && AllWs(before) && AllWs(after) && Searchable(d, key)
    ensures Finds(Printed(before, d, after), key, FirstTokenDoc(d, key), "")
    ensures AfterToken("", key) == None
  {
    assert after + "" == after;
    WsFollowsValue(after, "");
    SearchDoc(d, after, key);
    WsNoQuote(after);
    AfterTokenNoQuote(after, "", key);
    WsNoQuote(before);
    AfterTokenNoQuote(before, PrintTo(d, after), key);
  }

  lemma NeedleFits(key: string, max: nat)
    requires |key| + 2 <= max
    ensures Needle(key, max) == Quoted(key) && |Quoted(key)| == |key| + 2
  {}

  lemma FindKeyIsAfterToken(text: string, key: string)
    requires |key| + 2 <= NEEDLE_MAX
    ensures FindKeyValue(text, key) ==
            match AfterToken(text, key) case None => None case Some(t) => ValueAfterKey(t)
  {
    NeedleFits(key, NEEDLE_MAX);
  }

  lemma ValueOfBound(t: string, v: Doc, gap: string, sep: string, rest: string)
    requires BoundTo(t, v, gap, sep, rest) && WellFormed(v)
    ensures ValueAfterKey(t) == Some(PrintTo(v, rest))
  {
    var value := PrintTo(v, rest);
    PrintStarts(v, rest);
    PrintStartsNoSpace(v, rest);
    WsSkipSpace(gap, ":" + (sep + value));
    SpanUnique(":" + (sep + value), IsSpace, 0);
    DropHead(":", sep + value);
    WsSkipSpace(sep, value);
    SpanUnique(value, IsSpace, 0);
    assert value[0..] == value;
  }

  lemma PrintStartsNoSpace(d: Doc, rest: string)
    requires WellFormed(d)
    ensures PrintTo(d, rest) != "" && !IsSpace(PrintTo(d, rest)[0])
    ensures PrintTo(d, rest)[0] == '"' <==> d.DStr?
    ensures PrintTo(d, rest)[0] == '{' <==> d.DObj?
  {
    if d.DAtom? {
      AtomChars(d.text);
      assert IsAtomChar(d.text[0]);
    }
  }

  /** The text that is found for a key: the value bound to it, if the first token that equals it is a key. */
  lemma FindKeyInDoc(before: string, d: Doc, after: string, key: string) returns (rest: string)
    requires WellFormed(d) && AllWs(before) && AllWs(after) && Searchable(d, key) && |key| + 2 <= NEEDLE_MAX
    ensures FirstToken(Value(d), key) == HitValue(FirstTokenDoc(d, key))
    ensures EndsAtom(rest)
    ensures var hit, found := FirstTokenDoc(d, key), FindKeyValue(Printed(before, d, after), key);
      if hit.Some? && hit.value.AsKey? then WellFormed(hit.value.v) && found == Some(PrintTo(hit.value.v, rest))
      else found == None
  {
    var text := Printed(before, d, after);
    SearchPrinted(before, d, after, key);
    FirstTokenOfValue(d, key);
    FindKeyIsAfterToken(text, key);
    rest := "";
    match FirstTokenDoc(d, key)
    case Some(AsKey(v)) =>
      var gap, sep, r :| BoundTo(AfterToken(text, key).value, v, gap, sep, r);
      rest := r;
      SubDocument(d, key, v);
      ValueOfBound(AfterToken(text, key).value, v, gap, sep, r);
    case _ =>
  }

  /** `json_get_string` returns what the tree has. */
  lemma StringInDoc(before: string, d: Doc, after: string, key: string)
    requires WellFormed(d) && AllWs(before) && AllWs(after) && Searchable(d, key) && |key| + 2 <= NEEDLE_MAX
    requires TreeString(Value(d), key).Some? ==> Decodable(TreeString(Value(d), key).value)
    ensures StringValue(Printed(before, d, after), key) == TreeString(Value(d), key)
  {
    var rest := FindKeyInDoc(before, d, after, key);
    match FirstTokenDoc(d, key)
    case Some(AsKey(v)) =>
      PrintStartsNoSpace(v, rest);
      if v.DStr? {
        DecodeEscaped(v.s, rest);
        DropHead("\"", EscapeTo(v.s, "\"" + rest));
      }
    case _ =>
  }

  /** `json_get_int` returns what the tree has. */
  lemma IntegerInDoc(before: string, d: Doc, after: string, key: string, fallback: int)
    requires WellFormed(d) && AllWs(before) && AllWs(after) && Searchable(d, key) && |key| + 2 <= NEEDLE_MAX
    ensures IntegerValue(Printed(before, d, after), key, fallback) == TreeInteger(Value(d), key, fallback)
  {
    var rest := FindKeyInDoc(before, d, after, key);
    match FirstTokenDoc(d, key)
    case Some(AsKey(v)) => AtoiOfPrinted(v, rest);
    case _ =>
  }

  lemma AtoiUnspaced(s: string)
    requires s != "" && !IsSpace(s[0])
    ensures Atoi(s) == IntValue(s)
  {
    SpanUnique(s, IsSpace, 0);
    assert s[0..] == s;
  }

  lemma AtoiOfPrinted(v: Doc, rest: string)
    requires WellFormed(v) && EndsAtom(rest)
    ensures Atoi(PrintTo(v, rest)) == if v.DAtom? then Atoi(v.text) else 0
  {
    var text := PrintTo(v, rest);
    PrintStartsNoSpace(v, rest);
    AtoiUnspaced(text);
    if v.DAtom? {
      AtoiOfAtom(v.text, rest);
    } else {
      SpanUnique(text, IsDigit, 0);
      assert text[..0] == "";
    }
  }

  lemma AtoiOfAtom(s: string, rest: string)
    requires IsAtom(s) && EndsAtom(rest)
    ensures IntValue(s + rest) == Atoi(s)
  {
    hide ToInt, NatAt, IsAtom, DigitRun;
    AtomChars(s);
    assert IsAtomChar(s[0]);
    AtoiUnspaced(s);
    if s[0] == '-' || s[0] == '+' {
      assert (s + rest)[1..] == s[1..] + rest;
      NatAtExtended(s[1..], rest);
    } else {
      NatAtExtended(s, rest);
    }
  }

  lemma NatAtExtended(s: string, rest: string)
    requires EndsAtom(rest)
    ensures NatAt(s + rest) == NatAt(s)
  {
    var n := DigitRun(s);
    SpanUnique(s + rest, IsDigit, n);
    assert (s + rest)[..n] == s[..n];
  }

  /** The value bound to a key is part of the document. */
  lemma {:induction false} SubDocument(d: Doc, key: string, v: Doc)
    requires WellFormed(d) && FirstTokenDoc(d, key) == Some(AsKey(v))
    ensures WellFormed(v)
    ensures forall k :: Clean(d, k) ==> Clean(v, k)
    decreases d
  {
    match d
    case DStr(_) =>
    case DAtom(_) =>
    case DArr(_, items) => SubItems(items, key, v);
    case DObj(_, members) => SubMembers(members, key, v);
  }

  lemma {:induction false} SubItems(items: Items, key: string, v: Doc)
    requires WellFormedItems(items) && FirstTokenItems(items, key) == Some(AsKey(v))
    ensures WellFormed(v)
    ensures forall k :: CleanItems(items, k) ==> Clean(v, k)
    decreases items
  {
    if FirstTokenDoc(items.v, key).Some? {
      SubDocument(items.v, key, v);
    } else {
      SubItems(items.tail, key, v);
    }
  }

  lemma {:induction false} SubMembers(members: Members, key: string, v: Doc)
    requires WellFormedMembers(members) && FirstTokenMembers(members, key) == Some(AsKey(v))
    ensures WellFormed(v)
    ensures forall k :: CleanMembers(members, k) ==> Clean(v, k)
    decreases members
  {
    if members.key != key {
      if FirstTokenDoc(members.v, key).Some? {
        SubDocument(members.v, key, v);
      } else {
        SubMembers(members.tail, key, v);
      }
    }
  }
}
