/** The brace scanner on a printed object: it stops at the object's own closing brace. */
module PrintedBlocks {
  import opened CStrings
  import opened Json
  import opened Profile

  /** How many characters of `s` the scanner reads until the depth is 0, from a given mode and depth on. */
  function ScanFrom(s: string, mode: Mode, depth: int): (r: Option<nat>)
    ensures r.Some? ==> 0 < r.value <= |s|
  {
    if s == "" then None else
    var d := depth + if mode == Outside then BraceValue(s[0]) else 0;
    if d == 0 then Some(1) else Shift(1, ScanFrom(s[1..], Next(mode, s[0]), d))
  }

  function Shift(n: nat, r: Option<nat>): Option<nat> {
    match r
    case None => None
    case Some(m) => Some(n + m)
  }

  /** Scanning on from `text[..i]` finds the block of `text`. */
  lemma {:induction false} ScanIsBlock(text: string, i: nat)
    requires i <= |text|
    requires forall m: nat | 0 < m <= i :: Depth(text[..m]) != 0
    ensures var r := ScanFrom(text[i..], ModeAfter(text[..i]), Depth(text[..i]));
      r.Some? ==> IsBlock(text, i + r.value)
    decreases |text| - i
  {
    if i < |text| {
      DepthSnoc(text, i);
      assert text[i..][1..] == text[i + 1..];
      if Depth(text[..i + 1]) != 0 {
        ScanIsBlock(text, i + 1);
      }
    }
  }

  /** The scanner reads `text` up to `rest` without changing mode or depth. */
  ghost predicate Passes(text: string, rest: string, mode: Mode, depth: int) {
    |rest| <= |text| && ScanFrom(text, mode, depth) == Shift(|text| - |rest|, ScanFrom(rest, mode, depth))
  }

  lemma PassesTrans(a: string, b: string, c: string, mode: Mode, depth: int)
    requires Passes(a, b, mode, depth) && Passes(b, c, mode, depth)
    ensures Passes(a, c, mode, depth)
  {}

  ghost predicate NoCode(w: string) {
    forall i: nat | i < |w| :: w[i] != '"' && w[i] != '{' && w[i] != '}'
  }

  lemma {:induction false} PassesNoCode(w: string, rest: string, depth: int)
    requires NoCode(w) && depth != 0
    ensures Passes(w + rest, rest, Outside, depth)
  {
    if w == "" {
      assert w + rest == rest;
    } else {
      assert (w + rest)[1..] == w[1..] + rest;
      PassesNoCode(w[1..], rest, depth);
    }
  }

  lemma PassesWs(w: string, rest: string, depth: int)
    requires AllWs(w) && depth != 0
    ensures Passes(w + rest, rest, Outside, depth)
  {
    assert forall i: nat | i < |w| :: w[i] in w;
    PassesNoCode(w, rest, depth);
  }

  /** Inside a literal the scanner reads an escaped character as a whole. */
  lemma PassesEscape(c: char, rest: string, depth: int)
    requires depth != 0
    ensures Passes(EscapeChar(c) + rest, rest, Inside, depth)
  {
    var e := EscapeChar(c);
    if |e| == 1 {
      assert (e + rest)[1..] == rest;
    } else {
      var t := e[1..] + rest;
      assert (e + rest)[1..] == t;
      assert t[1..] == e[2..] + rest;
      if |e| == 2 {
        assert e[2..] + rest == rest;
      } else {
        PassesInside(e[2..], rest, depth);
      }
    }
  }

  lemma {:induction false} PassesInside(w: string, rest: string, depth: int)
    requires depth != 0
    requires forall i: nat | i < |w| :: w[i] != '"' && w[i] != '\\'
    ensures Passes(w + rest, rest, Inside, depth)
  {
    if w == "" {
      assert w + rest == rest;
    } else {
      assert (w + rest)[1..] == w[1..] + rest;
      PassesInside(w[1..], rest, depth);
    }
  }

  lemma {:induction false} PassesBody(s: string, rest: string, depth: int)
    requires depth != 0
    ensures Passes(EscapeTo(s, rest), rest, Inside, depth)
  {
    if s != "" {
      PassesEscape(s[0], EscapeTo(s[1..], rest), depth);
      PassesBody(s[1..], rest, depth);
    }
  }

  lemma PassesLiteral(s: string, rest: string, depth: int)
    requires depth != 0
    ensures Passes(QuoteTo(s, rest), rest, Outside, depth)
  {
    var closing := "\"" + rest;
    PassesBody(s, closing, depth);
    assert closing[1..] == rest;
    assert QuoteTo(s, rest)[1..] == EscapeTo(s, closing);
  }

  lemma {:induction false} PassesDoc(d: Doc, rest: string, depth: int)
    requires WellFormed(d) && depth > 0
    ensures Passes(PrintTo(d, rest), rest, Outside, depth)
    decreases d
  {
    match d
    case DStr(s) => PassesLiteral(s, rest, depth);
    case DAtom(text) =>
      AtomChars(text);
      PassesNoCode(text, rest, depth);
    case DArr(ws, items) =>
      PassesArray(ws, items, rest, depth);
    case DObj(ws, members) =>
      PassesObject(ws, members, rest, depth);
  }

  lemma {:induction false} PassesArray(ws: string, items: Items, rest: string, depth: int)
    requires AllWs(ws) && WellFormedItems(items) && depth > 0
    ensures Passes(PrintTo(DArr(ws, items), rest), rest, Outside, depth)
    decreases items, 1
  {
    hide ScanFrom;
    var close := "]" + rest;
    var body := ItemsTo(items, close);
    PassesNoCode("[", ws + body, depth);
    PassesWs(ws, body, depth);
    PassesItems(items, close, depth);
    PassesNoCode("]", rest, depth);
    PassesTrans(body, close, rest, Outside, depth);
    PassesTrans(ws + body, body, rest, Outside, depth);
    PassesTrans("[" + (ws + body), ws + body, rest, Outside, depth);
  }

  /** The braces of an object: one level deeper between them. */
  lemma {:induction false} PassesObject(ws: string, members: Members, rest: string, depth: int)
    requires AllWs(ws) && WellFormedMembers(members) && depth >= 0
    ensures var text := PrintTo(DObj(ws, members), rest);
      && |rest| < |text|
      && ScanFrom(text, Outside, depth) ==
         if depth == 0 then Some(|text| - |rest|) else Shift(|text| - |rest|, ScanFrom(rest, Outside, depth))
    decreases members, 1
  {
    var close := "}" + rest;
    var inner := ws + MembersTo(members, close);
    PassesInner(ws, members, close, depth + 1);
    DropHead("{", inner);
    DropHead("}", rest);
  }

  lemma {:induction false} PassesInner(ws: string, members: Members, close: string, depth: int)
    requires AllWs(ws) && WellFormedMembers(members) && depth > 0
    ensures Passes(ws + MembersTo(members, close), close, Outside, depth)
    decreases members, 0, 1
  {
    hide ScanFrom;
    PassesWs(ws, MembersTo(members, close), depth);
    PassesMembers(members, close, depth);
    PassesTrans(ws + MembersTo(members, close), MembersTo(members, close), close, Outside, depth);
  }

  lemma {:induction false} PassesItems(items: Items, rest: string, depth: int)
    requires WellFormedItems(items) && depth > 0
    ensures Passes(ItemsTo(items, rest), rest, Outside, depth)
    decreases items, 0
  {
    hide ScanFrom;
    if items.ICons? {
      var ICons(pre, v, post, tail) := items;
      var after := AfterItem(tail, rest);
      var value := PrintTo(v, post + after);
      PassesWs(pre, value, depth);
      PassesDoc(v, post + after, depth);
      PassesWs(post, after, depth);
      if tail.ICons? {
        PassesItems(tail, rest, depth);
        PassesComma(ItemsTo(tail, rest), rest, depth);
      }
      PassesTrans(value, post + after, after, Outside, depth);
      PassesTrans(value, after, rest, Outside, depth);
      PassesTrans(ItemsTo(items, rest), value, rest, Outside, depth);
    }
  }

  lemma PassesComma(text: string, rest: string, depth: int)
    requires depth > 0 && Passes(text, rest, Outside, depth)
    ensures Passes("," + text, rest, Outside, depth)
  {
    PassesNoCode(",", text, depth);
    PassesTrans("," + text, text, rest, Outside, depth);
  }

  lemma PassesKey(pre: string, key: string, gap: string, sep: string, value: string, depth: int)
    requires AllWs(pre) && AllWs(gap) && AllWs(sep) && depth > 0
    ensures Passes(pre + QuoteTo(key, gap + (":" + (sep + value))), value, Outside, depth)
  {
    hide ScanFrom;
    var colon := ":" + (sep + value);
    var quote := QuoteTo(key, gap + colon);
    PassesWs(pre, quote, depth);
    PassesLiteral(key, gap + colon, depth);
    PassesWs(gap, colon, depth);
    PassesNoCode(":", sep + value, depth);
    PassesWs(sep, value, depth);
    PassesTrans(pre + quote, quote, gap + colon, Outside, depth);
    PassesTrans(pre + quote, gap + colon, colon, Outside, depth);
    PassesTrans(pre + quote, colon, sep + value, Outside, depth);
    PassesTrans(pre + quote, sep + value, value, Outside, depth);
  }

  lemma {:induction false} PassesMembers(members: Members, rest: string, depth: int)
    requires WellFormedMembers(members) && depth > 0
    ensures Passes(MembersTo(members, rest), rest, Outside, depth)
    decreases members, 0, 0
  {
    hide ScanFrom;
    if members.MCons? {
      var MCons(pre, key, gap, sep, v, post, tail) := members;
      var after := AfterMember(tail, rest);
      var value := PrintTo(v, post + after);
      PassesKey(pre, key, gap, sep, value, depth);
      PassesDoc(v, post + after, depth);
      PassesWs(post, after, depth);
      if tail.MCons? {
        PassesMembers(tail, rest, depth);
        PassesComma(MembersTo(tail, rest), rest, depth);
      }
      PassesTrans(value, post + after, after, Outside, depth);
      PassesTrans(value, after, rest, Outside, depth);
      PassesTrans(MembersTo(members, rest), value, rest, Outside, depth);
    }
  }

  /** The block of a printed object is its text, whatever text follows it. */
  lemma BlockOfObject(ws: string, members: Members, rest: string)
    requires AllWs(ws) && WellFormedMembers(members)
    ensures Block(PrintTo(DObj(ws, members), rest)) == Some(Print(DObj(ws, members)))
  {
    var d := DObj(ws, members);
    var text := PrintTo(d, rest);
    PassesObject(ws, members, rest, 0);
    assert text[..0] == "" && text[0..] == text;
    ScanIsBlock(text, 0);
    var n := |text| - |rest|;
    BlockUnique(text, n);
    PrintToRest(d, "", rest);
    assert "" + rest == rest;
    assert (Print(d) + rest)[..n] == Print(d);
  }
}
