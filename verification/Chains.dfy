/** src/http.c: what a chain of token replacements means, and when it is one substitution. */
module Chains {
  import opened CStrings
  import opened Template

  // ---------- values that complete a token ----------

  /** One of two strings is a prefix of the other. */
  predicate Agree(s: string, t: string) {
    s <= t || t <= s
  }

  /**
   * Placed somewhere in a text, the value can be part of an occurrence of the token, and the text fits `max` bytes:
   * the value continues a token that begins before it, or the token begins within the value.
   */
  predicate Clashes(value: string, token: string, max: nat) {
    || (exists x: nat | 1 <= x < |token| :: Agree(token[x..], value) && |token| <= max && x + |value| <= max)
    || (exists p: nat | p < |value| :: Agree(value[p..], token) && |value| <= max && p + |token| <= max)
  }

  /** No value clashes with a token that is replaced after it. */
  predicate Compatible(bs: seq<Binding>, max: nat) {
    forall i: nat, j: nat | i < j < |bs| :: !Clashes(bs[i].value, bs[j].token, max)
  }

  /** A simple case: the value shares no character with the token at its start and opens no token. */
  predicate Inert(value: string, token: string) {
    value != "" && value[0] !in token && '{' !in value
  }

  lemma InertFits(value: string, token: string, max: nat)
    requires IsToken(token) && Inert(value, token)
    ensures !Clashes(value, token, max)
  {
    forall x: nat | 1 <= x < |token| ensures !Agree(token[x..], value) {
      assert token[x..][0] == token[x];
    }
    forall p: nat | p < |value| ensures !Agree(value[p..], token) {
      assert value[p..][0] == value[p] && value[p] in value;
    }
  }

  /** A value that an occurrence of the token begins in or before clashes with it. */
  lemma Continued(token: string, x: nat, value: string, rest: string, max: nat)
    requires 1 <= x < |token| && token[x..] <= value + rest && x + |value + rest| <= max
    ensures Clashes(value, token, max)
  {
    AgreeBefore(token[x..], value, rest);
  }

  lemma AgreeBefore(s: string, value: string, rest: string)
    requires s <= value + rest
    ensures Agree(s, value)
  {
    if |s| <= |value| {
      assert s == (value + rest)[..|s|] == value[..|s|];
    } else {
      assert value == (value + rest)[..|value|] == s[..|value|];
    }
  }

  lemma Opened(token: string, p: nat, value: string, rest: string, max: nat)
    requires p < |value| && token <= value[p..] + rest && |value + rest| <= max
    ensures Clashes(value, token, max)
  {
    AgreeBefore(token, value[p..], rest);
  }

  // ---------- one more token ----------

  /** A pass with one binding copies a value that its token does not begin in. */
  lemma {:induction false} ThroughValue(value: string, rest: string, b: Binding)
    requires IsToken(b.token) && forall p: nat | p < |value| :: !(b.token <= value[p..] + rest)
    ensures Subst(value + rest, [b]) == value + Subst(rest, [b])
    decreases |value|
  {
    if value == "" {
      assert "" + rest == rest && "" + Subst(rest, [b]) == Subst(rest, [b]);
    } else {
      var tail := value[1..];
      assert value[0..] == value && value + rest == [value[0]] + (tail + rest);
      forall p: nat | p < |tail| ensures !(b.token <= tail[p..] + rest) {
        assert tail[p..] == value[p + 1..];
      }
      ThroughValue(tail, rest, b);
      SubstOther(value[0], tail + rest, b);
      assert [value[0]] + (tail + Subst(rest, [b])) == value + Subst(rest, [b]);
    }
  }

  /** The rest of a token that stands in the result of a pass stands in its input. */
  lemma {:induction false} NotCompleted(token: string, x: nat, u: string, bs: seq<Binding>, max: nat)
    requires AreTokens(bs) && forall c | c in bs :: !Clashes(c.value, token, max)
    requires 1 <= x <= |token| && token[x..] <= Subst(u, bs) && x + |Subst(u, bs)| <= max
    ensures token[x..] <= u
    decreases |token| - x
  {
    hide Clashes, IsToken;
    if x < |token| {
      assert u != "";
      match Match(u, bs)
      case Some(c) =>
        Continued(token, x, c.value, Subst(u[|c.token|..], bs), max);
        assert false;
      case None =>
        assert token[x..][1..] == token[x + 1..] && Subst(u, bs)[1..] == Subst(u[1..], bs);
        NotCompleted(token, x + 1, u[1..], bs, max);
        assert token[x..] == [token[x]] + token[x + 1..] && u == [u[0]] + u[1..];
    }
  }

  lemma TokenKept(t: string, bs: seq<Binding>, token: string, max: nat)
    requires AreTokens(bs) && token != "" && forall c | c in bs :: !Clashes(c.value, token, max)
    requires t != "" && Match(t, bs).None? && token <= Subst(t, bs) && |Subst(t, bs)| <= max
    ensures token <= t
  {
    hide Clashes, IsToken;
    var s := Subst(t, bs);
    assert s[1..] == Subst(t[1..], bs);
    assert token[1..] <= s[1..];
    NotCompleted(token, 1, t[1..], bs, max);
    assert token == [t[0]] + token[1..] && t == [t[0]] + t[1..];
  }

  lemma NoNewToken(t: string, bs: seq<Binding>, b: Binding, max: nat)
    requires AreTokens(bs) && b.token != "" && forall c | c in bs :: !Clashes(c.value, b.token, max)
    requires t != "" && Match(t, bs).None? && !(b.token <= t) && |Subst(t, bs)| <= max
    ensures !(b.token <= [t[0]] + Subst(t[1..], bs))
  {
    hide Clashes, IsToken;
    if b.token <= Subst(t, bs) {
      TokenKept(t, bs, b.token, max);
      assert false;
    }
  }

  /** Replacing a further token in the result of a pass is the pass with that token added. */
  lemma {:induction false} OneMore(t: string, bs: seq<Binding>, b: Binding, max: nat)
    requires AreTokens(bs) && IsToken(b.token) && AreTokens(bs + [b])
    requires forall c | c in bs :: !Clashes(c.value, b.token, max)
    requires |Subst(t, bs)| <= max
    ensures Subst(Subst(t, bs), [b]) == Subst(t, bs + [b])
    decreases |t|
  {
    NotEmpty(b.token);
    hide Match, IsToken, Clashes;
    MatchSnoc(t, bs, b);
    if t == "" {
      return;
    }
    match Match(t, bs)
    case Some(c) =>
      NotEmpty(c.token);
      var rest := t[|c.token|..];
      OneMore(rest, bs, b, max);
      ValueKept(c.value, Subst(rest, bs), b, max);
    case None =>
      if b.token <= t {
        var rest := t[|b.token|..];
        TokenSurvives(t, bs, b.token);
        OneMore(rest, bs, b, max);
        SubstOne(b, Subst(rest, bs));
      } else {
        OneMore(t[1..], bs, b, max);
        NoNewToken(t, bs, b, max);
        SubstOther(t[0], Subst(t[1..], bs), b);
      }
  }

  lemma ValueKept(value: string, rest: string, b: Binding, max: nat)
    requires IsToken(b.token) && !Clashes(value, b.token, max) && |value + rest| <= max
    ensures Subst(value + rest, [b]) == value + Subst(rest, [b])
  {
    hide IsToken, Subst, Clashes;
    forall p: nat | p < |value| ensures !(b.token <= value[p..] + rest) {
      if b.token <= value[p..] + rest {
        Opened(b.token, p, value, rest, max);
        assert false;
      }
    }
    ThroughValue(value, rest, b);
  }

  // ---------- a chain of replacements ----------

  /** The buffers of a chain hold `max` bytes each. */
  function Chain(t: string, bs: seq<Binding>, max: nat): string
    requires AreTokens(bs)
    decreases |bs|
  {
    if bs == [] then t else Chain(Take(ReplaceAll(t, bs[0].token, bs[0].value), max), bs[1..], max)
  }

  /** Every stage but the last fits its buffer. */
  predicate StagesFit(t: string, bs: seq<Binding>, max: nat)
    requires AreTokens(bs)
  {
    forall k: nat | k < |bs| :: |Subst(t, bs[..k])| <= max
  }

  lemma {:induction false} ChainFrom(t: string, bs: seq<Binding>, k: nat, max: nat)
    requires AreTokens(bs) && Compatible(bs, max) && StagesFit(t, bs, max) && k < |bs|
    ensures Chain(Subst(t, bs[..k]), bs[k..], max) == Take(Subst(t, bs), max)
    decreases |bs| - k
  {
    hide Clashes, IsToken, Subst;
    var b := bs[k];
    var before := Subst(t, bs[..k]);
    ReplaceIsSubst(before, b);
    assert bs[..k] + [b] == bs[..k + 1];
    assert forall c | c in bs[..k] :: !Clashes(c.value, b.token, max);
    OneMore(t, bs[..k], b, max);
    assert bs[k..][1..] == bs[k + 1..];
    if k + 1 < |bs| {
      assert Take(Subst(t, bs[..k + 1]), max) == Subst(t, bs[..k + 1]);
      ChainFrom(t, bs, k + 1, max);
    } else {
      assert bs[..k + 1] == bs && bs[k + 1..] == [];
    }
  }

  /** Replacing one token after the other is one simultaneous substitution, cut to the last buffer. */
  lemma ChainIsSubst(t: string, bs: seq<Binding>, max: nat)
    requires AreTokens(bs) && Compatible(bs, max) && StagesFit(t, bs, max) && bs != []
    ensures Chain(t, bs, max) == Take(Subst(t, bs), max)
  {
    assert bs[..0] == [] && bs[0..] == bs;
    SubstNothing(t);
    ChainFrom(t, bs, 0, max);
  }

  /** With values that clash with no token the order of the replacements does not matter either. */
  lemma ChainOrder(t: string, bs: seq<Binding>, cs: seq<Binding>, max: nat)
    requires AreTokens(bs) && AreTokens(cs) && Consistent(bs) && bs != [] && cs != []
    requires forall b :: b in bs <==> b in cs
    requires forall b, c | b in bs && c in bs :: !Clashes(b.value, c.token, max)
    requires StagesFit(t, bs, max) && StagesFit(t, cs, max)
    ensures Chain(t, bs, max) == Chain(t, cs, max)
  {
    hide Clashes, IsToken, Subst, Chain;
    assert Compatible(bs, max) && Compatible(cs, max);
    ChainIsSubst(t, bs, max);
    ChainIsSubst(t, cs, max);
    SubstOrder(t, bs, cs);
  }

  // ---------- the converse: a clash shows in some template ----------

  predicate Distinct(bs: seq<Binding>) {
    forall i: nat, j: nat | i < j < |bs| :: bs[i].token != bs[j].token
  }

  /** Nothing, or the beginning of a token. */
  predicate IsOpening(w: string) {
    w == "" || (w[0] == '{' && '{' !in w[1..] && '}' !in w)
  }

  /** A token whose end is missing is no token, whatever token stands behind it. */
  lemma OpeningKept(w: string, s: string, bs: seq<Binding>)
    requires AreTokens(bs) && IsOpening(w) && s != "" && s[0] == '{'
    ensures Subst(w + s, bs) == w + Subst(s, bs)
  {
    if w == "" {
      assert w + s == s && w + Subst(s, bs) == Subst(s, bs);
    } else {
      hide AreTokens, IsToken, Match, Subst;
      OpeningUnmatched(w, s, bs);
      HeadCopied(w, s, bs);
      ThroughPlain(w[1..], s, bs);
      HeadBack(w, Subst(s, bs));
    }
  }

  lemma HeadCopied(w: string, s: string, bs: seq<Binding>)
    requires AreTokens(bs) && w != "" && Match(w + s, bs).None?
    ensures Subst(w + s, bs) == [w[0]] + Subst(w[1..] + s, bs)
  {
    hide Match, IsToken;
    assert (w + s)[1..] == w[1..] + s;
  }

  lemma HeadBack(w: string, rest: string)
    requires w != ""
    ensures [w[0]] + (w[1..] + rest) == w + rest
  {}

  lemma OpeningUnmatched(w: string, s: string, bs: seq<Binding>)
    requires AreTokens(bs) && IsOpening(w) && w != "" && s != "" && s[0] == '{'
    ensures Match(w + s, bs).None?
  {
    hide IsToken, IsOpening;
    forall b | b in bs ensures !(b.token <= w + s) {
      CutToken(w, s, b.token);
    }
  }

  lemma CutToken(w: string, s: string, token: string)
    requires IsToken(token) && IsOpening(w) && w != "" && s != "" && s[0] == '{'
    ensures !(token <= w + s)
  {
    var t := w + s;
    var last := |token| - 1;
    var k := if last < |w| then last else |w|;
    if |token| <= |t| {
      assert t[|w|] == '{' && (last < |w| ==> t[last] in w);
      assert token[k] != t[k];
    }
  }

  lemma PlainKept(w: string, bs: seq<Binding>)
    requires AreTokens(bs) && '{' !in w
    ensures Subst(w, bs) == w
  {
    ThroughPlain(w, "", bs);
    assert w + "" == w;
  }

  function Framed(before: string, middle: string, after: string): string {
    before + (middle + after)
  }

  /** In such a frame a pass sees one token. */
  lemma FramedSubst(before: string, b: Binding, after: string, bs: seq<Binding>)
    requires AreTokens(bs) && IsToken(b.token) && IsOpening(before) && '{' !in after
    requires forall c | c in bs && c.token == b.token :: c == b
    ensures Subst(Framed(before, b.token, after), bs) ==
            Framed(before, if b in bs then b.value else b.token, after)
  {
    var s := b.token + after;
    OpeningKept(before, s, bs);
    assert b.token <= s && s[|b.token|..] == after;
    PlainKept(after, bs);
    if b in bs {
      assert Match(s, bs).Some?;
      TokenUnique(s, b.token, Match(s, bs).value.token);
    } else {
      if Match(s, bs).Some? {
        TokenUnique(s, b.token, Match(s, bs).value.token);
        assert false;
      }
      TokenSurvives(s, bs, b.token);
    }
  }

  /** The stages before the token's own leave the frame alone, its own puts in the value. */
  lemma {:induction false} FramedChain(before: string, after: string, bs: seq<Binding>, i: nat, max: nat)
    requires AreTokens(bs) && Distinct(bs) && i < |bs| && IsOpening(before) && '{' !in after
    requires |Framed(before, bs[i].token, after)| <= max && |Framed(before, bs[i].value, after)| <= max
    ensures Chain(Framed(before, bs[i].token, after), bs, max) ==
            Chain(Framed(before, bs[i].value, after), bs[i + 1..], max)
    decreases i
  {
    hide IsToken, IsOpening, Framed, ReplaceAll;
    var t := Framed(before, bs[i].token, after);
    ReplaceIsSubst(t, bs[0]);
    FramedSubst(before, bs[i], after, [bs[0]]);
    if i > 0 {
      assert bs[1..][i - 1] == bs[i] && bs[1..][i..] == bs[i + 1..];
      FramedChain(before, after, bs[1..], i - 1, max);
    }
  }

  lemma FramedFits(before: string, after: string, bs: seq<Binding>, i: nat, max: nat)
    requires AreTokens(bs) && Distinct(bs) && i < |bs| && IsOpening(before) && '{' !in after
    requires |Framed(before, bs[i].token, after)| <= max && |Framed(before, bs[i].value, after)| <= max
    ensures StagesFit(Framed(before, bs[i].token, after), bs, max)
    ensures Subst(Framed(before, bs[i].token, after), bs) == Framed(before, bs[i].value, after)
  {
    hide IsToken, IsOpening, Framed, Subst;
    forall k: nat | k <= |bs|
      ensures |Subst(Framed(before, bs[i].token, after), bs[..k])| <= max
    {
      FramedSubst(before, bs[i], after, bs[..k]);
    }
    assert bs[i] in bs;
    FramedSubst(before, bs[i], after, bs);
  }

  /** The sum of the weights of the characters. */
  function Weight(s: string, f: char -> nat): nat {
    if s == "" then 0 else f(s[0]) + Weight(s[1..], f)
  }

  lemma {:induction false} WeightConcat(s: string, t: string, f: char -> nat)
    ensures Weight(s + t, f) == Weight(s, f) + Weight(t, f)
  {
    if s == "" {
      assert s + t == t;
    } else {
      assert (s + t)[1..] == s[1..] + t;
      WeightConcat(s[1..], t, f);
    }
  }

  /** In some weighing of the characters every value from index `from` on is lighter than its token. */
  predicate Lighter(bs: seq<Binding>, from: nat, f: char -> nat) {
    forall k: nat | from <= k < |bs| :: Weight(bs[k].value, f) < Weight(bs[k].token, f)
  }

  /** A lighter value takes weight away. */
  lemma {:induction false} ReplaceDrops(s: string, token: string, value: string, f: char -> nat)
    requires IsToken(token) && Weight(value, f) < Weight(token, f)
    ensures token != ""
    ensures Weight(ReplaceAll(s, token, value), f) <= Weight(s, f)
    ensures Find(s, token).Some? ==> Weight(ReplaceAll(s, token, value), f) < Weight(s, f)
    decreases |s|
  {
    hide Weight;
    match Find(s, token)
    case None =>
    case Some(i) =>
      var rest := s[i + |token|..];
      assert s == s[..i] + (token + rest);
      ReplaceDrops(rest, token, value, f);
      ReplaceAt(s, token, value, i, s[..i], rest);
      WeightConcat(s[..i], token + rest, f);
      WeightConcat(token, rest, f);
      WeightConcat(s[..i] + value, ReplaceAll(rest, token, value), f);
      WeightConcat(s[..i], value, f);
  }

  lemma TakeDrops(s: string, n: nat, f: char -> nat)
    ensures Weight(Take(s, n), f) <= Weight(s, f)
  {
    hide Weight;
    if |s| > n {
      assert s == s[..n] + s[n..];
      WeightConcat(s[..n], s[n..], f);
    }
  }

  lemma {:induction false} ChainDropsNone(s: string, bs: seq<Binding>, max: nat, f: char -> nat)
    requires AreTokens(bs) && Lighter(bs, 0, f)
    ensures Weight(Chain(s, bs, max), f) <= Weight(s, f)
    decreases |bs|
  {
    if bs != [] {
      hide IsToken, Weight, ReplaceAll;
      ReplaceDrops(s, bs[0].token, bs[0].value, f);
      var r := ReplaceAll(s, bs[0].token, bs[0].value);
      TakeDrops(r, max, f);
      ChainDropsNone(Take(r, max), bs[1..], max, f);
    }
  }

  /** A chain that meets one of its tokens changes the text. */
  lemma {:induction false} ChainDrops(s: string, bs: seq<Binding>, k: nat, max: nat, f: char -> nat)
    requires AreTokens(bs) && Lighter(bs, 0, f)
    requires |s| <= max && k < |bs| && Find(s, bs[k].token).Some?
    ensures Weight(Chain(s, bs, max), f) < Weight(s, f)
    decreases |bs|
  {
    hide IsToken, Weight, ReplaceAll, Find;
    var b := bs[0];
    ReplaceDrops(s, b.token, b.value, f);
    var r := ReplaceAll(s, b.token, b.value);
    if Find(s, b.token).Some? {
      TakeDrops(r, max, f);
      ChainDropsNone(Take(r, max), bs[1..], max, f);
    } else {
      NoneLeft(s, b.token, b.value);
      assert bs[1..][k - 1] == bs[k];
      ChainDrops(s, bs[1..], k - 1, max, f);
    }
  }

  /** The chain replaces the token `j` that the value `i` completes in the frame; one pass would not. */
  lemma FramedDiffers(before: string, after: string, bs: seq<Binding>, i: nat, j: nat, max: nat,
                       f: char -> nat)
    requires AreTokens(bs) && Distinct(bs) && i < j < |bs| && IsOpening(before) && '{' !in after
    requires Lighter(bs, i + 1, f)
    requires |Framed(before, bs[i].token, after)| <= max && |Framed(before, bs[i].value, after)| <= max
    requires Find(Framed(before, bs[i].value, after), bs[j].token).Some?
    ensures var t := Framed(before, bs[i].token, after);
      && StagesFit(t, bs, max) && Subst(t, bs) == Framed(before, bs[i].value, after)
      && Chain(t, bs, max) != Take(Subst(t, bs), max)
  {
    hide IsToken, IsOpening, Framed, Subst, Find, Chain;
    FramedFits(before, after, bs, i, max);
    FramedChain(before, after, bs, i, max);
    var later := bs[i + 1..];
    assert later[j - i - 1] == bs[j];
    ChainDrops(Framed(before, bs[i].value, after), later, j - i - 1, max, f);
  }

  /** Any two tokens of the chain fit one buffer. */
  predicate TokensFit(bs: seq<Binding>, max: nat) {
    forall b, c | b in bs && c in bs :: |b.token| + |c.token| <= max
  }

  predicate IsPass(t: string, bs: seq<Binding>, max: nat)
    requires AreTokens(bs)
  {
    StagesFit(t, bs, max) ==> Chain(t, bs, max) == Take(Subst(t, bs), max)
  }

  lemma OccursFound(s: string, token: string, i: nat)
    requires Occurs(s, token, i)
    ensures Find(s, token).Some?
  {}

  /** The value continues the beginning of the token. */
  lemma ClashBefore(bs: seq<Binding>, i: nat, j: nat, x: nat, max: nat, f: char -> nat)
    requires AreTokens(bs) && Distinct(bs) && TokensFit(bs, max) && i < j < |bs|
    requires Lighter(bs, i + 1, f)
    requires 1 <= x < |bs[j].token| && Agree(bs[j].token[x..], bs[i].value) && x + |bs[i].value| <= max
    ensures exists t :: !IsPass(t, bs, max)
  {
    var token, value := bs[j].token, bs[i].value;
    var after := Missing(token[x..], value);
    TokenCut(token, x, value);
    TokenHeadOpens(token, x);
    OccursFound(Framed(token[..x], value, after), token, 0);
    FramedRoom(bs, i, j, token[..x], after, max);
    hide IsToken, IsOpening, Subst, Find, Chain, StagesFit;
    FramedDiffers(token[..x], after, bs, i, j, max, f);
    assert !IsPass(Framed(token[..x], bs[i].token, after), bs, max);
  }

  lemma FramedRoom(bs: seq<Binding>, i: nat, j: nat, before: string, after: string, max: nat)
    requires TokensFit(bs, max) && i < |bs| && j < |bs| && |before| + |after| <= |bs[j].token|
    ensures |Framed(before, bs[i].token, after)| <= max
  {
    assert bs[i] in bs && bs[j] in bs;
  }

  /** What has to stand behind `v` for `u` to begin there. */
  function Missing(u: string, v: string): string
    requires Agree(u, v)
  {
    if u <= v then "" else u[|v|..]
  }

  lemma MissingFits(u: string, v: string)
    requires Agree(u, v)
    ensures u <= v + Missing(u, v)
    ensures |v + Missing(u, v)| == if |u| < |v| then |v| else |u|
  {
    if u <= v {
      assert v + "" == v;
    } else {
      assert u == v + u[|v|..];
    }
  }

  lemma TokenTail(token: string, x: nat)
    requires IsToken(token) && 1 <= x <= |token|
    ensures '{' !in token[x..]
  {}

  lemma TokenHeadOpens(token: string, x: nat)
    requires IsToken(token) && 1 <= x < |token|
    ensures IsOpening(token[..x])
  {}

  lemma PrefixConcat(w: string, u: string, v: string)
    requires u <= v
    ensures w + u <= w + v
  {}

  lemma TokenCut(token: string, x: nat, value: string)
    requires IsToken(token) && 1 <= x < |token| && Agree(token[x..], value)
    ensures var after := Missing(token[x..], value);
      && '{' !in after && x + |after| <= |token|
      && Occurs(Framed(token[..x], value, after), token, 0)
      && |Framed(token[..x], value, after)| == if x + |value| < |token| then |token| else x + |value|
  {
    var after := Missing(token[x..], value);
    TokenTail(token, x);
    assert '{' !in after && |after| <= |token[x..]|;
    MissingFits(token[x..], value);
    hide *;
    PrefixConcat(token[..x], token[x..], value + after);
    assert token[..x] + token[x..] == token;
    OccursFirst(token[..x], value, after, token);
  }

  lemma OccursFirst(before: string, value: string, after: string, token: string)
    requires token <= before + (value + after)
    ensures Occurs(Framed(before, value, after), token, 0)
    ensures |Framed(before, value, after)| == |before| + |value + after|
  {
    var s := Framed(before, value, after);
    assert s[0..] == s;
  }

  /** The token begins within the value. */
  lemma ClashWithin(bs: seq<Binding>, i: nat, j: nat, p: nat, max: nat, f: char -> nat)
    requires AreTokens(bs) && Distinct(bs) && TokensFit(bs, max) && i < j < |bs|
    requires Lighter(bs, i + 1, f)
    requires p < |bs[i].value| && Agree(bs[i].value[p..], bs[j].token)
    requires |bs[i].value| <= max && p + |bs[j].token| <= max
    ensures exists t :: !IsPass(t, bs, max)
  {
    var token, value := bs[j].token, bs[i].value;
    var after := Missing(token, value[p..]);
    ValueCut(token, p, value);
    OccursFound(Framed("", value, after), token, p);
    FramedRoom(bs, i, j, "", after, max);
    hide IsToken, Subst, Find, Chain, StagesFit;
    FramedDiffers("", after, bs, i, j, max, f);
    assert !IsPass(Framed("", bs[i].token, after), bs, max);
  }

  lemma ValueCut(token: string, p: nat, value: string)
    requires IsToken(token) && p < |value| && Agree(value[p..], token)
    ensures var after := Missing(token, value[p..]);
      && '{' !in after && |after| <= |token|
      && Occurs(Framed("", value, after), token, p)
      && |Framed("", value, after)| == if p + |token| < |value| then |value| else p + |token|
  {
    var after := Missing(token, value[p..]);
    assert '{' !in after by {
      TokenTail(token, if |value| - p < |token| then |value| - p else |token|);
    }
    MissingFits(token, value[p..]);
    hide *;
    OccursLater(p, value, after, token);
  }

  lemma OccursLater(p: nat, value: string, after: string, token: string)
    requires p < |value| && token <= value[p..] + after
    ensures Occurs(Framed("", value, after), token, p)
    ensures |Framed("", value, after)| == p + |value[p..] + after|
  {
    var s := Framed("", value, after);
    assert s == value + after;
    assert s[p..] == value[p..] + after;
  }

  /**
   * The exact condition, if in some weighing all values but the first are lighter than their tokens (in the number of
   * opening braces, of closing braces, or in length, for example): the chain is one simultaneous substitution for every
   * template that fits the buffers if and only if no value clashes with a later token.
   */
  lemma ChainIsSubstIff(bs: seq<Binding>, max: nat, f: char -> nat)
    requires AreTokens(bs) && Distinct(bs) && TokensFit(bs, max) && bs != []
    requires Lighter(bs, 1, f)
    ensures (forall t :: IsPass(t, bs, max)) <==> Compatible(bs, max)
  {
    if Compatible(bs, max) {
      hide Compatible, Subst, Chain, StagesFit;
      forall t ensures IsPass(t, bs, max) {
        if StagesFit(t, bs, max) {
          ChainIsSubst(t, bs, max);
        }
      }
    } else {
      var i: nat, j: nat :| i < j < |bs| && Clashes(bs[i].value, bs[j].token, max);
      hide Compatible, IsPass;
      ClashShows(bs, i, j, max, f);
    }
  }

  lemma ClashShows(bs: seq<Binding>, i: nat, j: nat, max: nat, f: char -> nat)
    requires AreTokens(bs) && Distinct(bs) && TokensFit(bs, max) && i < j < |bs|
    requires Lighter(bs, i + 1, f)
    requires Clashes(bs[i].value, bs[j].token, max)
    ensures exists t :: !IsPass(t, bs, max)
  {
    hide IsPass, IsToken;
    var token, value := bs[j].token, bs[i].value;
    if x: nat :| 1 <= x < |token| && Agree(token[x..], value) && |token| <= max && x + |value| <= max {
      ClashBefore(bs, i, j, x, max, f);
    } else {
      var p: nat :| p < |value| && Agree(value[p..], token) && |value| <= max && p + |token| <= max;
      ClashWithin(bs, i, j, p, max, f);
    }
  }

  // ---------- why the condition asks for lighter values ----------

  /** A token that stands for itself changes nothing. */
  lemma {:induction false} SubstItself(t: string, bs: seq<Binding>, token: string)
    requires AreTokens(bs) && IsToken(token) && AreTokens(bs + [Binding(token, token)])
    ensures Subst(t, bs + [Binding(token, token)]) == Subst(t, bs)
    decreases |t|
  {
    var b := Binding(token, token);
    MatchSnoc(t, bs, b);
    NotEmpty(token);
    hide Match, IsToken;
    if t != "" {
      match Match(t, bs)
      case Some(c) =>
        NotEmpty(c.token);
        SubstItself(t[|c.token|..], bs, token);
      case None =>
        if token <= t {
          TokenSurvives(t, bs, token);
          SubstItself(t[|token|..], bs, token);
        } else {
          SubstItself(t[1..], bs, token);
        }
    }
  }

  lemma ReplaceItself(s: string, token: string)
    requires IsToken(token)
    ensures token != "" && ReplaceAll(s, token, token) == s
  {
    var b := Binding(token, token);
    ReplaceIsSubst(s, b);
    assert [] + [b] == [b];
    SubstItself(s, [], token);
    SubstNothing(s);
  }

  /** A clash with a token that is then replaced by itself does no harm. */
  lemma HarmlessClash(t: string, a: string, b: string, max: nat)
    requires IsToken(a) && IsToken(b) && a != b && |b| <= max
    ensures var bs := [Binding(a, b), Binding(b, b)];
      && AreTokens(bs) && !Compatible(bs, max) && IsPass(t, bs, max)
  {
    var bs := [Binding(a, b), Binding(b, b)];
    assert AreTokens([bs[0]]);
    TokenInItself(b, max);
    hide IsToken, Clashes, ReplaceAll, Subst, StagesFit;
    var r := Take(ReplaceAll(t, a, b), max);
    ReplaceIsSubst(t, bs[0]);
    ReplaceItself(r, b);
    assert bs == [bs[0]] + [bs[1]];
    SubstItself(t, [bs[0]], b);
    TwoStages(t, bs, max);
  }

  lemma TokenInItself(token: string, max: nat)
    requires token != "" && |token| <= max
    ensures Clashes(token, token, max)
  {
    assert token[0..] == token && Agree(token[0..], token);
  }

  lemma TwoStages(t: string, bs: seq<Binding>, max: nat)
    requires AreTokens(bs) && |bs| == 2
    ensures bs[0].token != "" && bs[1].token != ""
    ensures Chain(t, bs, max) ==
            Take(ReplaceAll(Take(ReplaceAll(t, bs[0].token, bs[0].value), max), bs[1].token, bs[1].value), max)
  {
    NotEmpty(bs[0].token);
    NotEmpty(bs[1].token);
    hide ReplaceAll, IsToken, Take;
    assert bs[1..] == [bs[1]] && bs[1..][1..] == [];
    var r := Take(ReplaceAll(t, bs[0].token, bs[0].value), max);
    var u := Take(ReplaceAll(r, bs[1].token, bs[1].value), max);
    assert Chain(r, bs[1..], max) == Chain(u, [], max) == u;
  }
}
