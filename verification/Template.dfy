/** src/http.c: `replace_token`, and what a chain of replacements means. */
module Template {
  import opened CStrings
  import opened CharArrays

  // ---------- replacing one token ----------

  /** Every leftmost occurrence of the token replaced, from left to right. */
  function ReplaceAll(s: string, token: string, value: string): string
    requires token != ""
    decreases |s|
  {
    match Find(s, token)
    case None => s
    case Some(i) =>
      assert Occurs(s, token, i);
      s[..i] + value + ReplaceAll(s[i + |token|..], token, value)
  }

  /** `strncat`: at most `n` bytes of `s`, and a NUL. */
  method StrNCat(dst: array<char>, s: string, n: nat, ghost text: string)
    requires Stores(dst, 0, text) && NulFree(s)
    requires |text| + |Take(s, n)| < dst.Length
    modifies dst
    ensures Stores(dst, 0, text + Take(s, n))
  {
    var len := StrLen(dst, 0, text);
    var k := 0;
    while k < |s| && k < n
      invariant k <= |Take(s, n)| && len + k < dst.Length
      invariant dst[..len + k] == text + s[..k]
    {
      dst[len + k] := s[k];
      k := k + 1;
    }
    dst[len + k] := '\0';
    assert s[..k] == Take(s, n);
  }

  /** `strncat` of the first `n` bytes of `s`, as far as there is room for them. */
  method AppendCut(dst: array<char>, s: string, n: nat, ghost done: string)
    requires dst.Length >= 1 && n <= |s| && NulFree(s)
    requires Stores(dst, 0, Take(done, dst.Length - 1))
    modifies dst
    ensures Stores(dst, 0, Take(done + s[..n], dst.Length - 1))
  {
    hide NulFree;
    ghost var text := Take(done, dst.Length - 1);
    var len := StrLen(dst, 0, text);
    var room := dst.Length - len - 1;
    TakeMin(s, n, room);
    TakeConcat(done, s[..n], dst.Length - 1);
    StrNCat(dst, s, if n < room then n else room, text);
  }

  method ReplaceToken(dst: array<char>, src: string, token: string, value: string)
    requires dst.Length >= 1 && token != "" && NulFree(src) && NulFree(value)
    modifies dst
    ensures Stores(dst, 0, Take(ReplaceAll(src, token, value), dst.Length - 1))
  {
    hide ReplaceAll, Find, NulFree, Take;
    dst[0] := '\0';
    var p := 0;
    ghost var done := "";
    StartReplacing(dst, src, token, value);
    assert value[..|value|] == value;
    var len := StrLen(dst, 0, Take(done, dst.Length - 1));
    while p < |src| && len + 1 < dst.Length
      invariant p <= |src| && len == |Take(done, dst.Length - 1)|
      invariant Stores(dst, 0, Take(done, dst.Length - 1))
      invariant done + ReplaceAll(src[p..], token, value) == ReplaceAll(src, token, value)
      decreases |src| - p
    {
      NulFreeSlice(src, p);
      var m := Find(src[p..], token);
      if m.None? {
        NoneLeft(src[p..], token, value);
        AppendCut(dst, src[p..], |src| - p, done);
        return;
      }
      ReplaceStep(done, src, p, m.value, token, value);
      AppendCut(dst, src[p..], m.value, done);
      done := done + src[p..][..m.value];
      AppendCut(dst, value, |value|, done);
      done := done + value;
      p := p + m.value + |token|;
      len := StrLen(dst, 0, Take(done, dst.Length - 1));
    }
    EndReplacing(done, src, p, token, value, dst.Length - 1);
  }

  lemma StartReplacing(dst: array<char>, src: string, token: string, value: string)
    requires token != "" && dst.Length >= 1 && dst[0] == '\0'
    ensures Stores(dst, 0, Take("", dst.Length - 1))
    ensures src[0..] == src && "" + ReplaceAll(src, token, value) == ReplaceAll(src, token, value)
  {
    hide ReplaceAll;
    var all := ReplaceAll(src, token, value);
    assert "" + all == all;
  }

  lemma NulFreeSlice(s: string, p: nat)
    requires NulFree(s) && p <= |s|
    ensures NulFree(s[p..])
  {}

  lemma TakeConcat(s: string, t: string, n: nat)
    ensures Take(s + t, n) == Take(s, n) + Take(t, n - |Take(s, n)|)
  {}

  lemma TakeMin(s: string, n: nat, room: nat)
    requires n <= |s|
    ensures Take(s, if n < room then n else room) == Take(s[..n], room)
  {}

  lemma NoneLeft(s: string, token: string, value: string)
    requires token != "" && Find(s, token).None?
    ensures ReplaceAll(s, token, value) == s && s[..|s|] == s
  {}

  lemma ReplaceStep(done: string, src: string, p: nat, i: nat, token: string, value: string)
    requires p <= |src| && token != "" && Find(src[p..], token) == Some(i)
    ensures i <= |src[p..]| && p + i + |token| <= |src|
    ensures done + ReplaceAll(src[p..], token, value) ==
            done + src[p..][..i] + value + ReplaceAll(src[p + i + |token|..], token, value)
  {
    hide Find;
    var s := src[p..];
    assert Occurs(s, token, i);
    assert s[i + |token|..] == src[p + i + |token|..];
    var rest := ReplaceAll(s[i + |token|..], token, value);
    hide ReplaceAll;
    Regroup(done, s[..i], value, rest);
  }

  lemma Regroup(w: string, x: string, y: string, z: string)
    ensures w + (x + y + z) == w + x + y + z
  {}

  /** When the loop ends the source is used up or the buffer is full. */
  lemma EndReplacing(done: string, src: string, p: nat, token: string, value: string, n: nat)
    requires token != "" && p <= |src| && (p == |src| || |Take(done, n)| == n)
    requires done + ReplaceAll(src[p..], token, value) == ReplaceAll(src, token, value)
    ensures Take(done, n) == Take(ReplaceAll(src, token, value), n)
  {
    if p == |src| {
      assert src[p..] == "";
      ReplaceInNothing(token, value);
      assert done + "" == done;
    } else {
      TakeConcat(done, ReplaceAll(src[p..], token, value), n);
    }
  }

  // ---------- simultaneous substitution ----------

  datatype Binding = Binding(token: string, value: string)

  /** Tokens are names in braces. */
  predicate IsToken(t: string) {
    && |t| >= 2 && t[0] == '{' && t[|t| - 1] == '}'
    && forall i: nat | 0 < i < |t| - 1 :: t[i] != '{' && t[i] != '}'
  }

  predicate AreTokens(bs: seq<Binding>) {
    forall b | b in bs :: IsToken(b.token)
  }

  /** A token has one value. */
  predicate Consistent(bs: seq<Binding>) {
    forall b, c | b in bs && c in bs && b.token == c.token :: b == c
  }

  /** The binding whose token `t` starts with. */
  function Match(t: string, bs: seq<Binding>): (r: Option<Binding>)
    ensures r.Some? ==> r.value in bs && r.value.token <= t
    ensures r.None? ==> forall b | b in bs :: !(b.token <= t)
  {
    if bs == [] then None
    else if bs[0].token <= t then Some(bs[0])
    else Match(t, bs[1..])
  }

  /** One pass from left to right that replaces every token by its value. */
  function Subst(t: string, bs: seq<Binding>): string
    requires AreTokens(bs)
    decreases |t|
  {
    if t == "" then "" else
    match Match(t, bs)
    case Some(b) => b.value + Subst(t[|b.token|..], bs)
    case None => [t[0]] + Subst(t[1..], bs)
  }

  lemma {:induction false} SubstNothing(t: string)
    ensures Subst(t, []) == t
  {
    if t != "" {
      SubstNothing(t[1..]);
    }
  }

  /** No brace is matched inside another token, so at most one token matches. */
  lemma TokenUnique(t: string, a: string, b: string)
    requires IsToken(a) && IsToken(b) && a <= t && b <= t
    ensures a == b
  {
    TokenEnd(t, a);
    TokenEnd(t, b);
    assert a == t[..|a|] && b == t[..|b|];
  }

  /** A token ends at the first closing brace. */
  lemma TokenEnd(t: string, a: string)
    requires IsToken(a) && a <= t
    ensures Span(t, c => c != '}') == |a| - 1
  {
    assert forall i: nat | i < |a| :: t[i] == a[i];
    SpanUnique(t, c => c != '}', |a| - 1);
  }

  /** The order of the bindings does not matter. */
  lemma {:induction false} SubstOrder(t: string, bs: seq<Binding>, cs: seq<Binding>)
    requires AreTokens(bs) && AreTokens(cs) && Consistent(bs)
    requires forall b :: b in bs <==> b in cs
    ensures Subst(t, bs) == Subst(t, cs)
    decreases |t|
  {
    if t != "" {
      var m, n := Match(t, bs), Match(t, cs);
      if m.Some? && n.Some? {
        TokenUnique(t, m.value.token, n.value.token);
      }
      assert m == n;
      SubstOrder(if m.Some? then t[|m.value.token|..] else t[1..], bs, cs);
    }
  }

  /** Replacing one token is a pass with one binding. */
  lemma {:induction false} ReplaceIsSubst(s: string, b: Binding)
    requires IsToken(b.token)
    ensures ReplaceAll(s, b.token, b.value) == Subst(s, [b])
    decreases |s|
  {
    NotEmpty(b.token);
    hide IsToken, ReplaceAll;
    if s == "" {
      ReplaceInNothing(b.token, b.value);
    } else if b.token <= s {
      ReplaceIsSubst(s[|b.token|..], b);
      ReplaceHere(s, b.token, b.value);
    } else {
      ReplaceIsSubst(s[1..], b);
      SkipOne(s, b.token, b.value);
    }
  }

  lemma NotEmpty(token: string)
    requires IsToken(token)
    ensures token != ""
  {}

  lemma ReplaceInNothing(token: string, value: string)
    requires token != ""
    ensures ReplaceAll("", token, value) == ""
  {
    assert !Occurs("", token, 0);
  }

  lemma ReplaceHere(s: string, token: string, value: string)
    requires token != "" && token <= s
    ensures ReplaceAll(s, token, value) == value + ReplaceAll(s[|token|..], token, value)
  {
    hide Find;
    assert s[0..] == s;
    assert Occurs(s, token, 0);
    FindUnique(s, token, 0);
    assert s[..0] + value == value;
  }

  lemma SkipOne(s: string, token: string, value: string)
    requires s != "" && token != "" && !(token <= s)
    ensures ReplaceAll(s, token, value) == [s[0]] + ReplaceAll(s[1..], token, value)
  {
    hide Find;
    assert s[0..] == s && !Occurs(s, token, 0);
    FindShift(s, token);
    match Find(s[1..], token)
    case None => assert s == [s[0]] + s[1..];
    case Some(i) => SkipOneFound(s, token, value, i);
  }

  lemma SkipOneFound(s: string, token: string, value: string, i: nat)
    requires s != "" && token != "" && Find(s, token) == Some(i + 1) && Find(s[1..], token) == Some(i)
    ensures ReplaceAll(s, token, value) == [s[0]] + ReplaceAll(s[1..], token, value)
  {
    FindOccurs(s[1..], token, i);
    SliceShift(s, i, |token|);
    var rest := s[i + 1 + |token|..];
    ReplaceAt(s, token, value, i + 1, s[..i + 1], rest);
    ReplaceAt(s[1..], token, value, i, s[1..][..i], rest);
    hide *;
    Regroup([s[0]], s[1..][..i], value, ReplaceAll(rest, token, value));
  }

  lemma FindOccurs(s: string, token: string, i: nat)
    requires Find(s, token) == Some(i)
    ensures Occurs(s, token, i) && i + |token| <= |s|
  {}

  lemma ReplaceAt(s: string, token: string, value: string, i: nat, before: string, rest: string)
    requires token != "" && Find(s, token) == Some(i)
    requires i + |token| <= |s| && before == s[..i] && rest == s[i + |token|..]
    ensures ReplaceAll(s, token, value) == before + value + ReplaceAll(rest, token, value)
  {
    hide Find, Occurs;
  }

  lemma SliceShift(s: string, i: nat, n: nat)
    requires s != "" && i + n <= |s[1..]|
    ensures s[..i + 1] == [s[0]] + s[1..][..i] && s[1..][i + n..] == s[i + 1 + n..]
  {}

  lemma FindShift(s: string, token: string)
    requires s != "" && !Occurs(s, token, 0)
    ensures Find(s, token) == match Find(s[1..], token) case None => None case Some(i) => Some(i + 1)
  {
    FindInSuffix(s, token, 1);
  }

  // ---------- steps of a pass ----------

  /** Characters that cannot start a token are copied. */
  lemma {:induction false} ThroughPlain(w: string, rest: string, bs: seq<Binding>)
    requires AreTokens(bs) && '{' !in w
    ensures Subst(w + rest, bs) == w + Subst(rest, bs)
    decreases |w|
  {
    if w == "" {
      assert "" + rest == rest && "" + Subst(rest, bs) == Subst(rest, bs);
    } else {
      var s := w + rest;
      assert s[0] == w[0];
      NoMatch(s, bs);
      assert s[1..] == w[1..] + rest;
      ThroughPlain(w[1..], rest, bs);
      assert [w[0]] + (w[1..] + Subst(rest, bs)) == w + Subst(rest, bs);
    }
  }

  lemma NoMatch(s: string, bs: seq<Binding>)
    requires AreTokens(bs) && s != "" && s[0] != '{'
    ensures Match(s, bs).None?
  {
    forall b | b in bs ensures !(b.token <= s) {
      assert b.token[0] == '{';
    }
  }

  /** A token that the pass leaves alone survives it. */
  lemma TokenSurvives(t: string, bs: seq<Binding>, token: string)
    requires AreTokens(bs) && IsToken(token) && token <= t && Match(t, bs).None?
    ensures Subst(t, bs) == token + Subst(t[|token|..], bs)
  {
    var inner, rest := token[1..], t[|token|..];
    TokenHead(t, token, inner, rest);
    assert Subst(t, bs) == [t[0]] + Subst(t[1..], bs);
    hide Match, IsToken;
    ThroughPlain(inner, rest, bs);
    hide *;
    Glue([t[0]], inner, Subst(rest, bs));
  }

  lemma TokenHead(t: string, token: string, inner: string, rest: string)
    requires IsToken(token) && token <= t && inner == token[1..] && rest == t[|token|..]
    ensures t != "" && t[1..] == inner + rest && token == [t[0]] + inner && '{' !in inner
  {}

  lemma Glue(x: string, y: string, z: string)
    ensures x + (y + z) == (x + y) + z
  {}

  lemma MatchSnoc(t: string, bs: seq<Binding>, b: Binding)
    ensures Match(t, bs + [b]) ==
            if Match(t, bs).Some? then Match(t, bs) else if b.token <= t then Some(b) else None
  {
    if bs == [] {
      assert bs + [b] == [b];
    } else {
      assert (bs + [b])[1..] == bs[1..] + [b];
      MatchSnoc(t, bs[1..], b);
    }
  }

  lemma SubstOne(b: Binding, rest: string)
    requires IsToken(b.token)
    ensures Subst(b.token + rest, [b]) == b.value + Subst(rest, [b])
  {
    assert (b.token + rest)[|b.token|..] == rest && b.token <= b.token + rest;
  }

  lemma SubstOther(c: char, rest: string, b: Binding)
    requires IsToken(b.token) && !(b.token <= [c] + rest)
    ensures Subst([c] + rest, [b]) == [c] + Subst(rest, [b])
  {
    assert ([c] + rest)[1..] == rest;
  }
}
