/** C strings in fixed arrays, and src/common.c: `trim_in_place`. */
module CharArrays {
  import opened CStrings

  /** C strings contain no NUL. */
  predicate NulFree(s: string) {
    forall i: nat | i < |s| :: s[i] != '\0'
  }

  /** The C string that starts at `a[base]` is `text`. */
  predicate Stores(a: array<char>, base: nat, text: string)
    reads a
  {
    NulFree(text) && base + |text| < a.Length && a[base..base + |text|] == text && a[base + |text|] == '\0'
  }

  method StrLen(a: array<char>, base: nat, ghost text: string) returns (n: nat)
    requires Stores(a, base, text)
    ensures n == |text|
  {
    n := 0;
    while a[base + n] != '\0'
      invariant n <= |text|
      decreases |text| - n
    {
      n := n + 1;
    }
    if n < |text| {
      CharAt(a, base, text, n);
      assert false;
    }
  }

  lemma CharAt(a: array<char>, base: nat, text: string, i: nat)
    requires Stores(a, base, text) && i < |text|
    ensures base + i < a.Length && a[base + i] == text[i] != '\0'
  {
    assert a[base..base + |text|][i] == a[base + i];
  }

  /** The text of the string that starts at `a[base]`. */
  method ReadString(a: array<char>, base: nat, ghost text: string) returns (s: string)
    requires Stores(a, base, text)
    ensures s == text
  {
    var n := StrLen(a, base, text);
    s := a[base..base + n];
  }

  /** `memmove` to a lower address. */
  method MoveDown(a: array<char>, dst: nat, src: nat, n: nat)
    requires dst <= src && src + n <= a.Length
    modifies a
    ensures a[dst..dst + n] == old(a[src..src + n])
    ensures forall i: nat | i < a.Length && !(dst <= i < dst + n) :: a[i] == old(a[i])
  {
    var k := 0;
    while k < n
      invariant k <= n
      invariant forall i: nat | dst <= i < dst + k :: a[i] == old(a[i + (src - dst)])
      invariant forall i: nat | i < a.Length && !(dst <= i < dst + k) :: a[i] == old(a[i])
    {
      a[dst + k] := a[src + k];
      k := k + 1;
    }
  }

  method TrimInPlace(a: array<char>, base: nat, ghost text: string)
    requires Stores(a, base, text)
    modifies a
    ensures Stores(a, base, Trim(text))
    ensures forall i: nat | i < a.Length && !(base <= i <= base + |text|) :: a[i] == old(a[i])
  {
    hide TrimRight;
    var start := LeadingBlanks(a, base, text);
    ghost var left := text[start..];
    SuffixStored(a, base, text, start);
    if start != 0 {
      var n := StrLen(a, base + start, left);
      MoveString(a, base, start, n, left);
    }
    TrimEnd(a, base, left);
  }

  method LeadingBlanks(a: array<char>, base: nat, ghost text: string) returns (start: nat)
    requires Stores(a, base, text)
    ensures start == Span(text, IsBlank)
  {
    start := 0;
    while IsBlank(a[base + start])
      invariant start <= |text|
      invariant forall i: nat | i < start :: IsBlank(text[i])
      decreases |text| - start
    {
      assert start < |text|;
      CharAt(a, base, text, start);
      start := start + 1;
    }
    if start < |text| {
      CharAt(a, base, text, start);
    }
    SpanUnique(text, IsBlank, start);
  }

  lemma SuffixStored(a: array<char>, base: nat, text: string, start: nat)
    requires Stores(a, base, text) && start <= |text|
    ensures Stores(a, base + start, text[start..])
  {
    assert a[base + start..base + |text|] == a[base..base + |text|][start..];
  }

  /** The string moved to the start of its array, with its NUL. */
  method MoveString(a: array<char>, base: nat, start: nat, n: nat, ghost left: string)
    requires Stores(a, base + start, left) && n == |left|
    modifies a
    ensures Stores(a, base, left)
    ensures forall i: nat | i < a.Length && !(base <= i <= base + n) :: a[i] == old(a[i])
  {
    assert a[base + start..base + start + n + 1][..n] == left;
    MoveDown(a, base, base + start, n + 1);
    assert a[base..base + n] == a[base..base + n + 1][..n];
    assert a[base + n] == a[base..base + n + 1][n];
  }

  /** The loop that cuts blanks off the end. */
  method TrimEnd(a: array<char>, base: nat, ghost text: string)
    requires Stores(a, base, text)
    modifies a
    ensures Stores(a, base, TrimRight(text))
    ensures forall i: nat | i < a.Length && !(base <= i <= base + |text|) :: a[i] == old(a[i])
  {
    hide TrimRight, NulFree;
    var len := StrLen(a, base, text);
    assert text[..len] == text;
    while len > 0
      invariant len <= |text| && Stores(a, base, text[..len])
      invariant TrimRight(text[..len]) == TrimRight(text)
      invariant forall i: nat | i < a.Length && !(base <= i <= base + |text|) :: a[i] == old(a[i])
    {
      var c := a[base + len - 1];
      LastChar(a, base, text[..len]);
      if !IsBlank(c) {
        break;
      }
      DropLast(text, len);
      len := len - 1;
      assert a[base..base + len] == a[base..base + len + 1][..len];
      a[base + len] := '\0';
    }
    NothingLeft();
  }

  lemma NothingLeft()
    ensures TrimRight("") == ""
  {}

  lemma LastChar(a: array<char>, base: nat, text: string)
    requires Stores(a, base, text) && text != ""
    ensures a[base + |text| - 1] == text[|text| - 1]
    ensures !IsBlank(text[|text| - 1]) ==> TrimRight(text) == text
  {
    assert a[base..base + |text|][|text| - 1] == a[base + |text| - 1];
  }

  lemma DropLast(text: string, len: nat)
    requires 0 < len <= |text| && IsBlank(text[len - 1])
    ensures TrimRight(text[..len]) == TrimRight(text[..len - 1]) && text[..len][..len - 1] == text[..len - 1]
    ensures NulFree(text[..len]) ==> NulFree(text[..len - 1])
  {
    assert text[..len][..len - 1] == text[..len - 1];
  }
}
