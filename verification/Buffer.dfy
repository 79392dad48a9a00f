/** The growable text buffer `cellmgr_buf`. */
module Buffer {

  const DEFAULT_CAPACITY: nat := 256
  const TWO_63: nat := 0x8000_0000_0000_0000
  const TWO_64: nat := 0x1_0000_0000_0000_0000

  class Buf {
    /** What has been appended so far. */
    ghost var text: string
    /** Bytes that reallocations have copied since the buffer was initialised. */
    ghost var copied: nat

    var data: array<char>
    var len: nat
    var cap: nat

    ghost predicate Valid()
      reads this, data
    {
      && data.Length == cap
      && len == |text| < cap
      && data[..len] == text
      && data[len] == '\0'
      && copied < cap
    }

    constructor (initial: nat)
      ensures Valid() && fresh(data)
      ensures text == "" && copied == 0
      ensures cap == if initial == 0 then DEFAULT_CAPACITY else initial
    {
      var c := if initial == 0 then DEFAULT_CAPACITY else initial;
      data := new char[c](_ => '\0');
      len, cap, text, copied := 0, c, "", 0;
    }

    /** Doubles the capacity until `need` bytes fit. Whatever the number of reallocations so far, together they
        have copied less than the capacity reached, because each of them at least doubles it. */
    method Reserve(need: nat)
      requires Valid()
      modifies this, data
      ensures Valid() && (data == old(data) || fresh(data))
      ensures text == old(text) && need <= cap
      ensures need <= old(cap) ==> cap == old(cap) && copied == old(copied)
      ensures need > old(cap) ==> old(cap) < cap < 2 * need && copied == old(copied) + old(cap)
      ensures need <= TWO_63 ==> cap == old(cap) || cap < TWO_64
    {
      if need <= cap {
        return;
      }
      var next := if cap != 0 then cap else DEFAULT_CAPACITY;
      while next < need
        invariant next == cap || (2 * cap <= next < 2 * need)
        invariant next == cap || need > TWO_63 || next < TWO_64
      {
        next := next * 2;
      }
      var d := new char[next](i requires 0 <= i < next reads this, data => if i < data.Length then data[i] else '\0');
      copied := copied + cap;
      data := d;
      cap := next;
    }

    method AppendN(s: string, n: nat)
      requires Valid() && n <= |s|
      modifies this, data
      ensures Valid() && (data == old(data) || fresh(data))
      ensures text == old(text) + s[..n]
      ensures cap == old(cap) || cap < 2 * (|text| + 1)
      ensures copied == (if cap == old(cap) then old(copied) else old(copied) + old(cap))
      ensures |text| < TWO_63 ==> cap == old(cap) || cap < TWO_64
    {
      Reserve(len + n + 1);
      forall i | 0 <= i < n {
        data[len + i] := s[i];
      }
      assert data[..len] == text;
      assert data[..len + n] == text + s[..n];
      len := len + n;
      data[len] := '\0';
      assert data[..len] == text + s[..n];
      text := text + s[..n];
    }

    method Append(s: string)
      requires Valid()
      modifies this, data
      ensures Valid() && (data == old(data) || fresh(data))
      ensures text == old(text) + s
      ensures cap == old(cap) || cap < 2 * (|text| + 1)
      ensures copied == (if cap == old(cap) then old(copied) else old(copied) + old(cap))
      ensures |text| < TWO_63 ==> cap == old(cap) || cap < TWO_64
    {
      AppendN(s, |s|);
      assert s[..|s|] == s;
    }

    /** `buf_append_n` of a single byte. */
    method AppendChar(c: char)
      requires Valid()
      modifies this, data
      ensures Valid() && (data == old(data) || fresh(data))
      ensures text == old(text) + [c]
    {
      AppendN([c], 1);
      assert [c][..1] == [c];
    }

    /** The C string the buffer holds: everything before the first NUL of `data`. */
    method CString() returns (s: string)
      requires Valid()
      ensures s == text
    {
      s := data[..len];
    }
  }

  function Concat(pieces: seq<string>): string {
    if pieces == [] then "" else pieces[0] + Concat(pieces[1..])
  }

  lemma {:induction false} ConcatSnoc(pieces: seq<string>, p: string)
    ensures Concat(pieces + [p]) == Concat(pieces) + p
  {
    if pieces == [] {
      assert [p][1..] == [];
      assert [] + [p] == [p];
    } else {
      assert (pieces + [p])[1..] == pieces[1..] + [p];
      ConcatSnoc(pieces[1..], p);
    }
  }

  /** Any run of appends on a new buffer: the contents are the pieces in order, all reallocations together copied
      less than the final capacity, and a buffer that grew holds less than twice what it needs. */
  method AppendAll(initial: nat, pieces: seq<string>) returns (b: Buf)
    ensures fresh(b) && b.Valid()
    ensures b.text == Concat(pieces)
    ensures b.copied < b.cap
    ensures b.copied > 0 ==> b.cap < 2 * (|Concat(pieces)| + 1)
    ensures b.copied == 0 ==> b.cap == if initial == 0 then DEFAULT_CAPACITY else initial
    ensures |Concat(pieces)| < TWO_63 && initial < TWO_64 ==> b.cap < TWO_64
  {
    b := new Buf(initial);
    var i := 0;
    while i < |pieces|
      invariant 0 <= i <= |pieces|
      invariant b.Valid() && fresh(b) && fresh(b.data)
      invariant b.text == Concat(pieces[..i])
      invariant b.copied > 0 ==> b.cap < 2 * (|b.text| + 1)
      invariant b.copied == 0 ==> b.cap == if initial == 0 then DEFAULT_CAPACITY else initial
      invariant |b.text| < TWO_63 && initial < TWO_64 ==> b.cap < TWO_64
    {
      ConcatSnoc(pieces[..i], pieces[i]);
      assert pieces[..i + 1] == pieces[..i] + [pieces[i]];
      b.Append(pieces[i]);
      i := i + 1;
    }
    assert pieces[..i] == pieces;
  }
}
