/** src/smtp.c: `base64_encode`, against the encoding of section 4 of RFC 4648. */
module Base64 {
  import opened CStrings

  /** The characters of a C string are bytes. */
  predicate AreBytes(s: string) {
    forall i: nat | i < |s| :: s[i] as int < 256
  }

  const UPPER := "ABCDEFGHIJKLMNOPQRSTUVWXYZ"

  const LOWER := "abcdefghijklmnopqrstuvwxyz"

  /** `b64_table`. */
  const TABLE := UPPER + (LOWER + "0123456789+/")

  function Char64(v: nat): char
    requires v < 64
  {
    TABLE[v]
  }

  // ---------- section 4: groups of six bits ----------

  /** The eight bits of a byte, most significant first. */
  function ByteBits(b: nat): (bits: seq<nat>)
    requires b < 256
    ensures |bits| == 8 && forall i: nat | i < 8 :: bits[i] < 2
  {
    var b1 := b / 2;
    var b2 := b1 / 2;
    var b3 := b2 / 2;
    var b4 := b3 / 2;
    var b5 := b4 / 2;
    var b6 := b5 / 2;
    var b7 := b6 / 2;
    [b7, b6 % 2, b5 % 2, b4 % 2, b3 % 2, b2 % 2, b1 % 2, b % 2]
  }

  lemma ByteSum(b: nat, bits: seq<nat>)
    requires b < 256 && bits == ByteBits(b)
    ensures b == 128 * bits[0] + 64 * bits[1] + 32 * bits[2] + 16 * bits[3] +
                 8 * bits[4] + 4 * bits[5] + 2 * bits[6] + bits[7]
  {}

  function Bits(s: string): (bits: seq<nat>)
    requires AreBytes(s)
    ensures |bits| == 8 * |s| && forall i: nat | i < |bits| :: bits[i] < 2
  {
    if s == "" then [] else ByteBits(s[0] as int) + Bits(s[1..])
  }

  /** Bit `i`; zero bits are added on the right. */
  function Bit(bits: seq<nat>, i: nat): nat {
    if i < |bits| then bits[i] else 0
  }

  function Sextet(bits: seq<nat>): (v: nat)
    requires forall i: nat | i < |bits| :: bits[i] < 2
    ensures v < 64
  {
    32 * Bit(bits, 0) + 16 * Bit(bits, 1) + 8 * Bit(bits, 2) + 4 * Bit(bits, 3) + 2 * Bit(bits, 4) + Bit(bits, 5)
  }

  /** One character for every six bits, the last group filled up with zeros. */
  function Characters(bits: seq<nat>): string
    requires forall i: nat | i < |bits| :: bits[i] < 2
    decreases |bits|
  {
    if bits == [] then "" else [Char64(Sextet(bits))] + Characters(if |bits| <= 6 then [] else bits[6..])
  }

  /** `=` up to a multiple of four characters. */
  function Padded(t: string): string {
    match |t| % 4
    case 0 => t
    case 1 => t + "==="
    case 2 => t + "=="
    case _ => t + "="
  }

  /** The encoding as the RFC describes it. */
  function Rfc4648(s: string): string
    requires AreBytes(s)
  {
    Padded(Characters(Bits(s)))
  }

  // ---------- the encoding three bytes at a time ----------

  function First(a: nat): (v: nat)
    requires a < 256
    ensures v < 64
  {
    a / 4
  }

  function Second(a: nat, b: nat): (v: nat)
    requires a < 256 && b < 256
    ensures v < 64
  {
    a % 4 * 16 + b / 16
  }

  function Third(b: nat, c: nat): (v: nat)
    requires b < 256 && c < 256
    ensures v < 64
  {
    b % 16 * 4 + c / 64
  }

  function Fourth(c: nat): (v: nat)
    requires c < 256
    ensures v < 64
  {
    c % 64
  }

  function Encode(s: string): string
    requires AreBytes(s)
    decreases |s|
  {
    if s == "" then ""
    else if |s| == 1 then
      var a := s[0] as int;
      [Char64(First(a)), Char64(Second(a, 0)), '=', '=']
    else if |s| == 2 then
      var a, b := s[0] as int, s[1] as int;
      [Char64(First(a)), Char64(Second(a, b)), Char64(Third(b, 0)), '=']
    else
      var a, b, c := s[0] as int, s[1] as int, s[2] as int;
      [Char64(First(a)), Char64(Second(a, b)), Char64(Third(b, c)), Char64(Fourth(c))] + Encode(s[3..])
  }

  /** Four characters for every three bytes begun. */
  lemma {:induction false} EncodeLength(s: string)
    requires AreBytes(s)
    ensures |Encode(s)| == (|s| + 2) / 3 * 4
    decreases |s|
  {
    hide Char64, First, Second, Third, Fourth;
    if |s| >= 3 {
      EncodeLength(s[3..]);
    }
  }

  /** `(v >> k) & 63` of the three bytes put together. */
  lemma Shifts(a: nat, b: nat, c: nat)
    requires a < 256 && b < 256 && c < 256
    ensures var v := a * 65536 + b * 256 + c;
      v / 262144 % 64 == First(a) && v / 4096 % 64 == Second(a, b) && v / 64 % 64 == Third(b, c) && v % 64 == Fourth(c)
  {
    var a1, a0, b1, b0, c1, c0 := a / 4, a % 4, b / 16, b % 16, c / 64, c % 64;
    assert a * 65536 + b * 256 + c == a1 * 262144 + (a0 * 16 + b1) * 4096 + (b0 * 4 + c1) * 64 + c0;
    FourDigits(a1, a0 * 16 + b1, b0 * 4 + c1, c0);
  }

  /** The digits of a number to the base 64. */
  lemma FourDigits(p: nat, q: nat, r: nat, s: nat)
    requires p < 64 && q < 64 && r < 64 && s < 64
    ensures var v := p * 262144 + q * 4096 + r * 64 + s;
      v / 262144 % 64 == p && v / 4096 % 64 == q && v / 64 % 64 == r && v % 64 == s
  {
    var v := p * 262144 + q * 4096 + r * 64 + s;
    assert v / 64 == p * 4096 + q * 64 + r;
    assert v / 4096 == p * 64 + q;
    assert v / 262144 == p;
  }

  /** The bytes from index `i` on. */
  function From(s: string, i: nat): string {
    if i <= |s| then s[i..] else ""
  }

  /** `base64_encode`: the text fills its allocation exactly, up to the NUL. */
  method Base64Encode(s: string) returns (out: array<char>)
    requires AreBytes(s)
    ensures fresh(out) && out.Length == (|s| + 2) / 3 * 4 + 1
    ensures out[..out.Length - 1] == Encode(s) && out[out.Length - 1] == '\0'
  {
    hide Encode, First, Second, Third, Fourth, Char64, From, AreBytes;
    var len := |s|;
    ghost var quanta := (len + 2) / 3;
    var outLen := (len + 2) / 3 * 4;
    out := new char[outLen + 1];
    var i, j := 0, 0;
    ghost var k := 0;
    StartEncode(s, out[..0]);
    while i < len
      invariant i == 3 * k && j == 4 * k && k <= quanta
      invariant fresh(out) && out.Length == 4 * quanta + 1
      invariant AreBytes(From(s, i)) && out[..j] + Encode(From(s, i)) == Encode(s)
    {
      ghost var before := out[..j];
      EncodeStep(s, i, before);
      var a, b, c := Byte(s, i), Byte(s, i + 1), Byte(s, i + 2);
      var v := a * 65536 + b * 256 + c;
      Shifts(a, b, c);
      var third := if i + 1 < len then Char64(v / 64 % 64) else '=';
      var fourth := if i + 2 < len then Char64(v % 64) else '=';
      WriteQuantum(out, j, Char64(v / 262144 % 64), Char64(v / 4096 % 64), third, fourth);
      i := i + 3;
      j := j + 4;
      k := k + 1;
    }
    EndsEmpty(out[..j], s, i);
    out[j] := '\0';
  }

  /** The byte at index `i`, or 0 behind the end. */
  function Byte(s: string, i: nat): (b: nat)
    requires AreBytes(s)
    ensures b < 256
  {
    if i < |s| then s[i] as int else 0
  }

  function Quantum(s: string, i: nat): (q: string)
    requires AreBytes(s)
    ensures |q| == 4
  {
    var a, b, c := Byte(s, i), Byte(s, i + 1), Byte(s, i + 2);
    [Char64(First(a)), Char64(Second(a, b)), if i + 1 < |s| then Char64(Third(b, c)) else '=',
     if i + 2 < |s| then Char64(Fourth(c)) else '=']
  }

  lemma StartEncode(s: string, nothing: string)
    requires AreBytes(s) && nothing == ""
    ensures AreBytes(From(s, 0)) && nothing + Encode(From(s, 0)) == Encode(s)
  {
    hide Encode;
    assert s[0..] == s;
  }

  method WriteQuantum(out: array<char>, j: nat, p: char, q: char, r: char, t: char)
    requires j + 4 <= out.Length
    modifies out
    ensures out[..j + 4] == old(out[..j]) + [p, q, r, t]
  {
    out[j], out[j + 1], out[j + 2], out[j + 3] := p, q, r, t;
    assert out[..j] == old(out[..j]);
  }

  lemma EncodeStep(s: string, i: nat, before: string)
    requires AreBytes(s) && i < |s|
    ensures AreBytes(From(s, i)) && AreBytes(From(s, i + 3))
    ensures before + Encode(From(s, i)) == before + Quantum(s, i) + Encode(From(s, i + 3))
  {
    hide First, Second, Third, Fourth, Char64;
    var t := s[i..];
    if i + 3 <= |s| {
      assert t[3..] == s[i + 3..];
      assert Encode(t) == Quantum(s, i) + Encode(s[i + 3..]);
      hide Encode, Quantum;
      assert before + (Quantum(s, i) + Encode(s[i + 3..])) == before + Quantum(s, i) + Encode(s[i + 3..]);
    } else {
      assert Encode(t) == Quantum(s, i) && Encode("") == "";
      hide Encode, Quantum;
      assert before + Quantum(s, i) + "" == before + Quantum(s, i);
    }
  }

  lemma EndsEmpty(done: string, s: string, i: nat)
    requires AreBytes(s) && i >= |s|
    ensures AreBytes(From(s, i)) && done + Encode(From(s, i)) == done
  {
    assert From(s, i) == "" && done + "" == done;
  }

  // ---------- padding ----------

  lemma TableChars(v: nat)
    requires v < 64
    ensures Char64(v) != '='
  {
    TableValue(v);
  }

  /** Padding appears in the last two places of the text only, and there when the length is no multiple of three. */
  lemma {:induction false} PaddingAtEnd(s: string, i: nat)
    requires AreBytes(s) && i < |Encode(s)|
    ensures Encode(s)[i] == '=' <==>
            ((i == |Encode(s)| - 1 && |s| % 3 != 0) || (i == |Encode(s)| - 2 && |s| % 3 == 1))
    decreases |s|
  {
    hide Char64, First, Second, Third, Fourth;
    var a := s[0] as int;
    var b := if |s| > 1 then s[1] as int else 0;
    var c := if |s| > 2 then s[2] as int else 0;
    TableChars(First(a));
    TableChars(Second(a, b));
    TableChars(Third(b, c));
    TableChars(Fourth(c));
    var t := Encode(s);
    if |s| > 3 && i >= 4 {
      assert t[i] == Encode(s[3..])[i - 4];
      PaddingAtEnd(s[3..], i - 4);
    }
  }

  // ---------- decoding ----------

  /** The value of a character of the alphabet. */
  function CharValue(c: char): Option<nat> {
    if 'A' <= c <= 'Z' then Some(c as int - 'A' as int)
    else if 'a' <= c <= 'z' then Some(c as int - 'a' as int + 26)
    else if '0' <= c <= '9' then Some(c as int - '0' as int + 52)
    else if c == '+' then Some(62)
    else if c == '/' then Some(63)
    else None
  }

  lemma TableValue(v: nat)
    requires v < 64
    ensures CharValue(Char64(v)) == Some(v) && Char64(v) != '='
  {
    if v < 26 {
      UpperValue(v);
    } else if v < 52 {
      LowerValue(v - 26);
    } else {
      OtherValue(v);
    }
  }

  lemma UpperValue(v: nat)
    requires v < 26
    ensures UPPER[v] as int == 'A' as int + v
  {}

  lemma LowerValue(v: nat)
    requires v < 26
    ensures LOWER[v] as int == 'a' as int + v
  {}

  lemma OtherValue(v: nat)
    requires 52 <= v < 64
    ensures CharValue(Char64(v)) == Some(v)
  {}

  /** The bytes of one group of four characters. */
  function DecodeQuantum(q: string): Option<string>
    requires |q| == 4
  {
    match (CharValue(q[0]), CharValue(q[1]))
    case (Some(p), Some(r)) =>
      var a := (p * 4 + r / 16) % 256;
      if q[2] == '=' && q[3] == '=' then Some([a as char]) else
      (match CharValue(q[2])
       case None => None
       case Some(u) =>
         var b := (r % 16 * 16 + u / 4) % 256;
         if q[3] == '=' then Some([a as char, b as char]) else
         match CharValue(q[3])
         case None => None
         case Some(w) => Some([a as char, b as char, ((u % 4 * 64 + w) % 256) as char]))
    case _ => None
  }

  function Decode(t: string): Option<string> {
    if t == "" then Some("")
    else if |t| < 4 then None
    else
      match (DecodeQuantum(t[..4]), Decode(t[4..]))
      case (Some(x), Some(y)) => Some(x + y)
      case _ => None
  }

  lemma BytesBack(a: nat, b: nat, c: nat)
    requires a < 256 && b < 256 && c < 256
    ensures (First(a) * 4 + Second(a, b) / 16) % 256 == a
    ensures (Second(a, b) % 16 * 16 + Third(b, c) / 4) % 256 == b
    ensures (Third(b, c) % 4 * 64 + Fourth(c)) % 256 == c
  {
    Digits(a % 4, b / 16, 16);
    Digits(b % 16, c / 64, 4);
  }

  /** The two parts of a value. */
  lemma Digits(high: nat, low: nat, base: nat)
    requires base == 16 || base == 4
    requires low < base
    ensures (high * base + low) / base == high && (high * base + low) % base == low
  {}

  lemma QuantumBack(a: nat, b: nat, c: nat)
    requires a < 256 && b < 256 && c < 256
    ensures DecodeQuantum([Char64(First(a)), Char64(Second(a, b)), Char64(Third(b, c)), Char64(Fourth(c))]) ==
            Some([a as char, b as char, c as char])
    ensures DecodeQuantum([Char64(First(a)), Char64(Second(a, b)), Char64(Third(b, 0)), '=']) == Some([a as char, b as char])
    ensures DecodeQuantum([Char64(First(a)), Char64(Second(a, 0)), '=', '=']) == Some([a as char])
  {
    hide Char64, CharValue, First, Second, Third, Fourth;
    TableValue(First(a));
    TableValue(Second(a, b));
    TableValue(Third(b, c));
    TableValue(Fourth(c));
    BytesBack(a, b, c);
    TableValue(Third(b, 0));
    TableValue(Second(a, 0));
    BytesBack(a, b, 0);
    BytesBack(a, 0, 0);
  }

  /** Decoding inverts the encoding of every byte string. */
  lemma {:induction false} DecodeEncode(s: string)
    requires AreBytes(s)
    ensures Decode(Encode(s)) == Some(s)
    decreases |s|
  {
    hide Char64, First, Second, Third, Fourth, DecodeQuantum;
    var t := Encode(s);
    if s == "" {
    } else if |s| <= 2 {
      var a := s[0] as int;
      assert t[4..] == "" && t[..4] == t;
      QuantumBack(a, if |s| == 2 then s[1] as int else 0, 0);
      assert s == if |s| == 1 then [s[0]] else [s[0], s[1]];
      assert s + "" == s;
    } else {
      QuantumBack(s[0] as int, s[1] as int, s[2] as int);
      assert t[4..] == Encode(s[3..]);
      DecodeEncode(s[3..]);
      assert s == [s[0], s[1], s[2]] + s[3..];
    }
  }

  /** Different texts have different encodings. */
  lemma EncodeInjective(s: string, t: string)
    requires AreBytes(s) && AreBytes(t) && s != t
    ensures Encode(s) != Encode(t)
  {
    DecodeEncode(s);
    DecodeEncode(t);
  }

  // ---------- the two encodings agree ----------

  /** The six-bit groups of three bytes. */
  lemma SextetsOfBytes(a: nat, b: nat, c: nat, p: seq<nat>, q: seq<nat>, r: seq<nat>)
    requires a < 256 && b < 256 && c < 256 && p == ByteBits(a) && q == ByteBits(b) && r == ByteBits(c)
    ensures First(a) == 32 * p[0] + 16 * p[1] + 8 * p[2] + 4 * p[3] + 2 * p[4] + p[5]
    ensures Second(a, b) == 32 * p[6] + 16 * p[7] + 8 * q[0] + 4 * q[1] + 2 * q[2] + q[3]
    ensures Third(b, c) == 32 * q[4] + 16 * q[5] + 8 * q[6] + 4 * q[7] + 2 * r[0] + r[1]
    ensures Fourth(c) == 32 * r[2] + 16 * r[3] + 8 * r[4] + 4 * r[5] + 2 * r[6] + r[7]
  {
    ByteSum(a, p);
    ByteSum(b, q);
    ByteSum(c, r);
    assert forall i: nat | i < 8 :: p[i] < 2 && q[i] < 2 && r[i] < 2;
    hide ByteBits;
    assert p[7] < 2 && p[6] < 2 && q[3] < 2 && q[2] < 2 && q[1] < 2 && q[0] < 2;
  }

  predicate AreBits(bits: seq<nat>) {
    forall i: nat | i < |bits| :: bits[i] < 2
  }

  /** The characters of 24 bits, and of what follows them. */
  lemma CharactersOf24(bits: seq<nat>, rest: seq<nat>)
    requires AreBits(bits) && |bits| >= 24 && rest == bits[24..]
    ensures AreBits(bits[6..]) && AreBits(bits[12..]) && AreBits(bits[18..]) && AreBits(rest)
    ensures Characters(bits) ==
            [Char64(Sextet(bits)), Char64(Sextet(bits[6..])), Char64(Sextet(bits[12..])), Char64(Sextet(bits[18..]))] +
            Characters(rest)
  {
    var bits1, bits2, bits3 := bits[6..], bits[12..], bits[18..];
    assert bits1[6..] == bits2 && bits2[6..] == bits3 && bits3[6..] == rest;
    hide Char64, Sextet;
    CharactersStep(bits);
    CharactersStep(bits1);
    CharactersStep(bits2);
    CharactersStep(bits3);
    hide Characters, AreBits;
    FourCharacters(Char64(Sextet(bits)), Char64(Sextet(bits1)), Char64(Sextet(bits2)), Char64(Sextet(bits3)),
                   Characters(rest));
  }

  lemma SextetsOfThree(a: nat, b: nat, c: nat, rest: seq<nat>, bits: seq<nat>)
    requires a < 256 && b < 256 && c < 256 && AreBits(rest) && bits == ByteBits(a) + (ByteBits(b) + (ByteBits(c) + rest))
    ensures AreBits(bits) && |bits| >= 24 && bits[24..] == rest
    ensures AreBits(bits[6..]) && AreBits(bits[12..]) && AreBits(bits[18..])
    ensures Sextet(bits) == First(a) && Sextet(bits[6..]) == Second(a, b)
    ensures Sextet(bits[12..]) == Third(b, c) && Sextet(bits[18..]) == Fourth(c)
  {
    var p, q, r := ByteBits(a), ByteBits(b), ByteBits(c);
    SextetsOfBytes(a, b, c, p, q, r);
    ThreeBytes(p, q, r, rest);
    hide ByteBits, First, Second, Third, Fourth, Sextet, AreBits;
    SextetAt(bits, 0);
    SextetAt(bits, 6);
    SextetAt(bits, 12);
    SextetAt(bits, 18);
  }

  /** The characters of three bytes, and of what follows them. */
  lemma CharactersOfThree(a: nat, b: nat, c: nat, rest: seq<nat>)
    requires a < 256 && b < 256 && c < 256 && AreBits(rest)
    ensures var bits := ByteBits(a) + (ByteBits(b) + (ByteBits(c) + rest));
      && AreBits(bits)
      && Characters(bits) ==
         [Char64(First(a)), Char64(Second(a, b)), Char64(Third(b, c)), Char64(Fourth(c))] + Characters(rest)
  {
    var bits := ByteBits(a) + (ByteBits(b) + (ByteBits(c) + rest));
    SextetsOfThree(a, b, c, rest, bits);
    hide ByteBits, Char64, First, Second, Third, Fourth, Sextet, AreBits, Characters;
    CharactersOf24(bits, rest);
  }

  lemma FourCharacters(p: char, q: char, r: char, s: char, rest: string)
    ensures [p] + ([q] + ([r] + ([s] + rest))) == [p, q, r, s] + rest
  {}

  lemma SextetAt(bits: seq<nat>, k: nat)
    requires AreBits(bits) && k + 6 <= |bits|
    ensures AreBits(bits[k..]) && bits[k..][6..] == bits[k + 6..] && bits[0..] == bits
    ensures Sextet(bits[k..]) ==
            32 * bits[k] + 16 * bits[k + 1] + 8 * bits[k + 2] + 4 * bits[k + 3] + 2 * bits[k + 4] + bits[k + 5]
  {}

  lemma ThreeBytes(p: seq<nat>, q: seq<nat>, r: seq<nat>, rest: seq<nat>)
    requires |p| == 8 && |q| == 8 && |r| == 8 && AreBits(p) && AreBits(q) && AreBits(r) && AreBits(rest)
    ensures var bits := p + (q + (r + rest));
      && AreBits(bits) && |bits| >= 24 && bits[24..] == rest
      && bits[0] == p[0] && bits[1] == p[1] && bits[2] == p[2] && bits[3] == p[3]
      && bits[4] == p[4] && bits[5] == p[5] && bits[6] == p[6] && bits[7] == p[7]
      && bits[8] == q[0] && bits[9] == q[1] && bits[10] == q[2] && bits[11] == q[3]
      && bits[12] == q[4] && bits[13] == q[5] && bits[14] == q[6] && bits[15] == q[7]
      && bits[16] == r[0] && bits[17] == r[1] && bits[18] == r[2] && bits[19] == r[3]
      && bits[20] == r[4] && bits[21] == r[5] && bits[22] == r[6] && bits[23] == r[7]
  {}

  lemma CharactersStep(bits: seq<nat>)
    requires AreBits(bits) && |bits| >= 6
    ensures AreBits(bits[6..]) && Characters(bits) == [Char64(Sextet(bits))] + Characters(bits[6..])
  {
    hide Sextet, Char64;
    if |bits| == 6 {
      assert bits[6..] == [];
    }
  }

  lemma PaddedQuantum(q: string, t: string)
    requires |q| == 4
    ensures Padded(q + t) == q + Padded(t)
  {}

  lemma ZeroBits(z: seq<nat>)
    requires z == ByteBits(0)
    ensures forall i: nat | i < 8 :: z[i] == 0
  {}

  /** The last character of a text, for one to five bits. */
  lemma CharactersLast(bits: seq<nat>)
    requires AreBits(bits) && 0 < |bits| < 6
    ensures Characters(bits) == [Char64(Sextet(bits))]
  {
    hide Sextet, Char64;
  }

  lemma OneByte(s: string)
    requires AreBytes(s) && |s| == 1
    ensures Encode(s) == Rfc4648(s)
  {
    var a := s[0] as int;
    var bits, z := ByteBits(a), ByteBits(0);
    assert s[1..] == "" && Bits(s[1..]) == [] && bits + [] == bits;
    OneByteCharacters(a, bits, z);
    hide Characters, ByteBits, Char64, First, Second;
    assert Bits(s) == bits;
    Padding(Char64(First(a)), Char64(Second(a, 0)), '=');
  }

  lemma OneByteCharacters(a: nat, bits: seq<nat>, z: seq<nat>)
    requires a < 256 && bits == ByteBits(a) && z == ByteBits(0)
    ensures Characters(bits) == [Char64(First(a)), Char64(Second(a, 0))]
  {
    SextetsOfBytes(a, 0, 0, bits, z, z);
    ZeroBits(z);
    hide ByteBits, Char64, First, Second, Third, Fourth, Characters;
    SextetAt(bits, 0);
    var rest := bits[6..];
    assert rest[0] == bits[6] && rest[1] == bits[7] && |rest| == 2;
    assert Sextet(rest) == Second(a, 0);
    hide Sextet;
    CharactersStep(bits);
    CharactersLast(rest);
  }

  /** The padding of two and of three characters. */
  lemma Padding(p: char, q: char, r: char)
    ensures Padded([p, q]) == [p, q, '=', '='] && Padded([p, q, r]) == [p, q, r, '=']
  {
    assert [p, q] + "==" == [p, q, '=', '='] && [p, q, r] + "=" == [p, q, r, '='];
  }

  lemma TwoBytes(s: string)
    requires AreBytes(s) && |s| == 2
    ensures Encode(s) == Rfc4648(s)
  {
    var a, b := s[0] as int, s[1] as int;
    var p, q, z := ByteBits(a), ByteBits(b), ByteBits(0);
    assert s[1..][1..] == "" && q + [] == q && Bits(s[1..]) == q && Bits(s) == p + q;
    TwoByteCharacters(a, b, p, q, z);
    hide Characters, ByteBits, Char64, First, Second, Third;
    Padding(Char64(First(a)), Char64(Second(a, b)), Char64(Third(b, 0)));
  }

  lemma TwoByteCharacters(a: nat, b: nat, p: seq<nat>, q: seq<nat>, z: seq<nat>)
    requires a < 256 && b < 256 && p == ByteBits(a) && q == ByteBits(b) && z == ByteBits(0)
    ensures Characters(p + q) == [Char64(First(a)), Char64(Second(a, b)), Char64(Third(b, 0))]
  {
    var bits := p + q;
    SextetsOfTwo(a, b, p, q, z, bits);
    hide ByteBits, Char64, First, Second, Third, Characters, Sextet, AreBits;
    CharactersStep(bits);
    CharactersStep(bits[6..]);
    CharactersLast(bits[12..]);
  }

  lemma SextetsOfTwo(a: nat, b: nat, p: seq<nat>, q: seq<nat>, z: seq<nat>, bits: seq<nat>)
    requires a < 256 && b < 256 && p == ByteBits(a) && q == ByteBits(b) && z == ByteBits(0) && bits == p + q
    ensures AreBits(bits) && AreBits(bits[6..]) && AreBits(bits[12..]) && bits[6..][6..] == bits[12..]
    ensures Sextet(bits) == First(a) && Sextet(bits[6..]) == Second(a, b) && Sextet(bits[12..]) == Third(b, 0)
  {
    SextetsOfBytes(a, b, 0, p, q, z);
    ZeroBits(z);
    ThreeBytes(p, q, z, []);
    var longer := p + (q + (z + []));
    hide ByteBits, First, Second, Third, Fourth, Sextet;
    assert bits == longer[..16];
    SextetAt(bits, 0);
    SextetAt(bits, 6);
    LastSextet(bits[12..]);
  }

  lemma LastSextet(bits: seq<nat>)
    requires AreBits(bits) && |bits| == 4
    ensures Sextet(bits) == 32 * bits[0] + 16 * bits[1] + 8 * bits[2] + 4 * bits[3]
  {}

  /** Three bytes at a time is what the RFC describes bit by bit. */
  lemma {:induction false} EncodeIsRfc4648(s: string)
    requires AreBytes(s)
    ensures Encode(s) == Rfc4648(s)
    decreases |s|
  {
    hide Char64, First, Second, Third, Fourth, ByteBits, Sextet;
    if s == "" {
    } else if |s| == 1 {
      OneByte(s);
    } else if |s| == 2 {
      TwoBytes(s);
    } else {
      var a, b, c, rest := s[0] as int, s[1] as int, s[2] as int, s[3..];
      assert s[1..][1..] == s[2..] && s[2..][1..] == rest;
      assert Bits(s[2..]) == ByteBits(c) + Bits(rest) && Bits(s[1..]) == ByteBits(b) + Bits(s[2..]);
      assert Bits(s) == ByteBits(a) + (ByteBits(b) + (ByteBits(c) + Bits(rest)));
      CharactersOfThree(a, b, c, Bits(rest));
      EncodeIsRfc4648(rest);
      var q := [Char64(First(a)), Char64(Second(a, b)), Char64(Third(b, c)), Char64(Fourth(c))];
      hide Characters, Padded, Encode;
      PaddedQuantum(q, Characters(Bits(rest)));
    }
  }
}
