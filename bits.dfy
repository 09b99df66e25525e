/**
 * Bit sequences, most-significant bit first: the canonical form a BinaryData
 * value stores, its decimal meaning, the fixed-width binary expansion of a
 * number, and the left padding to the 4-bit word resolution.
 */
module Bits {

  type Bit = b: int | b == 0 || b == 1

  function Pow2(n: nat): (p: nat)
    ensures p >= 1
  {
    if n == 0 then 1 else 2 * Pow2(n - 1)
  }

  lemma {:induction false} Pow2Monotone(a: nat, b: nat)
    requires a <= b
    ensures Pow2(a) <= Pow2(b)
  {
    if a < b {
      Pow2Monotone(a, b - 1);
    }
  }

  lemma {:induction false} Pow2Add(a: nat, b: nat)
    ensures Pow2(a + b) == Pow2(a) * Pow2(b)
  {
    if b > 0 {
      Pow2Add(a, b - 1);
    }
  }

  /** The powers at the 16-bit and 32-bit boundaries. */
  lemma Pow2At32()
    ensures Pow2(16) == 65536
    ensures Pow2(31) == 2147483648
    ensures Pow2(32) == 4294967296
  {
    assert Pow2(3) == 8;
    assert Pow2(4) == 16;
    Pow2Add(4, 3);
    Pow2Add(4, 4);
    Pow2Add(8, 7);
    Pow2Add(8, 8);
    Pow2Add(16, 15);
    Pow2Add(16, 16);
  }

  /** The decimal value of a bit sequence, most-significant bit first. */
  function ToNat(s: seq<Bit>): nat
  {
    if s == [] then 0 else 2 * ToNat(s[..|s| - 1]) + s[|s| - 1]
  }

  lemma {:induction false} ToNatBound(s: seq<Bit>)
    ensures ToNat(s) < Pow2(|s|)
  {
    if s != [] {
      ToNatBound(s[..|s| - 1]);
    }
  }

  /** Concatenation shifts the high part left by the width of the low part. */
  lemma {:induction false} ToNatAppend(a: seq<Bit>, b: seq<Bit>)
    ensures ToNat(a + b) == ToNat(a) * Pow2(|b|) + ToNat(b)
  {
    if b == [] {
      assert a + b == a;
    } else {
      var b' := b[..|b| - 1];
      assert (a + b)[..|a + b| - 1] == a + b';
      ToNatAppend(a, b');
      var last := b[|b| - 1];
      assert ToNat(a + b) == 2 * ToNat(a + b') + last;
      assert ToNat(b) == 2 * ToNat(b') + last;
      assert Pow2(|b|) == 2 * Pow2(|b'|);
      ShiftStep(ToNat(a), Pow2(|b'|), ToNat(b'), last);
    }
  }

  lemma ShiftStep(x: int, p: int, y: int, l: int)
    ensures 2 * (x * p + y) + l == x * (2 * p) + (2 * y + l)
  {
  }

  function Repeat<T>(x: T, n: nat): (r: seq<T>)
    ensures |r| == n
    ensures forall i :: 0 <= i < n ==> r[i] == x
  {
    if n == 0 then [] else Repeat(x, n - 1) + [x]
  }

  lemma {:induction false} ToNatZeros(n: nat)
    ensures ToNat(Repeat(0, n)) == 0
  {
    if n > 0 {
      ToNatZeros(n - 1);
      assert Repeat(0, n)[..n - 1] == Repeat(0, n - 1);
    }
  }

  /** Leading zero bits do not change the decimal value. */
  lemma {:induction false} ToNatLeadingZeros(n: nat, s: seq<Bit>)
    ensures ToNat(Repeat(0, n) + s) == ToNat(s)
  {
    ToNatAppend(Repeat(0, n), s);
    ToNatZeros(n);
  }

  /** The `w`-bit binary expansion of `d` (only the low `w` bits of `d` are kept). */
  function NatToBits(d: nat, w: nat): (s: seq<Bit>)
    ensures |s| == w
  {
    if w == 0 then [] else NatToBits(d / 2, w - 1) + [d % 2]
  }

  lemma {:induction false} NatToBitsToNat(d: nat, w: nat)
    requires d < Pow2(w)
    ensures ToNat(NatToBits(d, w)) == d
  {
    if w > 0 {
      var s := NatToBits(d, w);
      assert s[..|s| - 1] == NatToBits(d / 2, w - 1);
      NatToBitsToNat(d / 2, w - 1);
    }
  }

  /** A bit sequence is the binary expansion of its own value at its own width. */
  lemma {:induction false} ToNatToBits(s: seq<Bit>)
    ensures NatToBits(ToNat(s), |s|) == s
  {
    if s != [] {
      var p := s[..|s| - 1];
      ToNatToBits(p);
      assert ToNat(s) / 2 == ToNat(p);
      assert ToNat(s) % 2 == s[|s| - 1];
      assert s == p + [s[|s| - 1]];
    }
  }

  /** Number of binary digits of `d`, counting `0` as one digit. */
  function BitLen(d: nat): (n: nat)
    ensures n >= 1
  {
    if d < 2 then 1 else 1 + BitLen(d / 2)
  }

  /** `BitLen(d)` is the least width that holds `d`. */
  lemma {:induction false} BitLenBounds(d: nat)
    ensures d < Pow2(BitLen(d))
    ensures d >= 1 ==> Pow2(BitLen(d) - 1) <= d
  {
    if d >= 2 {
      BitLenBounds(d / 2);
    }
  }

  /** The powers of two are strictly ordered like their exponents. */
  lemma Pow2Below(a: nat, b: nat)
    ensures Pow2(a) < Pow2(b) ==> a < b
  {
    if b <= a {
      Pow2Monotone(b, a);
    }
  }

  /** A number below 2^k has at most k binary digits. */
  lemma BitLenAtMost(d: nat, k: nat)
    requires d < Pow2(k)
    ensures BitLen(d) <= k || (d == 0 && k == 0)
  {
    BitLenBounds(d);
    if d >= 1 {
      Pow2Below(BitLen(d) - 1, k);
    }
  }

  /** A number of at least 2^k has more than k binary digits. */
  lemma BitLenAbove(d: nat, k: nat)
    requires Pow2(k) <= d
    ensures BitLen(d) > k
  {
    BitLenBounds(d);
    Pow2Below(k, BitLen(d));
  }

  /** The expansion at width `BitLen(d)` of a positive `d` starts with a 1 bit. */
  lemma {:induction false} NatToBitsLeadingOne(d: nat)
    requires d >= 1
    ensures NatToBits(d, BitLen(d))[0] == 1
  {
    var s := NatToBits(d, BitLen(d));
    BitLenBounds(d);
    NatToBitsToNat(d, BitLen(d));
    var t := s[1..];
    assert s == [s[0]] + t;
    ToNatAppend([s[0]], t);
    assert ToNat([s[0]]) == s[0] by {
      assert [s[0]][..0] == [];
    }
    ToNatBound(t);
  }

  /**
   * `Math.ceil(n / resolution) * resolution` for the resolution of 4 bits (one
   * word) that every stored value is aligned to: the word-aligned width for
   * `n` bits.
   */
  function PadWidth(n: nat): nat
  {
    (n + 3) / 4 * 4
  }

  lemma PadWidthBounds(n: nat)
    ensures PadWidth(n) % 4 == 0
    ensures n <= PadWidth(n) < n + 4
    ensures n % 4 == 0 ==> PadWidth(n) == n
    ensures n >= 1 ==> PadWidth(n) >= 4
  {
  }

  /** Two bit sequences of the same width with the same value are the same sequence. */
  lemma ToNatInjective(a: seq<Bit>, b: seq<Bit>)
    requires |a| == |b| && ToNat(a) == ToNat(b)
    ensures a == b
  {
    ToNatToBits(a);
    ToNatToBits(b);
  }

  /** Every width in the word below an aligned `w` pads to `w`. */
  lemma PadWidthOf(n: nat, w: nat)
    requires w % 4 == 0 && w - 4 < n <= w
    ensures PadWidth(n) == w
  {
    var m := w / 4;
    assert w == 4 * m;
    assert 4 * m <= n + 3 < 4 * m + 4;
  }

  /** `s` left-padded with `fill` to the next multiple of 4 elements. */
  function Pad<T>(s: seq<T>, fill: T): (r: seq<T>)
    ensures |r| % 4 == 0
    ensures |s| <= |r| < |s| + 4
    ensures r[|r| - |s|..] == s
    ensures forall i :: 0 <= i < |r| - |s| ==> r[i] == fill
  {
    PadWidthBounds(|s|);
    Repeat(fill, PadWidth(|s|) - |s|) + s
  }

  /** Padding with zero bits keeps the value: the caller sees the same number on a word-aligned width. */
  lemma PadValue(s: seq<Bit>)
    ensures ToNat(Pad(s, 0)) == ToNat(s)
    ensures |Pad(s, 0)| == PadWidth(|s|)
  {
    PadWidthBounds(|s|);
    ToNatLeadingZeros(PadWidth(|s|) - |s|, s);
  }

  /** Pad spelled out: the fill elements that `padStart` or `unshift` add, then the sequence. */
  lemma PadIs<T>(s: seq<T>, fill: T, n: nat)
    requires n == PadWidth(|s|)
    ensures |s| <= n
    ensures Pad(s, fill) == Repeat(fill, n - |s|) + s
  {
    PadWidthBounds(|s|);
  }

  lemma PadAligned<T>(s: seq<T>, fill: T)
    requires |s| % 4 == 0
    ensures Pad(s, fill) == s
  {
    PadWidthBounds(|s|);
  }

  /** Replaces every bit by its complement. */
  function Flip(s: seq<Bit>): (r: seq<Bit>)
    ensures |r| == |s|
    ensures forall i :: 0 <= i < |s| ==> r[i] == 1 - s[i]
  {
    seq(|s|, i requires 0 <= i < |s| => 1 - s[i])
  }

  lemma FlipInvolution(s: seq<Bit>)
    ensures |Flip(s)| == |s|
    ensures forall i :: 0 <= i < |s| ==> Flip(s)[i] != s[i]
    ensures Flip(Flip(s)) == s
  {
  }

  /** The complement of a value is its distance to the largest value of the same width. */
  lemma {:induction false} FlipValue(s: seq<Bit>)
    ensures ToNat(Flip(s)) == Pow2(|s|) - 1 - ToNat(s)
  {
    if s != [] {
      var p := s[..|s| - 1];
      assert Flip(s)[..|s| - 1] == Flip(p);
      FlipValue(p);
    }
  }

  /** `join('')` of a bit array: the binary string of '0' and '1' characters. */
  function BitString(s: seq<Bit>): (r: string)
    ensures |r| == |s| && IsBinaryChars(r)
  {
    seq(|s|, i requires 0 <= i < |s| => if s[i] == 1 then '1' else '0')
  }

  lemma BitStringAppend(a: seq<Bit>, b: seq<Bit>)
    ensures BitString(a + b) == BitString(a) + BitString(b)
  {
  }

  predicate IsBinaryChars(s: string)
  {
    forall i :: 0 <= i < |s| ==> s[i] == '0' || s[i] == '1'
  }

  /** `parseInt(c, 2)` of every character of a binary string. */
  function CharBits(s: string): (r: seq<Bit>)
    requires IsBinaryChars(s)
  {
    seq(|s|, i requires 0 <= i < |s| => if s[i] == '1' then 1 else 0)
  }

  lemma BitStringRoundTrip(s: seq<Bit>)
    ensures |BitString(s)| == |s|
    ensures IsBinaryChars(BitString(s))
    ensures CharBits(BitString(s)) == s
  {
  }

  lemma CharBitsRoundTrip(s: string)
    requires IsBinaryChars(s)
    ensures |CharBits(s)| == |s|
    ensures BitString(CharBits(s)) == s
  {
  }

  lemma BitStringInjective(a: seq<Bit>, b: seq<Bit>)
    requires BitString(a) == BitString(b)
    ensures a == b
  {
    BitStringRoundTrip(a);
    BitStringRoundTrip(b);
  }
}
