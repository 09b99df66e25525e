/**
 * The internal conversions of BinaryData: the four input converters
 * (decimal, hex string, binary string, bit array) as the loops the class
 * runs, each proved equal to a reference definition of what it computes,
 * and the two output conversions (hex digits and decimal value).
 */
module Conversions {
  import opened Options
  import opened Bits
  import opened Words
  import opened JsHost

  /** The bit value of every position up to 32 bits: 1, 2, 4, ..., 4294967296. */
  const BitTable: seq<nat> := seq(33, i requires 0 <= i < 33 => Pow2(i))

  /** The table ends at 2^31 = 2147483648 and 2^32 = 4294967296. */
  lemma BitTableEnds()
    ensures |BitTable| == 33
    ensures BitTable[0] == 1 && BitTable[31] == 2147483648 && BitTable[32] == 4294967296
  {
    Pow2At32();
  }

  // ---------------------------------------------------------------------------
  // Decimal input
  // ---------------------------------------------------------------------------

  /**
   * The bits the greedy loop of `#decimalToBinary` emits for an integer: below
   * 2^32 the binary expansion of the number on BitLen(d) bits. Outside that
   * range the scan of the bit table finds no entry and a single greedy step
   * runs, so the result is a single 0 bit (negative numbers) or a single 1 bit
   * (2^32 and above).
   */
  function DecimalDigits(d: int): seq<Bit>
  {
    if 0 <= d < Pow2(32) then NatToBits(d, BitLen(d))
    else if d < 0 then [0]
    else [1]
  }

  /** What `#decimalToBinary` returns: those bits, padded with leading zeros to whole words. */
  function DecimalBits(d: int): (r: seq<Bit>)
    ensures |r| % 4 == 0 && |r| >= 4
  {
    PadWidthBounds(|DecimalDigits(d)|);
    Pad(DecimalDigits(d), 0)
  }

  /** Decimal round trip: the stored bits read back as the number, on a word-aligned width. */
  lemma {:induction false} DecimalRoundTrip(d: int)
    requires 0 <= d < Pow2(32)
    ensures ToNat(DecimalBits(d)) == d
    ensures |DecimalBits(d)| == PadWidth(BitLen(d))
    ensures |DecimalBits(d)| % 4 == 0 && |DecimalBits(d)| >= 4
  {
    var s := DecimalDigits(d);
    assert s == NatToBits(d, BitLen(d));
    BitLenBounds(d);
    NatToBitsToNat(d, BitLen(d));
    PadValue(s);
    PadWidthBounds(|s|);
  }

  /** The width follows the magnitude: fewer than 4 zero bits precede the leading 1. */
  lemma {:induction false} DecimalMinimalWidth(d: int)
    requires 1 <= d < Pow2(32)
    ensures |DecimalBits(d)| - BitLen(d) < 4
    ensures DecimalBits(d)[|DecimalBits(d)| - BitLen(d)] == 1
    ensures forall i :: 0 <= i < |DecimalBits(d)| - BitLen(d) ==> DecimalBits(d)[i] == 0
  {
    var s := NatToBits(d, BitLen(d));
    var r := DecimalBits(d);
    NatToBitsLeadingOne(d);
    assert r[|r| - |s|..] == s;
    assert r[|r| - |s|] == s[0];
  }

  /** A number from 2^(w-4) up to 2^w - 1 is stored in exactly `w` bits. */
  lemma {:induction false} DecimalWidth(d: int, w: nat)
    requires 4 <= w <= 32 && w % 4 == 0
    requires Pow2(w - 4) <= d < Pow2(w)
    ensures |DecimalBits(d)| == w && ToNat(DecimalBits(d)) == d
  {
    Pow2Monotone(w, 32);
    DecimalRoundTrip(d);
    BitLenInWord(d, w);
  }

  /** The bit length of such a number lies in the last word below `w`. */
  lemma BitLenInWord(d: nat, w: nat)
    requires 4 <= w && w % 4 == 0
    requires Pow2(w - 4) <= d < Pow2(w)
    ensures PadWidth(BitLen(d)) == w
  {
    var n := BitLen(d);
    BitLenAtMost(d, w);
    BitLenAbove(d, w - 4);
    PadWidthOf(n, w);
  }

  /** The fallback outside 0 <= d < 2^32: numbers are accepted, but their bits are not their value. */
  lemma {:induction false} DecimalOutOfRange(d: int)
    requires d < 0 || d >= Pow2(32)
    ensures d < 0 ==> DecimalBits(d) == [0, 0, 0, 0]
    ensures d >= Pow2(32) ==> DecimalBits(d) == [0, 0, 0, 1]
  {
    var zero: seq<Bit> := [0];
    var one: seq<Bit> := [1];
    assert DecimalDigits(d) == if d < 0 then zero else one;
    assert Pad(zero, 0) == Repeat(0, 3) + zero;
    assert Pad(one, 0) == Repeat(0, 3) + one;
  }

  /** The scan of the bit table stops at the position of the leading 1 bit of `d`. */
  lemma {:induction false} ScanStop(d: int, index: nat)
    requires 1 <= d < Pow2(32) && index < 33
    requires index <= BitLen(d) - 1
    ensures BitLen(d) - 1 < 32
    ensures (Pow2(index) <= d && index + 1 < 33 && d < Pow2(index + 1)) <==> index == BitLen(d) - 1
  {
    var top := BitLen(d) - 1;
    BitLenBounds(d);
    Pow2Below(top, 32);
    if index < top {
      Pow2Monotone(index + 1, top);
    }
  }

  /** The greedy loop's invariant: the bits emitted so far, shifted by the `w` bits still to come, plus what is left of the input, make up the input. */
  ghost predicate Greedy(bits: seq<Bit>, w: nat, rest: int, data: int)
  {
    0 <= rest < Pow2(w) && ToNat(bits) * Pow2(w) + rest == data
  }

  /** One greedy step: emitting 1 (and subtracting 2^k) when `rest >= 2^k`, and 0 otherwise, keeps the invariant. */
  lemma {:induction false} GreedyStep(before: seq<Bit>, k: nat, rest: int, data: int)
    requires Greedy(before, k + 1, rest, data)
    ensures rest >= Pow2(k) ==> Greedy(before + [1], k, rest - Pow2(k), data)
    ensures rest < Pow2(k) ==> Greedy(before + [0], k, rest, data)
  {
    var b: Bit := if rest >= Pow2(k) then 1 else 0;
    var t := ToNat(before);
    assert (before + [b])[..|before|] == before;
    assert ToNat(before + [b]) == 2 * t + b;
    assert Pow2(k + 1) == 2 * Pow2(k);
    calc {
      (2 * t + b) * Pow2(k) + (rest - b * Pow2(k));
      t * (2 * Pow2(k)) + rest;
      data;
    }
  }

  /** The greedy loop ends with the expansion of `d` at its own bit length. */
  lemma {:induction false} GreedyDone(bits: seq<Bit>, rest: int, d: nat)
    requires |bits| == BitLen(d)
    requires Greedy(bits, 0, rest, d)
    ensures bits == NatToBits(d, BitLen(d))
  {
    assert Pow2(0) == 1;
    assert ToNat(bits) == d;
    ToNatToBits(bits);
  }

  /**
   * The state of the greedy loop at table position `k`, counting down from
   * `top`: below 2^32 the greedy invariant; outside that range `top` is 0 and
   * the single step at position 0 emits 1 exactly when the input is positive.
   */
  ghost predicate GreedyState(bits: seq<Bit>, k: int, rest: int, data: int, top: nat)
  {
    && top == TopBit(data) && -1 <= k <= top && |bits| == top - k
    && (1 <= data < Pow2(32) ==> Greedy(bits, k + 1, rest, data))
    && (!(1 <= data < Pow2(32)) ==>
          top == 0 && (k == 0 ==> bits == [] && rest == data) && (k == -1 ==> bits == [if data >= 1 then 1 else 0]))
  }

  /** The greedy loop starts at the top bit with nothing emitted and the whole input left. */
  lemma GreedyStart(data: int, top: nat)
    requires top == TopBit(data)
    ensures GreedyState([], top, data, data, top)
  {
    if 1 <= data < Pow2(32) {
      BitLenBounds(data);
    }
  }

  /** One step of the greedy loop at position `k` reads 2^k from the table and keeps the state. */
  lemma GreedyNext(bits: seq<Bit>, k: int, rest: int, data: int, top: nat)
    requires GreedyState(bits, k, rest, data, top) && k >= 0
    ensures k < |BitTable| && BitTable[k] == Pow2(k)
    ensures rest >= BitTable[k] ==> GreedyState(bits + [1], k - 1, rest - BitTable[k], data, top)
    ensures rest < BitTable[k] ==> GreedyState(bits + [0], k - 1, rest, data, top)
  {
    TopBitBrackets(data);
    BitTableAt(k);
    if 1 <= data < Pow2(32) {
      GreedyStep(bits, k, rest, data);
    }
  }

  /** Entry `k` of the bit table is 2^k. */
  lemma BitTableAt(k: nat)
    requires k < 33
    ensures |BitTable| == 33 && BitTable[k] == Pow2(k)
  {
  }

  /** The greedy loop ends with the bits `#decimalToBinary` emits for the input. */
  lemma GreedyEnd(bits: seq<Bit>, rest: int, data: int, top: nat)
    requires GreedyState(bits, -1, rest, data, top)
    ensures bits == DecimalDigits(data)
  {
    if 1 <= data < Pow2(32) {
      GreedyDone(bits, rest, data);
    } else if 0 <= data < Pow2(32) {
      assert NatToBits(data, BitLen(data)) == [0];
    }
  }

  /** `unshift(x)` on `n` copies of `x` before `s` gives `n + 1` copies. */
  lemma RepeatCons<T>(x: T, n: nat, s: seq<T>)
    ensures [x] + (Repeat(x, n) + s) == Repeat(x, n + 1) + s
  {
    assert [x] + Repeat(x, n) == Repeat(x, n + 1);
  }

  /** The position of the leading 1 bit that the scan of the bit table finds; 0 when no entry brackets `d`. */
  function TopBit(d: int): nat
  {
    if 1 <= d < Pow2(32) then BitLen(d) - 1 else 0
  }

  /** Within 32 bits the top bit is the one position whose table entry brackets `d`; outside, the scan finds none. */
  lemma TopBitBrackets(d: int)
    ensures 1 <= d < Pow2(32) ==> TopBit(d) < 32 && Pow2(TopBit(d)) <= d < Pow2(TopBit(d) + 1)
    ensures !(1 <= d < Pow2(32)) ==> TopBit(d) == 0
  {
    if 1 <= d < Pow2(32) {
      BitLenBounds(d);
      Pow2Below(BitLen(d) - 1, 32);
    }
  }

  /** `#decimalToBinary`: scan the bit table for the top bit, emit bits greedily, pad with leading zeros. */
  method DecimalToBinary(data: int) returns (bitValues: seq<Bit>)
    ensures bitValues == DecimalBits(data)
  {
    // Find largest bit value.
    var realBits := FindTopBit(data);
    // Convert TRUE bits to 1's and FALSE to 0's.
    bitValues := GreedyBits(data, realBits);
    // Pad the bit array to the required precision.
    bitValues := PadZeros(bitValues);
  }

  /** The first loop of `#decimalToBinary`: the first table index `i` with `BitTable[i] <= d < BitTable[i + 1]`. */
  method FindTopBit(data: int) returns (realBits: nat)
    ensures realBits == TopBit(data)
    ensures 1 <= data < Pow2(32) ==> Pow2(realBits) <= data < Pow2(realBits + 1)
  {
    BitTableEnds();
    ghost var inRange := 1 <= data < Pow2(32);
    if inRange {
      ScanStop(data, 0);
      BitLenBounds(data);
    }
    realBits := 0;
    for index := 0 to |BitTable|
      invariant inRange ==> index <= TopBit(data)
      invariant realBits == 0
    {
      if inRange {
        ScanStop(data, index);
      } else if index + 1 < 33 {
        Pow2Monotone(index + 1, 32);
      }
      if data >= BitTable[index] && index + 1 < |BitTable| && data < BitTable[index + 1] {
        realBits := index;
        break;
      }
    }
  }

  /** The second loop of `#decimalToBinary`: for every table value from `realBits` down, emit 1 and subtract it if it fits, 0 otherwise. */
  method GreedyBits(data: int, realBits: nat) returns (bitValues: seq<Bit>)
    requires realBits == TopBit(data)
    ensures bitValues == DecimalDigits(data)
  {
    bitValues := [];
    var rest := data;
    var k: int := realBits;
    GreedyStart(data, realBits);
    while k >= 0
      invariant -1 <= k
      invariant GreedyState(bitValues, k, rest, data, realBits)
      decreases k
    {
      GreedyNext(bitValues, k, rest, data, realBits);
      var bitValue := BitTable[k];
      if rest >= bitValue {
        rest := rest - bitValue;
        bitValues := bitValues + [1];
      } else {
        bitValues := bitValues + [0];
      }
      k := k - 1;
    }
    GreedyEnd(bitValues, rest, data, realBits);
  }

  /** The third loop of `#decimalToBinary`: `unshift(0)` until the length is a multiple of 4. */
  method PadZeros(bits: seq<Bit>) returns (bitValues: seq<Bit>)
    ensures bitValues == Pad(bits, 0)
  {
    bitValues := bits;
    var precisionBits := PadWidth(|bitValues|);
    PadWidthBounds(|bits|);
    while |bitValues| < precisionBits
      invariant |bits| <= |bitValues| <= precisionBits
      invariant bitValues == Repeat(0, |bitValues| - |bits|) + bits
      decreases precisionBits - |bitValues|
    {
      RepeatCons(0, |bitValues| - |bits|, bits);
      bitValues := [0] + bitValues;
    }
  }

  // ---------------------------------------------------------------------------
  // Hex string input
  // ---------------------------------------------------------------------------

  predicate AllHex(s: string)
  {
    forall i :: 0 <= i < |s| ==> IsHexDigit(s[i])
  }

  /** Reference expansion of upper-case hex digits: each digit becomes the 4-bit expansion of its value. */
  function HexDigitBits(digits: string): (r: seq<Bit>)
    requires AllHex(digits)
    ensures |r| == 4 * |digits|
  {
    if digits == [] then []
    else HexDigitBits(digits[..|digits| - 1]) + NatToBits(HexValue(digits[|digits| - 1]), 4)
  }

  /** `data.toUpperCase().substring(2, length)`: the digits after the two-character prefix. */
  function HexDigitsOf(data: string): string
  {
    var upper := ToUpperCase(data);
    if |upper| < 2 then "" else upper[2..]
  }

  /** What `#hexStringToBinary` returns: the expansion of the digits, or nothing if one of them is not 0-9A-F. */
  function HexStringBits(data: string): (r: Option<seq<Bit>>)
    ensures r.Some? ==> |r.value| % 4 == 0
  {
    var digits := HexDigitsOf(data);
    if AllHex(digits) then Some(HexDigitBits(digits)) else None
  }

  /** Extending the digits by one digit extends the expansion by that digit's 4 bits. */
  lemma HexDigitBitsStep(digits: string, i: nat)
    requires i < |digits|
    ensures AllHex(digits[..i + 1]) <==> AllHex(digits[..i]) && IsHexDigit(digits[i])
    ensures AllHex(digits[..i + 1]) ==>
      HexDigitBits(digits[..i + 1]) == HexDigitBits(digits[..i]) + NatToBits(HexValue(digits[i]), 4)
  {
    assert digits[..i + 1][..i] == digits[..i];
    assert digits[..i + 1][i] == digits[i];
  }

  /** `binary.split('').forEach(value => bitValues.push(parseInt(value, 2)))` on a string of '0' and '1'. */
  method PushBits(bitValues: seq<Bit>, binary: string) returns (r: seq<Bit>)
    requires IsBinaryChars(binary)
    ensures r == bitValues + CharBits(binary)
  {
    r := bitValues;
    ghost var expansion := CharBits(binary);
    for j := 0 to |binary|
      invariant r == bitValues + expansion[..j]
    {
      assert expansion[..j + 1] == expansion[..j] + [expansion[j]];
      r := r + [if binary[j] == '1' then 1 else 0];
    }
    assert expansion[..|binary|] == expansion;
  }

  /** `#hexStringToBinary`: upper-case, then expand every digit through the word table. */
  method HexStringToBinary(data: string) returns (r: Option<seq<Bit>>)
    ensures r == HexStringBits(data)
  {
    var success := true;
    var bitValues: seq<Bit> := [];
    var upper := ToUpperCase(data);
    var digits := if |upper| < 2 then "" else upper[2..];
    for i := 0 to |digits|
      invariant success == AllHex(digits[..i])
      invariant success ==> bitValues == HexDigitBits(digits[..i])
    {
      var str := digits[i];
      HexDigitBitsStep(digits, i);
      HexDigitMembership(str);
      if str in ValidHexChars {
        HexDigitWord(str);
        bitValues := PushBits(bitValues, GetWordFromHex([str]).binary);
      } else {
        success := false;
      }
    }
    assert digits[..|digits|] == digits;
    r := if success then Some(bitValues) else None;
  }

  /** The 4-bit group `i` of the expansion is the expansion of digit `i`. */
  lemma {:induction false} HexDigitBitsGroup(digits: string, i: nat)
    requires AllHex(digits) && i < |digits|
    ensures HexDigitBits(digits)[4 * i..4 * i + 4] == NatToBits(HexValue(digits[i]), 4)
  {
    var n := |digits|;
    var prefix := digits[..n - 1];
    HexDigitBitsStep(digits, n - 1);
    assert digits[..n] == digits;
    var front := HexDigitBits(prefix);
    var last := NatToBits(HexValue(digits[n - 1]), 4);
    if i < n - 1 {
      HexDigitBitsGroup(prefix, i);
      SliceOfConcat(front, last, 4 * i, 4 * i + 4);
    } else {
      SliceOfConcat(front, last, 4 * i, 4 * i + 4);
    }
  }

  /** A slice of a concatenation lies in its left part, or is exactly its right part. */
  lemma SliceOfConcat<T>(a: seq<T>, b: seq<T>, i: nat, j: nat)
    requires i <= j <= |a| + |b|
    ensures j <= |a| ==> (a + b)[i..j] == a[i..j]
    ensures i == |a| && j == |a| + |b| ==> (a + b)[i..j] == b
  {
  }

  /** The word table's binary strings for the digits, one after the other. */
  function TableBinary(digits: string): string
    requires AllHex(digits)
  {
    if digits == [] then ""
    else TableBinary(digits[..|digits| - 1]) + WordTable[HexValue(digits[|digits| - 1])].binary
  }

  /** Hex/binary consistency: the binary string of an expanded hex value spells the table rows of its digits. */
  lemma {:induction false} HexDigitBitsSpelling(digits: string)
    requires AllHex(digits)
    ensures BitString(HexDigitBits(digits)) == TableBinary(digits)
  {
    if digits != [] {
      var prefix := digits[..|digits| - 1];
      assert AllHex(prefix);
      var v := HexValue(digits[|digits| - 1]);
      HexDigitBitsSpelling(prefix);
      WordTableRow(v);
      BitStringAppend(HexDigitBits(prefix), NatToBits(v, 4));
    }
  }

  /** The value of a string of hex digits in base 16. */
  function HexNat(digits: string): nat
    requires AllHex(digits)
  {
    if digits == [] then 0 else 16 * HexNat(digits[..|digits| - 1]) + HexValue(digits[|digits| - 1])
  }

  /** Appending a digit multiplies the value by 16 and adds the digit. */
  lemma HexNatStep(prefix: string, c: char)
    requires AllHex(prefix) && IsHexDigit(c)
    ensures AllHex(prefix + [c])
    ensures HexNat(prefix + [c]) == 16 * HexNat(prefix) + HexValue(c)
  {
    assert (prefix + [c])[..|prefix|] == prefix;
  }

  /** The expansion of hex digits reads back as their base-16 value. */
  lemma {:induction false} HexDigitBitsValue(digits: string)
    requires AllHex(digits)
    ensures ToNat(HexDigitBits(digits)) == HexNat(digits)
  {
    if digits != [] {
      var prefix := digits[..|digits| - 1];
      assert AllHex(prefix);
      var v := HexValue(digits[|digits| - 1]);
      var front := HexDigitBits(prefix);
      var last := NatToBits(v, 4);
      assert HexDigitBits(digits) == front + last;
      assert HexNat(digits) == 16 * HexNat(prefix) + v;
      HexDigitBitsValue(prefix);
      ToNatAppend(front, last);
      assert Pow2(4) == 16;
      NatToBitsToNat(v, 4);
      assert ToNat(front + last) == HexNat(prefix) * 16 + v;
    }
  }

  // ---------------------------------------------------------------------------
  // Binary string input
  // ---------------------------------------------------------------------------

  /** `padStart` to the word-aligned width is the left padding of the model. */
  lemma PadStartIsPad(s: string, c: char)
    ensures PadStart(s, PadWidth(|s|), c) == Pad(s, c)
  {
    PadWidthBounds(|s|);
  }

  lemma {:induction false} PadKeepsBinaryChars(s: string)
    ensures IsBinaryChars(Pad(s, '0')) <==> IsBinaryChars(s)
  {
    var r := Pad(s, '0');
    var k := |r| - |s|;
    if IsBinaryChars(s) {
      forall i | 0 <= i < |r|
        ensures r[i] == '0' || r[i] == '1'
      {
        if i >= k {
          assert r[i] == r[k..][i - k];
        }
      }
    } else {
      var j :| 0 <= j < |s| && s[j] != '0' && s[j] != '1';
      assert r[k + j] == r[k..][j];
    }
  }

  /** Reading the '0'-padded string as bits is padding its bits with 0. */
  lemma {:induction false} CharBitsPad(s: string)
    requires IsBinaryChars(s)
    ensures IsBinaryChars(Pad(s, '0'))
    ensures CharBits(Pad(s, '0')) == Pad(CharBits(s), 0)
  {
    PadKeepsBinaryChars(s);
    var r := Pad(s, '0');
    var b := Pad(CharBits(s), 0);
    var k := |r| - |s|;
    forall i | 0 <= i < |r|
      ensures CharBits(r)[i] == b[i]
    {
      if i >= k {
        assert r[i] == r[k..][i - k];
        assert b[i] == b[k..][i - k];
      }
    }
  }

  /** What `#binaryStringToBinary` returns: the string padded with '0' to whole words, as bits, if it is all '0' and '1'. */
  function BinaryStringBits(data: string): (r: Option<seq<Bit>>)
    ensures r.Some? ==> |r.value| % 4 == 0
  {
    if IsBinaryChars(data) then
      PadKeepsBinaryChars(data);
      Some(CharBits(Pad(data, '0')))
    else None
  }

  /** Extending a binary string by one character extends its bits by that character's bit. */
  lemma CharBitsStep(s: string, i: nat)
    requires i < |s|
    ensures IsBinaryChars(s[..i + 1]) <==> IsBinaryChars(s[..i]) && (s[i] == '0' || s[i] == '1')
    ensures IsBinaryChars(s[..i + 1]) ==>
      CharBits(s[..i + 1]) == CharBits(s[..i]) + [if s[i] == '1' then 1 else 0]
  {
    assert s[..i + 1][..i] == s[..i];
    assert s[..i + 1][i] == s[i];
  }

  /** The `forEach` of `#binaryStringToBinary`: the bit of each character, or failure if any character is not '0' or '1'. */
  method ReadBinaryChars(padded: string) returns (r: Option<seq<Bit>>)
    ensures r.Some? <==> IsBinaryChars(padded)
    ensures r.Some? ==> r.value == CharBits(padded)
  {
    var success := true;
    var bitValues: seq<Bit> := [];
    for i := 0 to |padded|
      invariant success == IsBinaryChars(padded[..i])
      invariant success ==> bitValues == CharBits(padded[..i])
    {
      var str := padded[i];
      CharBitsStep(padded, i);
      BinaryCharMembership(str);
      if str in ValidBinaryChars {
        bitValues := bitValues + [if str == '1' then 1 else 0];
      } else {
        success := false;
      }
    }
    assert padded[..|padded|] == padded;
    r := if success then Some(bitValues) else None;
  }

  /** `#binaryStringToBinary`: pad with '0' to the resolution, keep each character that is '0' or '1'. */
  method BinaryStringToBinary(data: string) returns (r: Option<seq<Bit>>)
    ensures r == BinaryStringBits(data)
  {
    var realBits := |data|;
    var precisionBits := PadWidth(realBits);
    var padded := PadStart(data, precisionBits, '0');
    PadStartIsPad(data, '0');
    PadKeepsBinaryChars(data);
    r := ReadBinaryChars(padded);
  }

  /** A binary string is stored as itself left-padded with '0', keeping its value; anything else is refused. */
  lemma {:induction false} BinaryStringMeaning(s: string)
    ensures BinaryStringBits(s).Some? <==> IsBinaryChars(s)
    ensures IsBinaryChars(s) ==> BitString(BinaryStringBits(s).value) == Pad(s, '0')
    ensures IsBinaryChars(s) ==> ToNat(BinaryStringBits(s).value) == ToNat(CharBits(s))
  {
    if IsBinaryChars(s) {
      CharBitsPad(s);
      CharBitsRoundTrip(Pad(s, '0'));
      PadValue(CharBits(s));
    }
  }

  // ---------------------------------------------------------------------------
  // Bit array input
  // ---------------------------------------------------------------------------

  /** Every element is exactly the number 0 or the number 1. */
  predicate IsBitArray(a: seq<int>)
  {
    forall i :: 0 <= i < |a| ==> a[i] == 0 || a[i] == 1
  }

  lemma {:induction false} PadKeepsBitArray(a: seq<int>)
    ensures IsBitArray(Pad(a, 0)) <==> IsBitArray(a)
  {
    var r := Pad(a, 0);
    var k := |r| - |a|;
    if IsBitArray(a) {
      forall i | 0 <= i < |r|
        ensures r[i] == 0 || r[i] == 1
      {
        if i >= k {
          assert r[i] == r[k..][i - k];
        }
      }
    } else {
      var j :| 0 <= j < |a| && a[j] != 0 && a[j] != 1;
      assert r[k + j] == r[k..][j];
    }
  }

  /** What `#binaryArrayToBinary` returns: the array padded with 0 to whole words, if every element is 0 or 1. */
  function ArrayBits(a: seq<int>): (r: Option<seq<Bit>>)
    ensures r.Some? ==> |r.value| % 4 == 0
  {
    if IsBitArray(a) then
      PadKeepsBitArray(a);
      var padded: seq<Bit> := Pad(a, 0);
      Some(padded)
    else None
  }

  /** A bit array is stored as itself left-padded with 0; one bad element refuses the whole array. */
  lemma ArrayMeaning(a: seq<int>)
    ensures ArrayBits(a).Some? <==> IsBitArray(a)
    ensures IsBitArray(a) ==> ArrayBits(a).value == Pad(a, 0)
    ensures IsBitArray(a) ==> |ArrayBits(a).value| % 4 == 0
  {
  }

  /** The padded array has the value of the array itself. */
  lemma {:induction false} ArrayValue(a: seq<int>)
    requires IsBitArray(a)
    ensures ToNat(ArrayBits(a).value) == ToNat(a)
  {
    var b: seq<Bit> := a;
    PadKeepsBitArray(a);
    assert ArrayBits(a).value == Pad(b, 0) by {
      var p := ArrayBits(a).value;
      var q := Pad(b, 0);
      var k := |q| - |b|;
      forall i | 0 <= i < |q|
        ensures p[i] == q[i]
      {
        if i >= k {
          assert p[i] == p[k..][i - k];
          assert q[i] == q[k..][i - k];
        }
      }
    }
    PadValue(b);
  }

  /** Extending an array by one element keeps it a bit array exactly when that element is 0 or 1. */
  lemma BitArrayStep(a: seq<int>, i: nat)
    requires i < |a|
    ensures IsBitArray(a[..i + 1]) <==> IsBitArray(a[..i]) && (a[i] == 0 || a[i] == 1)
    ensures a[..i + 1] == a[..i] + [a[i]]
  {
    assert a[..i + 1][..i] == a[..i];
    assert a[..i + 1][i] == a[i];
  }

  /** The `unshift(0)` loop of `#binaryArrayToBinary`: prepends 0 to the caller's array until it has `width` elements. */
  method UnshiftZeros(data: JsArray, width: nat)
    requires |data.items| <= width
    modifies data
    ensures data.items == Repeat(0, width - |old(data.items)|) + old(data.items)
  {
    ghost var original := data.items;
    while |data.items| < width
      invariant |original| <= |data.items| <= width
      invariant data.items == Repeat(0, |data.items| - |original|) + original
      decreases width - |data.items|
    {
      RepeatCons(0, |data.items| - |original|, original);
      data.items := [0] + data.items;
    }
  }

  /** The `forEach` of `#binaryArrayToBinary`: the elements as bits, or failure if any element is not 0 or 1. */
  method ReadBitArray(items: seq<int>) returns (r: Option<seq<Bit>>)
    ensures r.Some? <==> IsBitArray(items)
    ensures r.Some? ==> r.value == items
  {
    var success := true;
    var bitValues: seq<Bit> := [];
    for i := 0 to |items|
      invariant success == IsBitArray(items[..i])
      invariant success ==> bitValues == items[..i]
    {
      var value := items[i];
      BitArrayStep(items, i);
      if value == 1 || value == 0 {
        var bit: Bit := value;
        bitValues := bitValues + [bit];
      } else {
        success := false;
      }
    }
    assert items[..|items|] == items;
    r := if success then Some(bitValues) else None;
  }

  /** `#binaryArrayToBinary`: pads the caller's array in place with `unshift(0)`, then keeps each element that is 0 or 1. */
  method BinaryArrayToBinary(data: JsArray) returns (r: Option<seq<Bit>>)
    modifies data
    ensures data.items == Pad(old(data.items), 0)
    ensures r == ArrayBits(old(data.items))
  {
    var realBits := |data.items|;
    var precisionBits := PadWidth(realBits);
    PadIs(data.items, 0, precisionBits);
    PadKeepsBitArray(data.items);
    UnshiftZeros(data, precisionBits);
    r := ReadBitArray(data.items);
  }

  // ---------------------------------------------------------------------------
  // Output conversions
  // ---------------------------------------------------------------------------

  /**
   * Reference meaning of the digits `getHex` appends after "0x": one upper-case
   * hex digit per 4-bit word, front to back, naming the value of that word.
   */
  function HexDigits(bits: seq<Bit>): (h: string)
    requires |bits| % 4 == 0
    ensures 4 * |h| == |bits|
  {
    seq(|bits| / 4, i requires 0 <= i < |bits| / 4 => ValidHexChars[WordValue(bits, i)])
  }

  /** The value of word `i` of an aligned bit sequence. */
  function WordValue(bits: seq<Bit>, i: nat): (v: nat)
    requires 4 * i + 4 <= |bits|
    ensures v < 16
  {
    ToNatBound(bits[4 * i..4 * i + 4]);
    assert Pow2(4) == 16;
    ToNat(bits[4 * i..4 * i + 4])
  }

  /** Appending the 4 bits of `d` appends the digit of `d`. */
  lemma HexDigitsAppendWord(bits: seq<Bit>, d: nat)
    requires |bits| % 4 == 0 && d < 16
    ensures HexDigits(bits + NatToBits(d, 4)) == HexDigits(bits) + [ValidHexChars[d]]
  {
    var w := NatToBits(d, 4);
    var all := bits + w;
    var m := |bits| / 4;
    var h, g := HexDigits(all), HexDigits(bits) + [ValidHexChars[d]];
    assert |h| == m + 1 == |g|;
    forall i | 0 <= i < m + 1
      ensures h[i] == g[i]
    {
      assert h[i] == ValidHexChars[WordValue(all, i)];
      if i < m {
        assert all[4 * i..4 * i + 4] == bits[4 * i..4 * i + 4];
        assert WordValue(all, i) == WordValue(bits, i);
      } else {
        assert all[4 * m..4 * m + 4] == w;
        assert Pow2(4) == 16;
        NatToBitsToNat(d, 4);
        assert WordValue(all, m) == d;
      }
    }
  }

  /** The lookup `getHex` does for one word yields the reference digit of that word. */
  lemma WordLookup(bits: seq<Bit>, i: nat)
    requires 4 * i + 4 <= |bits|
    ensures GetWordFromBinary(BitString(bits[4 * i..4 * i + 4])).hex == [ValidHexChars[WordValue(bits, i)]]
  {
    GetWordFromBinaryOfWord(bits[4 * i..4 * i + 4]);
  }

  /** Hex/binary consistency: the digit of a word names the table row whose binary string is that word. */
  lemma HexDigitRow(bits: seq<Bit>, i: nat)
    requires |bits| % 4 == 0 && 4 * i < |bits|
    ensures HexDigits(bits)[i] == WordTable[WordValue(bits, i)].hex[0]
    ensures WordTable[WordValue(bits, i)].binary == BitString(bits[4 * i..4 * i + 4])
  {
    GetWordFromBinaryOfWord(bits[4 * i..4 * i + 4]);
  }

  /** Two aligned sequences that agree word by word are equal. */
  lemma {:induction false} WordsEqual(a: seq<Bit>, b: seq<Bit>)
    requires |a| == |b| && |a| % 4 == 0
    requires forall i :: 0 <= i < |a| / 4 ==> a[4 * i..4 * i + 4] == b[4 * i..4 * i + 4]
    ensures a == b
  {
    forall j | 0 <= j < |a|
      ensures a[j] == b[j]
    {
      var i := j / 4;
      assert a[4 * i..4 * i + 4][j - 4 * i] == a[j];
      assert b[4 * i..4 * i + 4][j - 4 * i] == b[j];
    }
  }

  /** Hex round trip: the digits of an expansion are the upper-case digits it came from. */
  lemma {:induction false} HexRoundTrip(digits: string)
    requires AllHex(digits)
    ensures HexDigits(HexDigitBits(digits)) == digits
  {
    var bits := HexDigitBits(digits);
    forall i | 0 <= i < |digits|
      ensures HexDigits(bits)[i] == digits[i]
    {
      HexDigitBitsGroup(digits, i);
      NatToBitsToNat(HexValue(digits[i]), 4);
    }
  }

  /** Binary round trip through hex: expanding the digits of an aligned value gives the value back. */
  lemma {:induction false} HexDigitsRoundTrip(bits: seq<Bit>)
    requires |bits| % 4 == 0
    ensures AllHex(HexDigits(bits))
    ensures HexDigitBits(HexDigits(bits)) == bits
  {
    var h := HexDigits(bits);
    forall i | 0 <= i < |h|
      ensures IsHexDigit(h[i])
    {
      HexValueAt(WordValue(bits, i));
    }
    var back := HexDigitBits(h);
    forall i | 0 <= i < |bits| / 4
      ensures back[4 * i..4 * i + 4] == bits[4 * i..4 * i + 4]
    {
      HexDigitBitsGroup(h, i);
      HexValueAt(WordValue(bits, i));
      ToNatToBits(bits[4 * i..4 * i + 4]);
    }
    WordsEqual(back, bits);
  }

  /**
   * The loop of `getHex`: starting from "0x", splice the first 4 bits off a
   * copy of the value and append the hex field of the word table row whose
   * binary string they spell, until the copy is empty.
   */
  method HexOfBits(bits: seq<Bit>) returns (hex: string)
    requires |bits| % 4 == 0
    ensures hex == HexPrefix + HexDigits(bits)
  {
    hex := HexPrefix;
    var binaryArray := bits;
    ghost var digits := HexDigits(bits);
    ghost var n := 0;
    while |binaryArray| > 0
      invariant 4 * n + |binaryArray| == |bits|
      invariant binaryArray == bits[4 * n..]
      invariant hex == HexPrefix + digits[..n]
      decreases |binaryArray|
    {
      var size := if |binaryArray| < 4 then |binaryArray| else 4;
      var word := binaryArray[..size];
      binaryArray := binaryArray[size..];
      WordSplice(bits, n);
      WordLookup(bits, n);
      hex := hex + GetWordFromBinary(BitString(word)).hex;
      PrefixStep(digits, n);
      n := n + 1;
    }
    assert digits[..n] == digits;
  }

  /** Splicing 4 bits off the suffix starting at word `n` yields word `n` and the suffix at word `n + 1`. */
  lemma WordSplice(bits: seq<Bit>, n: nat)
    requires 4 * n + 4 <= |bits|
    ensures bits[4 * n..][..4] == bits[4 * n..4 * n + 4]
    ensures bits[4 * n..][4..] == bits[4 * (n + 1)..]
  {
  }

  lemma PrefixStep<T>(s: seq<T>, n: nat)
    requires n < |s|
    ensures s[..n + 1] == s[..n] + [s[n]]
  {
  }

  /** `forEach((value, index) => bitValues[index] = value ? 0 : 1)`: complements the array in place. */
  method FlipInPlace(bitValues: JsArray)
    requires IsBitArray(bitValues.items)
    modifies bitValues
    ensures IsBitArray(old(bitValues.items))
    ensures bitValues.items == Flip(old(bitValues.items))
  {
    ghost var before: seq<Bit> := bitValues.items;
    for index := 0 to |bitValues.items|
      invariant |bitValues.items| == |before|
      invariant forall j :: 0 <= j < index ==> bitValues.items[j] == 1 - before[j]
      invariant forall j :: index <= j < |before| ==> bitValues.items[j] == before[j]
    {
      bitValues.items := bitValues.items[index := if bitValues.items[index] != 0 then 0 else 1];
    }
  }

  /** `#getDecimalInternal`: add 2^bit for every set bit, counting from the least significant end. */
  method GetDecimalInternal(data: seq<Bit>) returns (decimal: nat)
    ensures decimal == ToNat(data)
  {
    decimal := 0;
    var n := |data|;
    var reversed := seq(n, i requires 0 <= i < n => data[n - 1 - i]);
    for bit := 0 to n
      invariant decimal == ToNat(data[n - bit..])
    {
      var value := reversed[bit];
      assert data[n - bit - 1..] == [value] + data[n - bit..];
      ToNatAppend([value], data[n - bit..]);
      assert ToNat([value]) == value by {
        assert [value][..0] == [];
      }
      if value == 1 {
        decimal := decimal + Pow2(bit);
      }
    }
    assert data[n - n..] == data;
  }
}
