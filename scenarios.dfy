/**
 * The checks of the repository's test script, replayed on the model: each
 * lemma pins down what `set` stores for one test input, and each method
 * builds a BinaryData object and reads it back as the test does.
 */
module Scenarios {
  import opened Options
  import opened Bits
  import opened Words
  import opened JsHost
  import opened Conversions
  import opened Binary

  /** Three 4-bit words with the values `a`, `b`, `c`, most significant first. */
  function Words3(a: nat, b: nat, c: nat): seq<Bit>
  {
    NatToBits(a, 4) + NatToBits(b, 4) + NatToBits(c, 4)
  }

  /** Four 4-bit words with the values `a`, `b`, `c`, `d`, most significant first. */
  function Words4(a: nat, b: nat, c: nat, d: nat): seq<Bit>
  {
    Words3(a, b, c) + NatToBits(d, 4)
  }

  /** How three words read back: the table's binary strings, one hex digit each, and their base-16 value. */
  lemma ReadWords3(a: nat, b: nat, c: nat)
    requires a < 16 && b < 16 && c < 16
    ensures |Words3(a, b, c)| == 12
    ensures BitString(Words3(a, b, c)) == WordTable[a].binary + WordTable[b].binary + WordTable[c].binary
    ensures HexDigits(Words3(a, b, c)) == [ValidHexChars[a], ValidHexChars[b], ValidHexChars[c]]
    ensures ToNat(Words3(a, b, c)) == (a * 16 + b) * 16 + c
  {
    var wa, wb, wc := NatToBits(a, 4), NatToBits(b, 4), NatToBits(c, 4);
    WordTableRow(a);
    WordTableRow(b);
    WordTableRow(c);
    BitStringAppend(wa, wb);
    BitStringAppend(wa + wb, wc);
    HexDigitsAppendWord([], a);
    assert [] + wa == wa;
    HexDigitsAppendWord(wa, b);
    HexDigitsAppendWord(wa + wb, c);
    assert Pow2(4) == 16;
    NatToBitsToNat(a, 4);
    NatToBitsToNat(b, 4);
    NatToBitsToNat(c, 4);
    ToNatAppend(wa, wb);
    ToNatAppend(wa + wb, wc);
  }

  /** How four words read back. */
  lemma ReadWords4(a: nat, b: nat, c: nat, d: nat)
    requires a < 16 && b < 16 && c < 16 && d < 16
    ensures |Words4(a, b, c, d)| == 16
    ensures BitString(Words4(a, b, c, d))
      == WordTable[a].binary + WordTable[b].binary + WordTable[c].binary + WordTable[d].binary
    ensures HexDigits(Words4(a, b, c, d)) == [ValidHexChars[a], ValidHexChars[b], ValidHexChars[c], ValidHexChars[d]]
    ensures ToNat(Words4(a, b, c, d)) == ((a * 16 + b) * 16 + c) * 16 + d
  {
    var front, wd := Words3(a, b, c), NatToBits(d, 4);
    ReadWords3(a, b, c);
    WordTableRow(d);
    BitStringAppend(front, wd);
    HexDigitsAppendWord(front, d);
    assert Pow2(4) == 16;
    NatToBitsToNat(d, 4);
    ToNatAppend(front, wd);
  }

  // Decimal value check: 20862

  /** A number with four hex digits, the first not 0, is stored as exactly those four words. */
  lemma FourWordDecimal(a: nat, b: nat, c: nat, e: nat)
    requires 1 <= a < 16 && b < 16 && c < 16 && e < 16
    ensures Interpret(RawNum(((a * 16 + b) * 16 + c) * 16 + e)) == Parsed(Decimal, Words4(a, b, c, e))
  {
    var v := ((a * 16 + b) * 16 + c) * 16 + e;
    Pow2At32();
    assert Pow2(12) == 4096;
    assert 4096 <= v < 65536;
    DecimalWidth(v, 16);
    ReadWords4(a, b, c, e);
    ToNatInjective(Interpret(RawNum(v)).value, Words4(a, b, c, e));
  }

  lemma DecimalExample()
    ensures Interpret(RawNum(20862)) == Parsed(Decimal, Words4(5, 1, 7, 14))
  {
    FourWordDecimal(5, 1, 7, 14);
  }

  lemma Text517E()
    ensures WordTable[5].binary + WordTable[1].binary + WordTable[7].binary + WordTable[14].binary
      == "0101000101111110"
    ensures HexPrefix + [ValidHexChars[5], ValidHexChars[1], ValidHexChars[7], ValidHexChars[14]] == "0x517E"
  {
  }

  lemma Reads517E()
    ensures BitString(Words4(5, 1, 7, 14)) == "0101000101111110"
    ensures HexPrefix + HexDigits(Words4(5, 1, 7, 14)) == "0x517E"
    ensures ToNat(Words4(5, 1, 7, 14)) == 20862
  {
    ReadWords4(5, 1, 7, 14);
    Text517E();
  }

  // Hex string input: "0x517E"

  /** "0x" and four upper-case digits are stored as the four words of those digits. */
  lemma FourDigitHex(a: nat, b: nat, c: nat, e: nat)
    requires a < 16 && b < 16 && c < 16 && e < 16
    ensures var s := HexPrefix + [ValidHexChars[a], ValidHexChars[b], ValidHexChars[c], ValidHexChars[e]];
      Interpret(RawStr(s)) == Parsed(HexString, Words4(a, b, c, e))
  {
    var rest := [ValidHexChars[a], ValidHexChars[b], ValidHexChars[c], ValidHexChars[e]];
    var s := HexPrefix + rest;
    HexValueAt(a);
    HexValueAt(b);
    HexValueAt(c);
    HexValueAt(e);
    assert AllHex(rest);
    TrimEnds(s);
    ToUpperCaseKeeps(rest);
    assert s[2..] == rest;
    HexInput(s, rest);
    var v := Interpret(RawStr(s)).value;
    ReadWords4(a, b, c, e);
    HexDigitsRoundTrip(v);
    HexDigitsRoundTrip(Words4(a, b, c, e));
  }

  lemma HexStringExample()
    ensures Interpret(RawStr("0x517E")) == Parsed(HexString, Words4(5, 1, 7, 14))
  {
    FourDigitHex(5, 1, 7, 14);
    Text517E();
  }

  // Binary string check: "101100001"

  /** Spelling a padded bit sequence is padding its spelling with '0'. */
  lemma BitStringOfPad(b: seq<Bit>)
    ensures BitString(Pad(b, 0)) == Pad(BitString(b), '0')
  {
    var n := PadWidth(|b|) - |b|;
    PadIs(b, 0, PadWidth(|b|));
    PadIs(BitString(b), '0', PadWidth(|b|));
    BitStringAppend(Repeat(0, n), b);
    assert BitString(Repeat(0, n)) == Repeat('0', n);
  }

  /** A binary string with no "0x" and nothing to trim is stored as its bits padded to a whole word. */
  lemma BitStringInput(b: seq<Bit>)
    ensures Interpret(RawStr(BitString(b))) == Parsed(BinaryString, Pad(b, 0))
  {
    var s := BitString(b);
    BitStringRoundTrip(b);
    TrimEnds(s);
    assert !StartsWith(s, HexPrefix) by {
      if |s| >= 2 {
        assert s[..2][1] == s[1];
      }
    }
    BinaryInput(s);
    BitStringOfPad(b);
    BitStringInjective(Interpret(RawStr(s)).value, Pad(b, 0));
  }

  lemma Text161()
    ensures WordTable[1].binary + WordTable[6].binary + WordTable[1].binary == "000101100001"
    ensures HexPrefix + [ValidHexChars[1], ValidHexChars[6], ValidHexChars[1]] == "0x161"
  {
  }

  lemma Words161()
    ensures Words3(1, 6, 1) == [0, 0, 0, 1, 0, 1, 1, 0, 0, 0, 0, 1]
  {
    assert NatToBits(1, 4) == [0, 0, 0, 1];
    assert NatToBits(6, 4) == [0, 1, 1, 0];
  }

  lemma Bits161()
    ensures BitString([1, 0, 1, 1, 0, 0, 0, 0, 1]) == "101100001"
    ensures Pad([1, 0, 1, 1, 0, 0, 0, 0, 1], 0) == Words3(1, 6, 1)
  {
    var b: seq<Bit> := [1, 0, 1, 1, 0, 0, 0, 0, 1];
    PadIs(b, 0, 12);
    assert Repeat(0, 3) == [0, 0, 0];
    Words161();
  }

  lemma BinaryStringExample()
    ensures Interpret(RawStr("101100001")) == Parsed(BinaryString, Words3(1, 6, 1))
  {
    Bits161();
    BitStringInput([1, 0, 1, 1, 0, 0, 0, 0, 1]);
  }

  lemma Reads161()
    ensures BitString(Words3(1, 6, 1)) == "000101100001"
    ensures HexPrefix + HexDigits(Words3(1, 6, 1)) == "0x161"
    ensures ToNat(Words3(1, 6, 1)) == 353
  {
    ReadWords3(1, 6, 1);
    Text161();
  }

  // Binary array check: [1, 0, 0, 0, 0, 1, 0, 1, 0, 0, 0, 0, 0]

  /** An array of 0s and 1s is stored as those bits padded to a whole word. */
  lemma BitArrayInput(b: seq<Bit>)
    ensures Interpret(RawArr(b)) == Parsed(BinaryArray, Pad(b, 0))
  {
    ArrayInput(b);
  }

  lemma Words10A0()
    ensures Words4(1, 0, 10, 0) == [0, 0, 0, 1, 0, 0, 0, 0, 1, 0, 1, 0, 0, 0, 0, 0]
  {
    assert NatToBits(1, 4) == [0, 0, 0, 1];
    assert NatToBits(0, 4) == [0, 0, 0, 0];
    assert NatToBits(10, 4) == [1, 0, 1, 0];
  }

  lemma Array10A0()
    ensures Pad([1, 0, 0, 0, 0, 1, 0, 1, 0, 0, 0, 0, 0], 0) == Words4(1, 0, 10, 0)
  {
    var b: seq<Bit> := [1, 0, 0, 0, 0, 1, 0, 1, 0, 0, 0, 0, 0];
    PadIs(b, 0, 16);
    assert Repeat(0, 3) == [0, 0, 0];
    Words10A0();
  }

  lemma BinaryArrayExample()
    ensures Interpret(RawArr([1, 0, 0, 0, 0, 1, 0, 1, 0, 0, 0, 0, 0])) == Parsed(BinaryArray, Words4(1, 0, 10, 0))
  {
    Array10A0();
    BitArrayInput([1, 0, 0, 0, 0, 1, 0, 1, 0, 0, 0, 0, 0]);
  }

  lemma Text10A0()
    ensures WordTable[1].binary + WordTable[0].binary + WordTable[10].binary + WordTable[0].binary
      == "0001000010100000"
    ensures HexPrefix + [ValidHexChars[1], ValidHexChars[0], ValidHexChars[10], ValidHexChars[0]] == "0x10A0"
  {
  }

  lemma Reads10A0()
    ensures BitString(Words4(1, 0, 10, 0)) == "0001000010100000"
    ensures HexPrefix + HexDigits(Words4(1, 0, 10, 0)) == "0x10A0"
    ensures ToNat(Words4(1, 0, 10, 0)) == 4256
  {
    ReadWords4(1, 0, 10, 0);
    Text10A0();
  }

  // The bitwise operators on the test values

  /** A host operator on two values below 16 only combines their low 4 bits. */
  lemma SmallBitwise(op: BitwiseOp, x: int, y: int)
    requires 0 <= x < 16 && 0 <= y < 16
    ensures JsBitwise(op, x, y) == BitwiseNat(op, x, y, 4)
  {
    Pow2At32();
    assert Pow2(4) == 16;
    Pow2Monotone(4, 31);
    JsBitwiseNonNegative(op, x, y);
    BitwiseNatWidth(op, x, y, 32, 4);
  }

  /** Four bits of a host operator, spelled out one position at a time. */
  lemma BitwiseFour(op: BitwiseOp, x: nat, y: nat)
    ensures BitwiseNat(op, x, y, 4)
      == 8 * ApplyBit(op, x / 2 / 2 / 2 % 2, y / 2 / 2 / 2 % 2) + 4 * ApplyBit(op, x / 2 / 2 % 2, y / 2 / 2 % 2)
       + 2 * ApplyBit(op, x / 2 % 2, y / 2 % 2) + ApplyBit(op, x % 2, y % 2)
  {
    var x1, y1 := x / 2, y / 2;
    var x2, y2 := x1 / 2, y1 / 2;
    var x3, y3 := x2 / 2, y2 / 2;
    assert BitwiseNat(op, x3, y3, 1) == ApplyBit(op, x3 % 2, y3 % 2);
    assert BitwiseNat(op, x2, y2, 2) == 2 * BitwiseNat(op, x3, y3, 1) + ApplyBit(op, x2 % 2, y2 % 2);
    assert BitwiseNat(op, x1, y1, 3) == 2 * BitwiseNat(op, x2, y2, 2) + ApplyBit(op, x1 % 2, y1 % 2);
  }

  /** A host operator on two values below 16, bit position by bit position. */
  lemma BitwiseOnWords(op: BitwiseOp, x: int, y: int)
    requires 0 <= x < 16 && 0 <= y < 16
    ensures JsBitwise(op, x, y)
      == 8 * ApplyBit(op, x / 2 / 2 / 2 % 2, y / 2 / 2 / 2 % 2) + 4 * ApplyBit(op, x / 2 / 2 % 2, y / 2 / 2 % 2)
       + 2 * ApplyBit(op, x / 2 % 2, y / 2 % 2) + ApplyBit(op, x % 2, y % 2)
  {
    SmallBitwise(op, x, y);
    BitwiseFour(op, x, y);
  }

  // The operands below are parameters fixed by the precondition rather than
  // literal arguments: that keeps the bitwise recursion from being unfolded
  // on the literals.

  lemma AndResult(x: int, y: int)
    requires x == 11 && y == 13
    ensures JsBitwise(BitwiseOp.And, x, y) == 9
  {
    assert x / 2 / 2 / 2 % 2 == 1 && x / 2 / 2 % 2 == 0 && x / 2 % 2 == 1 && x % 2 == 1;
    assert y / 2 / 2 / 2 % 2 == 1 && y / 2 / 2 % 2 == 1 && y / 2 % 2 == 0 && y % 2 == 1;
    BitwiseOnWords(BitwiseOp.And, x, y);
  }

  lemma OrResult(x: int, y: int)
    requires x == 2 && y == 1
    ensures JsBitwise(BitwiseOp.Or, x, y) == 3
  {
    assert x / 2 / 2 / 2 % 2 == 0 && x / 2 / 2 % 2 == 0 && x / 2 % 2 == 1 && x % 2 == 0;
    assert y / 2 / 2 / 2 % 2 == 0 && y / 2 / 2 % 2 == 0 && y / 2 % 2 == 0 && y % 2 == 1;
    BitwiseOnWords(BitwiseOp.Or, x, y);
  }

  lemma XorResult(x: int, y: int)
    requires x == 3 && y == 5
    ensures JsBitwise(BitwiseOp.Xor, x, y) == 6
  {
    assert x / 2 / 2 / 2 % 2 == 0 && x / 2 / 2 % 2 == 0 && x / 2 % 2 == 1 && x % 2 == 1;
    assert y / 2 / 2 / 2 % 2 == 0 && y / 2 / 2 % 2 == 1 && y / 2 % 2 == 0 && y % 2 == 1;
    BitwiseOnWords(BitwiseOp.Xor, x, y);
  }

  /** A number in 0..15 is stored as one word and reads back as that row of the table. */
  lemma OneWordDecimal(d: nat)
    requires d < 16
    ensures Interpret(RawNum(d)) == Parsed(Decimal, NatToBits(d, 4))
    ensures BitString(NatToBits(d, 4)) == WordTable[d].binary
    ensures HexPrefix + HexDigits(NatToBits(d, 4)) == HexPrefix + WordTable[d].hex
    ensures ToNat(NatToBits(d, 4)) == d
  {
    if d == 0 {
      assert DecimalDigits(0) == [0];
      PadIs([0], 0, 4);
      assert Repeat(0, 3) == [0, 0, 0];
      assert NatToBits(0, 4) == [0, 0, 0, 0];
    } else {
      assert Pow2(0) == 1 && Pow2(4) == 16;
      DecimalWidth(d, 4);
      ToNatToBits(DecimalBits(d));
    }
    ReadWord(d);
  }

  lemma Text1()
    ensures WordTable[1].binary == "0001" && HexPrefix + WordTable[1].hex == "0x1"
  {
  }

  lemma Text5()
    ensures WordTable[5].binary == "0101" && HexPrefix + WordTable[5].hex == "0x5"
  {
  }

  lemma Text13()
    ensures WordTable[13].binary == "1101" && HexPrefix + WordTable[13].hex == "0xD"
  {
  }

  lemma OperatorTexts()
    ensures WordTable[3].binary == "0011" && WordTable[6].binary == "0110"
    ensures WordTable[9].binary == "1001" && WordTable[14].binary == "1110"
  {
  }

  /** One word reads back as its row of the table. */
  lemma ReadWord(d: nat)
    requires d < 16
    ensures BitString(NatToBits(d, 4)) == WordTable[d].binary
    ensures HexPrefix + HexDigits(NatToBits(d, 4)) == HexPrefix + WordTable[d].hex
    ensures ToNat(NatToBits(d, 4)) == d
  {
    WordTableRow(d);
    HexDigitsAppendWord([], d);
    assert [] + NatToBits(d, 4) == NatToBits(d, 4);
    assert Pow2(4) == 16;
    NatToBitsToNat(d, 4);
  }

  // Error handling check

  /** A string that is not hex and holds one character other than '0' and '1' is refused. */
  lemma NonBinaryRejected(s: string, k: nat)
    requires !StartsWith(Trim(s), HexPrefix)
    requires k < |Trim(s)| && Trim(s)[k] != '0' && Trim(s)[k] != '1'
    ensures Interpret(RawStr(s)).kind == Error
  {
    BinaryInput(s);
  }

  /** A string with non-white ends and no 'x' second is its own trim and has no "0x" prefix. */
  lemma PlainString(s: string)
    requires s != [] && !IsTrimmable(s[0]) && !IsTrimmable(s[|s| - 1])
    requires |s| < 2 || s[1] != 'x'
    ensures Trim(s) == s && !StartsWith(s, HexPrefix)
  {
    TrimEnds(s);
  }

  lemma BadBinaryString()
    ensures Interpret(RawStr("01101031")).kind == Error
  {
    PlainString("01101031");
    NonBinaryRejected("01101031", 6);
  }

  lemma BadBinaryArray()
    ensures Interpret(RawArr([1, 2, 0, 1, 0, 1])).kind == Error
  {
    var a := [1, 2, 0, 1, 0, 1];
    assert a[1] == 2;
    ArrayInput(a);
  }

  lemma SplitAt<T>(s: seq<T>, j: nat)
    requires j < |s|
    ensures s == s[..j] + [s[j]] + s[j + 1..]
  {
  }

  /** A character whose upper-case form holds a non-hex character leaves that character in the upper-case string. */
  lemma UpperNotHex(rest: string, i: nat, j: nat)
    requires i < |rest| && j < |UpperChar(rest[i])| && !IsHexDigit(UpperChar(rest[i])[j])
    ensures !AllHex(ToUpperCase(rest))
  {
    var before, after := rest[..i], rest[i + 1..];
    SplitAt(rest, i);
    ToUpperCaseAppend(before + [rest[i]], after);
    ToUpperCaseAppend(before, [rest[i]]);
    assert ToUpperCase([rest[i]]) == UpperChar(rest[i]) by {
      assert [rest[i]][..0] == [];
    }
    var upper := ToUpperCase(rest);
    assert upper == ToUpperCase(before) + UpperChar(rest[i]) + ToUpperCase(after);
    assert upper[|ToUpperCase(before)| + j] == UpperChar(rest[i])[j];
  }

  /**
   * A trimmed "0x" string holding a character after the prefix whose
   * upper-case form is not all hex digits is refused.
   */
  lemma NonHexRejected(s: string, k: nat, j: nat)
    requires StartsWith(Trim(s), HexPrefix)
    requires 2 <= k < |Trim(s)| && j < |UpperChar(Trim(s)[k])| && !IsHexDigit(UpperChar(Trim(s)[k])[j])
    ensures Interpret(RawStr(s)).kind == Error
  {
    var t := Trim(s);
    var rest := t[2..];
    assert t == HexPrefix + rest && rest[k - 2] == t[k];
    UpperNotHex(rest, k - 2, j);
    HexInput(s, rest);
  }

  /** A "0x" string with a non-white last character is its own trim. */
  lemma PlainHexString(s: string)
    requires |s| >= 2 && s[0] == '0' && s[1] == 'x' && !IsTrimmable(s[|s| - 1])
    ensures Trim(s) == s && StartsWith(s, HexPrefix)
  {
    TrimEnds(s);
  }

  lemma BadHexString()
    ensures Interpret(RawStr("0x34L1")).kind == Error
  {
    PlainHexString("0x34L1");
    NonHexRejected("0x34L1", 4, 0);
  }

  // The checks of the test script on BinaryData objects

  /** A number in: `get`, `getLength`, `getHex` and `getDecimal` of 20862. */
  method DecimalValueCheck() returns (ok: bool)
    ensures ok
  {
    var t := new BinaryData(Num(20862));
    DecimalExample();
    Reads517E();
    var s := t.Get();
    var n := t.GetLength();
    var h := t.GetHex();
    var d := t.GetDecimal();
    ok := s == Some("0101000101111110") && n == 16 && h == Some("0x517E") && d == Some(20862);
  }

  /** A hex string in: the same reads as for 20862. */
  method HexValueCheck() returns (ok: bool)
    ensures ok
  {
    var t := new BinaryData(Str("0x517E"));
    HexStringExample();
    Reads517E();
    var s := t.Get();
    var n := t.GetLength();
    var h := t.GetHex();
    var d := t.GetDecimal();
    ok := s == Some("0101000101111110") && n == 16 && h == Some("0x517E") && d == Some(20862);
  }

  /** A binary string in: padded to three words. */
  method BinaryStringCheck() returns (ok: bool)
    ensures ok
  {
    var t := new BinaryData(Str("101100001"));
    BinaryStringExample();
    Reads161();
    var s := t.Get();
    var n := t.GetLength();
    var h := t.GetHex();
    var d := t.GetDecimal();
    ok := s == Some("000101100001") && n == 12 && h == Some("0x161") && d == Some(353);
  }

  /** A bit array in: padded to four words, and the caller's array padded with it. */
  method BinaryArrayCheck() returns (ok: bool)
    ensures ok
  {
    var a := new JsArray([1, 0, 0, 0, 0, 1, 0, 1, 0, 0, 0, 0, 0]);
    var t := new BinaryData(Arr(a));
    BinaryArrayExample();
    Array10A0();
    Reads10A0();
    var s := t.Get();
    var n := t.GetLength();
    var h := t.GetHex();
    var d := t.GetDecimal();
    ok := s == Some("0001000010100000") && n == 16 && h == Some("0x10A0") && d == Some(4256)
      && a.items == Words4(1, 0, 10, 0);
  }

  /** What the test script reads first from an object that holds one word, of value `d`. */
  method ReadOneWord(t: BinaryData, d: nat) returns (s: Option<string>, n: nat, h: Option<string>, dec: Option<nat>)
    requires d < 16 && t.Valid() && t.kind != Error && t.value == NatToBits(d, 4)
    ensures s == Some(WordTable[d].binary) && n == 4
    ensures h == Some(HexPrefix + WordTable[d].hex) && dec == Some(d)
  {
    ReadWord(d);
    s := t.Get();
    n := t.GetLength();
    h := t.GetHex();
    dec := t.GetDecimal();
  }

  /** An operator result on two one-word values is stored as one word. */
  lemma OperatorWord(op: BitwiseOp, x: nat, d: nat)
    requires d < 16 && x < 16
    ensures 0 <= JsBitwise(op, x, d) < 16
    ensures DecimalBits(JsBitwise(op, x, d)) == NatToBits(JsBitwise(op, x, d), 4)
    ensures BitString(NatToBits(JsBitwise(op, x, d), 4)) == WordTable[JsBitwise(op, x, d)].binary
  {
    SmallBitwise(op, x, d);
    BitwiseNatBits(op, x, d, 4);
    assert Pow2(4) == 16;
    OneWordDecimal(JsBitwise(op, x, d));
  }

  /** `and`, `or` or `xor` of a one-word number with an object that holds one word: the table row of the result. */
  method OperatorOnWord(t: BinaryData, op: BitwiseOp, x: nat, d: nat) returns (r: OpResult)
    requires d < 16 && x < 16 && t.Valid() && t.kind != Error && t.value == NatToBits(d, 4)
    modifies t
    ensures 0 <= JsBitwise(op, x, d) < 16 && r == Bits(WordTable[JsBitwise(op, x, d)].binary)
    ensures t.kind == Decimal
  {
    ReadWord(d);
    OperatorWord(op, x, d);
    assert Snapshot(Num(x)) == RawNum(x);
    match op {
      case And => r := t.And(Num(x));
      case Or => r := t.Or(Num(x));
      case Xor => r := t.Xor(Num(x));
    }
  }

  /** The complement of a one-word value is the word of 15 minus that value. */
  lemma NotWord(d: nat)
    requires d < 16
    ensures Flip(NatToBits(d, 4)) == NatToBits(15 - d, 4)
    ensures BitString(NatToBits(15 - d, 4)) == WordTable[15 - d].binary
  {
    var w := NatToBits(d, 4);
    FlipValue(w);
    assert Pow2(4) == 16;
    NatToBitsToNat(d, 4);
    ToNatToBits(Flip(w));
    ReadWord(15 - d);
  }

  /** The complement of a one-word number reads as the complement's row. */
  lemma NotWordString(d: nat, v: seq<Bit>)
    requires d < 16 && v == Flip(NatToBits(d, 4))
    ensures BitString(v) == WordTable[15 - d].binary
  {
    NotWord(d);
  }

  /** `not` of an object that holds one word: the row of the complement, stored as a bit array. */
  method NotOnWord(t: BinaryData, d: nat) returns (r: OpResult, kind: string)
    requires d < 16 && t.Valid() && t.kind != Error && t.value == NatToBits(d, 4)
    modifies t
    ensures r == Bits(WordTable[15 - d].binary) && kind == "binaryArray"
  {
    r := t.Not();
    NotWordString(d, t.value);
    kind := t.GetConversionType();
  }

  /**
   * The flow of the operator checks: an object made from a one-word number
   * `d`, its four reads, then `and`, `or` or `xor` with the number `x`.
   */
  method OperatorFlow(op: BitwiseOp, x: nat, d: nat)
    returns (s: Option<string>, n: nat, h: Option<string>, dec: Option<nat>, r: OpResult)
    requires x < 16 && d < 16
    ensures s == Some(WordTable[d].binary) && n == 4
    ensures h == Some(HexPrefix + WordTable[d].hex) && dec == Some(d)
    ensures 0 <= JsBitwise(op, x, d) < 16 && r == Bits(WordTable[JsBitwise(op, x, d)].binary)
  {
    var t := new BinaryData(Num(d));
    OneWordDecimal(d);
    s, n, h, dec := ReadOneWord(t, d);
    r := OperatorOnWord(t, op, x, d);
  }

  /** The flow of the NOT check: an object made from a one-word number `d`, its four reads, then `not`. */
  method NotFlow(d: nat)
    returns (s: Option<string>, n: nat, h: Option<string>, dec: Option<nat>, r: OpResult, kind: string)
    requires d < 16
    ensures s == Some(WordTable[d].binary) && n == 4
    ensures h == Some(HexPrefix + WordTable[d].hex) && dec == Some(d)
    ensures r == Bits(WordTable[15 - d].binary) && kind == "binaryArray"
  {
    var t := new BinaryData(Num(d));
    OneWordDecimal(d);
    s, n, h, dec := ReadOneWord(t, d);
    r, kind := NotOnWord(t, d);
  }

  /** 13 and 11. */
  method AndCheck() returns (ok: bool)
    ensures ok
  {
    AndResult(11, 13);
    var s, n, h, d, r := OperatorFlow(BitwiseOp.And, 11, 13);
    Text13();
    OperatorTexts();
    ok := s == Some("1101") && n == 4 && h == Some("0xD") && d == Some(13) && r == Bits("1001");
  }

  /** Not 1. */
  method NotCheck() returns (ok: bool)
    ensures ok
  {
    var s, n, h, d, r, kind := NotFlow(1);
    Text1();
    OperatorTexts();
    ok := s == Some("0001") && n == 4 && h == Some("0x1") && d == Some(1) && r == Bits("1110")
      && kind == "binaryArray";
  }

  /** 1 or 2. */
  method OrCheck() returns (ok: bool)
    ensures ok
  {
    OrResult(2, 1);
    var s, n, h, d, r := OperatorFlow(BitwiseOp.Or, 2, 1);
    Text1();
    OperatorTexts();
    ok := s == Some("0001") && n == 4 && h == Some("0x1") && d == Some(1) && r == Bits("0011");
  }

  /** 5 xor 3. */
  method XorCheck() returns (ok: bool)
    ensures ok
  {
    XorResult(3, 5);
    var s, n, h, d, r := OperatorFlow(BitwiseOp.Xor, 3, 5);
    Text5();
    OperatorTexts();
    ok := s == Some("0101") && n == 4 && h == Some("0x5") && d == Some(5) && r == Bits("0110");
  }

  /** `set` of an input that does not convert reports failure and leaves the error state. */
  method SetRejected(t: BinaryData, data: Input) returns (ok: bool)
    requires Interpret(Snapshot(data)).kind == Error
    modifies t, Footprint(data)
    ensures !ok && t.kind == Error
  {
    ok := t.Set(data);
  }

  method SetEmptyObject(t: BinaryData) returns (ok: bool)
    modifies t
    ensures !ok && t.kind == Error
  {
    assert Snapshot(Other) == RawOther;
    ok := SetRejected(t, Other);
  }

  method SetBadBinaryString(t: BinaryData) returns (ok: bool)
    modifies t
    ensures !ok && t.kind == Error
  {
    BadBinaryString();
    ok := SetRejected(t, Str("01101031"));
  }

  method SetBadBinaryArray(t: BinaryData) returns (ok: bool)
    modifies t
    ensures !ok && t.kind == Error
  {
    BadBinaryArray();
    var a := new JsArray([1, 2, 0, 1, 0, 1]);
    ok := SetRejected(t, Arr(a));
  }

  method SetBadHexString(t: BinaryData) returns (ok: bool)
    modifies t
    ensures !ok && t.kind == Error
  {
    BadHexString();
    ok := SetRejected(t, Str("0x34L1"));
  }

  /** Every bad input makes `set` report failure, and leaves the error state. */
  method ErrorHandlingCheck() returns (ok: bool)
    ensures ok
  {
    var t := new BinaryData(Str("0"));
    var other := SetEmptyObject(t);
    var badString := SetBadBinaryString(t);
    var badArray := SetBadBinaryArray(t);
    var badHex := SetBadHexString(t);
    ok := !other && !badString && !badArray && !badHex && t.GetConversionType() == "error";
  }
}
