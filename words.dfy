/**
 * The 16-entry word table of BinaryData (4-bit binary string, hex digit and
 * decimal value of every word) and the two lookups into it.
 */
module Words {
  import opened Bits

  datatype Word = Word(binary: string, hex: string, decimal: nat)

  const WordTable: seq<Word> := [
    Word("0000", "0", 0),
    Word("0001", "1", 1),
    Word("0010", "2", 2),
    Word("0011", "3", 3),
    Word("0100", "4", 4),
    Word("0101", "5", 5),
    Word("0110", "6", 6),
    Word("0111", "7", 7),
    Word("1000", "8", 8),
    Word("1001", "9", 9),
    Word("1010", "A", 10),
    Word("1011", "B", 11),
    Word("1100", "C", 12),
    Word("1101", "D", 13),
    Word("1110", "E", 14),
    Word("1111", "F", 15)
  ]

  const ValidBinaryChars: string := "01"
  const ValidHexChars: string := "0123456789ABCDEF"
  const HexPrefix: string := "0x"

  /** Row `i` of the table is the 4-bit expansion of `i` and the `i`-th hex digit. */
  lemma WordTableRow(i: nat)
    requires i < 16
    ensures |WordTable| == 16
    ensures WordTable[i].binary == BitString(NatToBits(i, 4))
    ensures WordTable[i].hex == [ValidHexChars[i]]
    ensures WordTable[i].decimal == i
  {
    if i < 4 {
      WordTableRows0(i);
    } else if i < 8 {
      WordTableRows4(i);
    } else if i < 12 {
      WordTableRows8(i);
    } else {
      WordTableRows12(i);
    }
  }

  lemma WordTableRows0(i: nat)
    requires i < 4
    ensures WordTable[i].binary == BitString(NatToBits(i, 4))
    ensures WordTable[i].hex == [ValidHexChars[i]]
    ensures WordTable[i].decimal == i
  {
    if i == 0 {
    } else if i == 1 {
    } else if i == 2 {
    } else {
    }
  }

  lemma WordTableRows4(i: nat)
    requires 4 <= i < 8
    ensures WordTable[i].binary == BitString(NatToBits(i, 4))
    ensures WordTable[i].hex == [ValidHexChars[i]]
    ensures WordTable[i].decimal == i
  {
    if i == 4 {
    } else if i == 5 {
    } else if i == 6 {
    } else {
    }
  }

  lemma WordTableRows8(i: nat)
    requires 8 <= i < 12
    ensures WordTable[i].binary == BitString(NatToBits(i, 4))
    ensures WordTable[i].hex == [ValidHexChars[i]]
    ensures WordTable[i].decimal == i
  {
    if i == 8 {
    } else if i == 9 {
    } else if i == 10 {
    } else {
    }
  }

  lemma WordTableRows12(i: nat)
    requires 12 <= i < 16
    ensures WordTable[i].binary == BitString(NatToBits(i, 4))
    ensures WordTable[i].hex == [ValidHexChars[i]]
    ensures WordTable[i].decimal == i
  {
    if i == 12 {
    } else if i == 13 {
    } else if i == 14 {
    } else {
    }
  }

  /** Index of the first row whose binary field is `binary`, at or after `from`; 16 if none. */
  function FindBinary(binary: string, from: nat): (r: nat)
    requires from <= |WordTable|
    ensures from <= r <= |WordTable|
    ensures r < |WordTable| ==> WordTable[r].binary == binary
    ensures forall j :: from <= j < r ==> WordTable[j].binary != binary
    decreases |WordTable| - from
  {
    if from == |WordTable| then from
    else if WordTable[from].binary == binary then from
    else FindBinary(binary, from + 1)
  }

  /** Index of the first row whose hex field is `hex`, at or after `from`; 16 if none. */
  function FindHex(hex: string, from: nat): (r: nat)
    requires from <= |WordTable|
    ensures from <= r <= |WordTable|
    ensures r < |WordTable| ==> WordTable[r].hex == hex
    ensures forall j :: from <= j < r ==> WordTable[j].hex != hex
    decreases |WordTable| - from
  {
    if from == |WordTable| then from
    else if WordTable[from].hex == hex then from
    else FindHex(hex, from + 1)
  }

  /** `#getWordFromBinary`: the row for a 4-character binary string, or row 0 when none matches. */
  function GetWordFromBinary(binary: string): (w: Word)
    ensures w in WordTable
    ensures (exists j :: 0 <= j < |WordTable| && WordTable[j].binary == binary) ==> w.binary == binary
    ensures (forall j :: 0 <= j < |WordTable| ==> WordTable[j].binary != binary) ==> w == WordTable[0]
  {
    var i := FindBinary(binary, 0);
    if i < |WordTable| then WordTable[i] else WordTable[0]
  }

  /** `#getWordFromHex`: the row for a one-character hex string, or row 0 when none matches. */
  function GetWordFromHex(hex: string): (w: Word)
    ensures w in WordTable
    ensures (exists j :: 0 <= j < |WordTable| && WordTable[j].hex == hex) ==> w.hex == hex
    ensures (forall j :: 0 <= j < |WordTable| ==> WordTable[j].hex != hex) ==> w == WordTable[0]
  {
    var i := FindHex(hex, 0);
    if i < |WordTable| then WordTable[i] else WordTable[0]
  }

  /** An upper-case hex digit. */
  predicate IsHexDigit(c: char)
  {
    '0' <= c <= '9' || 'A' <= c <= 'F'
  }

  /** `ValidHexChars.includes(c)` holds exactly for the upper-case hex digits. */
  lemma HexDigitMembership(c: char)
    ensures c in ValidHexChars <==> IsHexDigit(c)
  {
    if IsHexDigit(c) {
      var v := if '0' <= c <= '9' then c as int - '0' as int else c as int - 'A' as int + 10;
      assert ValidHexChars[v] == c;
    }
  }

  /** `ValidBinaryChars.includes(c)` holds exactly for '0' and '1'. */
  lemma BinaryCharMembership(c: char)
    ensures c in ValidBinaryChars <==> c == '0' || c == '1'
  {
    assert ValidBinaryChars[0] == '0' && ValidBinaryChars[1] == '1';
  }

  /** The value of a hex digit: its position in ValidHexChars. */
  function HexValue(c: char): (v: nat)
    requires IsHexDigit(c)
    ensures v < 16 && ValidHexChars[v] == c
  {
    if '0' <= c <= '9' then c as int - '0' as int else c as int - 'A' as int + 10
  }

  /** Looking up a 4-bit word by its binary string finds the row of its value. */
  lemma GetWordFromBinaryOfWord(b: seq<Bit>)
    requires |b| == 4
    ensures ToNat(b) < 16
    ensures GetWordFromBinary(BitString(b)) == WordTable[ToNat(b)]
    ensures GetWordFromBinary(BitString(b)).binary == BitString(b)
    ensures GetWordFromBinary(BitString(b)).hex == [ValidHexChars[ToNat(b)]]
  {
    var v := ToNat(b);
    ToNatBound(b);
    ToNatToBits(b);
    WordTableRow(v);
    var i := FindBinary(BitString(b), 0);
    assert i <= v;
    if i < v {
      WordTableRow(i);
      BitStringInjective(NatToBits(i, 4), b);
      NatToBitsToNat(i, 4);
      assert false;
    }
  }

  /** The digit at position `i` of ValidHexChars has value `i`. */
  lemma HexValueAt(i: nat)
    requires i < 16
    ensures IsHexDigit(ValidHexChars[i]) && HexValue(ValidHexChars[i]) == i
  {
    if i < 10 {
      assert ValidHexChars[..10] == "0123456789";
      assert ValidHexChars[i] == "0123456789"[i];
    } else {
      assert ValidHexChars[10..] == "ABCDEF";
      assert ValidHexChars[i] == "ABCDEF"[i - 10];
    }
  }

  /** Looking up a hex digit finds the row of its value. */
  lemma GetWordFromHexOfDigit(c: char)
    requires IsHexDigit(c)
    ensures GetWordFromHex([c]) == WordTable[HexValue(c)]
    ensures GetWordFromHex([c]).hex == [c]
    ensures GetWordFromHex([c]).binary == BitString(NatToBits(HexValue(c), 4))
  {
    var v := HexValue(c);
    WordTableRow(v);
    var i := FindHex([c], 0);
    assert i <= v;
    if i < v {
      WordTableRow(i);
      HexValueAt(i);
      assert false;
    }
    assert GetWordFromHex([c]) == WordTable[v];
  }

  /** The binary string found for a hex digit spells the digit's 4 bits. */
  lemma HexDigitWord(c: char)
    requires IsHexDigit(c)
    ensures IsBinaryChars(GetWordFromHex([c]).binary)
    ensures CharBits(GetWordFromHex([c]).binary) == NatToBits(HexValue(c), 4)
  {
    GetWordFromHexOfDigit(c);
    BitStringRoundTrip(NatToBits(HexValue(c), 4));
  }
}
