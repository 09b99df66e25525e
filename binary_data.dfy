/**
 * The BinaryData class: a binary value kept as a bit sequence whose length is
 * a whole number of 4-bit words, set from a decimal number, a "0x" hex
 * string, a binary string or an array of 0/1 numbers, read back in each of
 * those forms, and combined with AND, OR, XOR and NOT.
 */
module Binary {
  import opened Options
  import opened Bits
  import opened Words
  import opened JsHost
  import opened Conversions

  /** A value handed to `set` or to an operator, by its `typeof` / `Array.isArray` class. */
  datatype Input = Num(n: int) | Str(s: string) | Arr(a: JsArray) | Other

  /** The input as `set` stores it: arrays by the copy taken before any padding. */
  datatype Raw = RawNum(n: int) | RawStr(s: string) | RawArr(items: seq<int>) | RawOther

  /** The conversion type of the stored value. */
  datatype Kind = Decimal | HexString | BinaryString | BinaryArray | Error

  datatype Parsed = Parsed(kind: Kind, value: seq<Bit>)

  /** What an operator returns: the new binary string, `undefined`, or a thrown TypeError. */
  datatype OpResult = Bits(s: string) | Undefined | TypeError

  /** The objects `set` and the operators may change: the caller's array, which gets padded in place. */
  function Footprint(data: Input): set<object>
  {
    if data.Arr? then {data.a} else {}
  }

  /** The raw form of an input at the moment it is handed over. */
  function Snapshot(data: Input): Raw
    reads Footprint(data)
  {
    match data
    case Num(n) => RawNum(n)
    case Str(s) => RawStr(s)
    case Arr(a) => RawArr(a.items)
    case Other => RawOther
  }

  /** The outcome of one conversion path: its type and bits, or the error state with no bits. */
  function ParsedOrError(kind: Kind, r: Option<seq<Bit>>): (p: Parsed)
    requires kind != Error
    requires r.Some? ==> |r.value| % 4 == 0
    ensures |p.value| % 4 == 0
    ensures p.kind == Error ==> p.value == []
    ensures p.kind == kind <==> r.Some?
    ensures p.kind != kind ==> p.kind == Error
  {
    if r.Some? then Parsed(kind, r.value) else Parsed(Error, [])
  }

  /** The string paths of `set`: trim, then hex after a "0x" prefix (lower-case x), binary string otherwise. */
  function InterpretString(s: string): (p: Parsed)
    ensures |p.value| % 4 == 0
    ensures p.kind == Error ==> p.value == []
  {
    var data := Trim(s);
    if StartsWith(data, HexPrefix) then ParsedOrError(HexString, HexStringBits(data))
    else ParsedOrError(BinaryString, BinaryStringBits(data))
  }

  /**
   * What `set` makes of an input: numbers take the decimal path; strings are
   * trimmed and take the hex path when they start with "0x", the
   * binary-string path otherwise; arrays take the bit-array path; any other
   * type is an error. A failed conversion is an error with no bits.
   */
  function Interpret(raw: Raw): (p: Parsed)
    ensures |p.value| % 4 == 0
    ensures p.kind == Error ==> p.value == []
    ensures raw.RawOther? ==> p.kind == Error
  {
    match raw
    case RawNum(n) => Parsed(Decimal, DecimalBits(n))
    case RawStr(s) => InterpretString(s)
    case RawArr(items) => ParsedOrError(BinaryArray, ArrayBits(items))
    case RawOther => Parsed(Error, [])
  }

  /**
   * The number an operator argument stands for (`#convertToDecimal`):
   * numbers as they are; strings, untrimmed, by the binary-string path; arrays
   * by the bit-array path; anything else 0. None when the conversion fails,
   * where the source goes on to call `slice` on `false` and throws.
   */
  function OperandValue(raw: Raw): (r: Option<int>)
    ensures r.None? ==> raw.RawStr? || raw.RawArr?
    ensures !raw.RawNum? && r.Some? ==> r.value >= 0
  {
    match raw
    case RawNum(n) => Some(n)
    case RawStr(s) =>
      var r := BinaryStringBits(s);
      if r.Some? then Some(ToNat(r.value)) else None
    case RawArr(items) =>
      var r := ArrayBits(items);
      if r.Some? then Some(ToNat(r.value)) else None
    case RawOther => Some(0)
  }

  /** The names `getConversionType` reports. */
  function KindName(k: Kind): (n: string)
    ensures n == "error" <==> k == Error
  {
    match k
    case Decimal => "decimal"
    case HexString => "hexString"
    case BinaryString => "binaryString"
    case BinaryArray => "binaryArray"
    case Error => "error"
  }

  /** Different conversion types have different names. */
  lemma KindNameInjective(a: Kind, b: Kind)
    ensures KindName(a) == KindName(b) ==> a == b
  {
    if a != b {
      assert KindName(a)[0] != KindName(b)[0] || KindName(a)[|KindName(a)| - 1] != KindName(b)[|KindName(b)| - 1];
    }
  }

  class BinaryData {
    var raw: Raw
    var kind: Kind
    var value: seq<Bit>

    /** The stored type and bits are what the stored raw input converts to. */
    ghost predicate Valid()
      reads this
    {
      Parsed(kind, value) == Interpret(raw)
    }

    constructor (data: Input)
      modifies Footprint(data)
      ensures Valid()
      ensures raw == old(Snapshot(data))
      ensures data.Arr? ==> data.a.items == Pad(old(data.a.items), 0)
    {
      raw := RawOther;
      kind := Error;
      value := [];
      new;
      var _ := Set(data);
    }

    /** `set`: stores the raw input, converts it, and reports whether the conversion succeeded. */
    method Set(data: Input) returns (ok: bool)
      modifies this, Footprint(data)
      ensures Valid()
      ensures raw == old(Snapshot(data))
      ensures ok <==> kind != Error
      ensures data.Arr? ==> data.a.items == Pad(old(data.a.items), 0)
    {
      raw := Snapshot(data);
      value := [];
      match data {
        case Num(n) =>
          kind := Decimal;
          value := DecimalToBinary(n);
          ok := true;
        case Str(s) =>
          var trimmed := Trim(s);
          if StartsWith(trimmed, HexPrefix) {
            kind := HexString;
            var r := HexStringToBinary(trimmed);
            ok := r.Some?;
            if ok {
              value := r.value;
            } else {
              kind := Error;
            }
          } else {
            kind := BinaryString;
            var r := BinaryStringToBinary(trimmed);
            ok := r.Some?;
            if ok {
              value := r.value;
            } else {
              kind := Error;
            }
          }
        case Arr(a) =>
          kind := BinaryArray;
          var r := BinaryArrayToBinary(a);
          ok := r.Some?;
          if ok {
            value := r.value;
          } else {
            kind := Error;
          }
        case Other =>
          kind := Error;
          ok := false;
      }
    }

    /** `getLength`: the number of stored bits, 0 in the error state. */
    function GetLength(): (n: nat)
      reads this
      requires Valid()
      ensures n % 4 == 0
      ensures kind == Error ==> n == 0
      ensures kind != Error ==> n == |value|
    {
      if kind != Error then |value| else 0
    }

    /** `getRaw`: the input last handed to `set`; converting it again gives the stored state. */
    function GetRaw(): (r: Raw)
      reads this
      requires Valid()
      ensures r == raw
      ensures Interpret(r) == Parsed(kind, value)
    {
      raw
    }

    /** `getConversionType`: the name of the conversion type; "error" exactly in the error state. */
    function GetConversionType(): (t: string)
      reads this
      ensures t == "error" <==> kind == Error
      ensures t in ["decimal", "hexString", "binaryString", "binaryArray", "error"]
    {
      KindName(kind)
    }

    /** `getString`: the bits as a string of '0' and '1' that reads back as exactly those bits; `false` in the error state. */
    function GetString(): (r: Option<string>)
      reads this
      requires Valid()
      ensures r.None? <==> kind == Error
      ensures r.Some? ==> |r.value| == GetLength() && IsBinaryChars(r.value) && CharBits(r.value) == value
    {
      BitStringRoundTrip(value);
      if kind != Error then Some(BitString(value)) else None
    }

    /** `get`: the same as `getString`. */
    function Get(): (r: Option<string>)
      reads this
      requires Valid()
      ensures r == GetString()
    {
      if kind != Error then Some(BitString(value)) else None
    }

    /** `getArray`: a fresh copy of the bits, whose join is `getString`; `false` in the error state. */
    function GetArray(): (r: Option<seq<Bit>>)
      reads this
      requires Valid()
      ensures r.None? <==> kind == Error
      ensures r.Some? ==> r.value == value && Some(BitString(r.value)) == GetString()
    {
      if kind != Error then Some(value) else None
    }

    /** `getHex`: "0x" followed by one upper-case digit per word; `false` in the error state. */
    method GetHex() returns (r: Option<string>)
      requires Valid()
      ensures r.None? <==> kind == Error
      ensures r.Some? ==> r.value == HexPrefix + HexDigits(value)
    {
      if kind == Error {
        return None;
      }
      var hex := HexOfBits(value);
      return Some(hex);
    }

    /** `getDecimal`: the value of the bits, most significant first; `false` in the error state. */
    method GetDecimal() returns (r: Option<nat>)
      requires Valid()
      ensures r.None? <==> kind == Error
      ensures r.Some? ==> r.value == ToNat(value)
    {
      if kind == Error {
        return None;
      }
      var decimal := GetDecimalInternal(value);
      return Some(decimal);
    }

    /** `#convertToDecimal`: the number an operator argument stands for; None where the source throws. */
    method ConvertToDecimal(data: Input) returns (r: Option<int>)
      modifies Footprint(data)
      ensures r == OperandValue(old(Snapshot(data)))
      ensures data.Arr? ==> data.a.items == Pad(old(data.a.items), 0)
    {
      match data {
        case Num(n) =>
          r := Some(n);
        case Str(s) =>
          var bits := BinaryStringToBinary(s);
          if bits.Some? {
            var d := GetDecimalInternal(bits.value);
            r := Some(d);
          } else {
            r := None;
          }
        case Arr(a) =>
          var bits := BinaryArrayToBinary(a);
          if bits.Some? {
            var d := GetDecimalInternal(bits.value);
            r := Some(d);
          } else {
            r := None;
          }
        case Other =>
          r := Some(0);
      }
    }

    /**
     * The common body of `and`, `or` and `xor`: in the error state nothing
     * happens and the result is `undefined`; an argument that does not
     * convert throws before anything is stored; otherwise the host operator
     * combines the argument with the stored decimal value and the 32-bit
     * signed result is stored by `set` as a decimal number.
     */
    method Bitwise(op: BitwiseOp, data: Input) returns (r: OpResult)
      requires Valid()
      modifies this, Footprint(data)
      ensures Valid()
      ensures old(kind) == Error ==> r == Undefined && unchanged(this) && unchanged(Footprint(data))
      ensures old(kind) != Error && data.Arr? ==> data.a.items == Pad(old(data.a.items), 0)
      ensures old(kind) != Error && OperandValue(old(Snapshot(data))).None? ==>
        r == TypeError && unchanged(this)
      ensures old(kind) != Error && OperandValue(old(Snapshot(data))).Some? ==>
        var res := JsBitwise(op, OperandValue(old(Snapshot(data))).value, ToNat(old(value)));
        raw == RawNum(res) && kind == Decimal && value == DecimalBits(res) && r == Bits(BitString(value))
    {
      if kind == Error {
        return Undefined;
      }
      ghost var operand := OperandValue(Snapshot(data));
      var x := ConvertToDecimal(data);
      assert x == operand;
      if x.None? {
        return TypeError;
      }
      var d := GetDecimal();
      var res := JsBitwise(op, x.value, d.value);
      var _ := Set(Num(res));
      assert raw == RawNum(res);
      r := Bits(BitString(value));
    }

    /** `and`. */
    method And(data: Input) returns (r: OpResult)
      requires Valid()
      modifies this, Footprint(data)
      ensures Valid()
      ensures old(kind) == Error ==> r == Undefined && unchanged(this) && unchanged(Footprint(data))
      ensures old(kind) != Error && data.Arr? ==> data.a.items == Pad(old(data.a.items), 0)
      ensures old(kind) != Error && OperandValue(old(Snapshot(data))).None? ==>
        r == TypeError && unchanged(this)
      ensures old(kind) != Error && OperandValue(old(Snapshot(data))).Some? ==>
        var res := JsBitwise(BitwiseOp.And, OperandValue(old(Snapshot(data))).value, ToNat(old(value)));
        raw == RawNum(res) && kind == Decimal && value == DecimalBits(res) && r == Bits(BitString(value))
    {
      r := Bitwise(BitwiseOp.And, data);
    }

    /** `or`. */
    method Or(data: Input) returns (r: OpResult)
      requires Valid()
      modifies this, Footprint(data)
      ensures Valid()
      ensures old(kind) == Error ==> r == Undefined && unchanged(this) && unchanged(Footprint(data))
      ensures old(kind) != Error && data.Arr? ==> data.a.items == Pad(old(data.a.items), 0)
      ensures old(kind) != Error && OperandValue(old(Snapshot(data))).None? ==>
        r == TypeError && unchanged(this)
      ensures old(kind) != Error && OperandValue(old(Snapshot(data))).Some? ==>
        var res := JsBitwise(BitwiseOp.Or, OperandValue(old(Snapshot(data))).value, ToNat(old(value)));
        raw == RawNum(res) && kind == Decimal && value == DecimalBits(res) && r == Bits(BitString(value))
    {
      r := Bitwise(BitwiseOp.Or, data);
    }

    /** `xor`. */
    method Xor(data: Input) returns (r: OpResult)
      requires Valid()
      modifies this, Footprint(data)
      ensures Valid()
      ensures old(kind) == Error ==> r == Undefined && unchanged(this) && unchanged(Footprint(data))
      ensures old(kind) != Error && data.Arr? ==> data.a.items == Pad(old(data.a.items), 0)
      ensures old(kind) != Error && OperandValue(old(Snapshot(data))).None? ==>
        r == TypeError && unchanged(this)
      ensures old(kind) != Error && OperandValue(old(Snapshot(data))).Some? ==>
        var res := JsBitwise(BitwiseOp.Xor, OperandValue(old(Snapshot(data))).value, ToNat(old(value)));
        raw == RawNum(res) && kind == Decimal && value == DecimalBits(res) && r == Bits(BitString(value))
    {
      r := Bitwise(BitwiseOp.Xor, data);
    }

    /**
     * `not`: complements every bit of a copy of the value and stores that
     * array with `set`, so the type becomes binaryArray; `undefined` and no
     * change in the error state.
     */
    method Not() returns (r: OpResult)
      requires Valid()
      modifies this
      ensures Valid()
      ensures old(kind) == Error ==> r == Undefined && unchanged(this)
      ensures old(kind) != Error ==>
        raw == RawArr(Flip(old(value))) && kind == BinaryArray && value == Flip(old(value))
        && r == Bits(BitString(value))
    {
      if kind == Error {
        return Undefined;
      }
      ghost var before := value;
      var bitValues := new JsArray(value);
      FlipInPlace(bitValues);
      assert bitValues.items == Flip(before);
      var _ := Set(Arr(bitValues));
      NotStored(before, raw, kind, value);
      r := Bits(BitString(value));
    }
  }

  // ---------------------------------------------------------------------------
  // What `set` stores for each kind of input
  // ---------------------------------------------------------------------------

  /** A number in 0 .. 2^32 - 1 is stored as its binary expansion, without excess words, and reads back as itself. */
  lemma NumberInput(d: int)
    requires 0 <= d < Pow2(32)
    ensures Interpret(RawNum(d)).kind == Decimal
    ensures ToNat(Interpret(RawNum(d)).value) == d
    ensures |Interpret(RawNum(d)).value| == PadWidth(BitLen(d))
  {
    DecimalRoundTrip(d);
  }

  /**
   * A trimmed string "0x" + rest is a hex string: accepted exactly when the
   * upper-cased rest is all hex digits, stored at 4 bits per digit, with
   * `getHex` giving back "0x" and the upper-cased digits.
   */
  lemma {:induction false} HexInput(s: string, rest: string)
    requires Trim(s) == HexPrefix + rest
    ensures Interpret(RawStr(s)).kind == HexString <==> AllHex(ToUpperCase(rest))
    ensures Interpret(RawStr(s)).kind != HexString ==> Interpret(RawStr(s)).kind == Error
    ensures AllHex(ToUpperCase(rest)) ==>
      var v := Interpret(RawStr(s)).value;
      v == HexDigitBits(ToUpperCase(rest)) && |v| == 4 * |ToUpperCase(rest)|
      && HexPrefix + HexDigits(v) == HexPrefix + ToUpperCase(rest)
      && ToNat(v) == HexNat(ToUpperCase(rest))
  {
    var data := HexPrefix + rest;
    assert StartsWith(data, HexPrefix);
    ToUpperCaseOfPrefixed(rest);
    assert HexDigitsOf(data) == ToUpperCase(rest);
    if AllHex(ToUpperCase(rest)) {
      HexRoundTrip(ToUpperCase(rest));
      HexDigitBitsValue(ToUpperCase(rest));
    }
  }

  /**
   * A trimmed string not starting with "0x" is a binary string: accepted
   * exactly when it is all '0' and '1', stored left-padded with '0' to whole
   * words, keeping its value.
   */
  lemma {:induction false} BinaryInput(s: string)
    requires !StartsWith(Trim(s), HexPrefix)
    ensures Interpret(RawStr(s)).kind == BinaryString <==> IsBinaryChars(Trim(s))
    ensures Interpret(RawStr(s)).kind != BinaryString ==> Interpret(RawStr(s)).kind == Error
    ensures IsBinaryChars(Trim(s)) ==>
      BitString(Interpret(RawStr(s)).value) == Pad(Trim(s), '0')
      && ToNat(Interpret(RawStr(s)).value) == ToNat(CharBits(Trim(s)))
  {
    BinaryStringMeaning(Trim(s));
  }

  /** An array is accepted exactly when every element is 0 or 1, and stored left-padded with 0. */
  lemma {:induction false} ArrayInput(items: seq<int>)
    ensures Interpret(RawArr(items)).kind == BinaryArray <==> IsBitArray(items)
    ensures Interpret(RawArr(items)).kind != BinaryArray ==> Interpret(RawArr(items)).kind == Error
    ensures IsBitArray(items) ==> Interpret(RawArr(items)).value == Pad(items, 0)
  {
    ArrayMeaning(items);
  }

  /** The array `not` hands to `set` is stored as it is: it is already word-aligned and all 0/1. */
  lemma {:induction false} NotInput(v: seq<Bit>)
    requires |v| % 4 == 0
    ensures Interpret(RawArr(Flip(v))) == Parsed(BinaryArray, Flip(v))
    ensures Flip(Flip(v)) == v && |Flip(v)| == |v|
  {
    FlipInvolution(v);
    var f: seq<int> := Flip(v);
    assert IsBitArray(f);
    PadAligned(f, 0);
  }

  /** What `set` keeps after `not` has handed it the complemented array. */
  lemma NotStored(before: seq<Bit>, raw: Raw, kind: Kind, value: seq<Bit>)
    requires |before| % 4 == 0
    requires raw == RawArr(Flip(before)) && Parsed(kind, value) == Interpret(raw)
    ensures kind == BinaryArray && value == Flip(before)
  {
    NotInput(before);
  }

  /**
   * Below 2^31 both operands of an operator stay non-negative, so the result
   * is stored as the plain bitwise combination of the two values.
   */
  lemma {:induction false} BitwiseInput(op: BitwiseOp, x: int, y: int)
    requires 0 <= x < Pow2(31) && 0 <= y < Pow2(31)
    ensures Interpret(RawNum(JsBitwise(op, x, y))).kind == Decimal
    ensures ToNat(Interpret(RawNum(JsBitwise(op, x, y))).value) == BitwiseNat(op, x, y, 32)
  {
    JsBitwiseNonNegative(op, x, y);
    Pow2Monotone(31, 32);
    DecimalRoundTrip(JsBitwise(op, x, y));
  }

  /** An operator argument that is a string or an array counts by its binary value; a failing one throws. */
  lemma {:induction false} OperandInput(raw: Raw)
    ensures raw.RawStr? ==>
      (OperandValue(raw).Some? <==> IsBinaryChars(raw.s))
      && (IsBinaryChars(raw.s) ==> OperandValue(raw) == Some(ToNat(CharBits(raw.s))))
    ensures raw.RawArr? ==>
      (OperandValue(raw).Some? <==> IsBitArray(raw.items))
    ensures raw.RawArr? && IsBitArray(raw.items) ==> OperandValue(raw) == Some(ToNat(raw.items))
  {
    if raw.RawStr? {
      BinaryStringMeaning(raw.s);
    }
    if raw.RawArr? {
      ArrayMeaning(raw.items);
      if IsBitArray(raw.items) {
        ArrayValue(raw.items);
      }
    }
  }
}
