/**
 * The parts of the JavaScript host that BinaryData relies on and whose
 * behaviour decides outcomes: `String.prototype.trim`, `toUpperCase`, arrays
 * shared with the caller, and the 32-bit bitwise operators `&`, `|`, `^`.
 */
module JsHost {
  import opened Bits

  /** A JavaScript array of numbers, shared by reference with the caller. */
  class JsArray {
    var items: seq<int>

    constructor (items: seq<int>)
      ensures this.items == items
    {
      this.items := items;
    }
  }

  /** White space and line terminators removed by `trim`: TAB, LF, VT, FF, CR, the Zs category and U+FEFF, U+2028, U+2029. */
  predicate IsTrimmable(c: char)
  {
    || c == '\t' || c == '\n' || c == '\U{000B}' || c == '\U{000C}' || c == '\r'
    || c == ' ' || c == '\U{00A0}' || c == '\U{1680}'
    || ('\U{2000}' <= c <= '\U{200A}')
    || c == '\U{2028}' || c == '\U{2029}' || c == '\U{202F}' || c == '\U{205F}'
    || c == '\U{3000}' || c == '\U{FEFF}'
  }

  /** Number of trimmable characters at the start of `s`. */
  function LeadingSpace(s: string): (n: nat)
    ensures n <= |s|
    ensures forall k :: 0 <= k < n ==> IsTrimmable(s[k])
    ensures n < |s| ==> !IsTrimmable(s[n])
  {
    if |s| > 0 && IsTrimmable(s[0]) then 1 + LeadingSpace(s[1..]) else 0
  }

  /** Number of trimmable characters at the end of `s`. */
  function TrailingSpace(s: string): (n: nat)
    ensures n <= |s|
    ensures forall k :: |s| - n <= k < |s| ==> IsTrimmable(s[k])
    ensures n < |s| ==> !IsTrimmable(s[|s| - 1 - n])
  {
    if |s| > 0 && IsTrimmable(s[|s| - 1]) then 1 + TrailingSpace(s[..|s| - 1]) else 0
  }

  /** `s.trim()`: `s` without its leading and trailing white space. */
  function Trim(s: string): (t: string)
    ensures exists i, j ::
      && 0 <= i <= j <= |s| && t == s[i..j]
      && (forall k :: 0 <= k < i ==> IsTrimmable(s[k]))
      && (forall k :: j <= k < |s| ==> IsTrimmable(s[k]))
    ensures t != [] ==> !IsTrimmable(t[0]) && !IsTrimmable(t[|t| - 1])
    ensures (forall k :: 0 <= k < |s| ==> !IsTrimmable(s[k])) ==> t == s
  {
    var a := LeadingSpace(s);
    var rest := s[a..];
    var b := TrailingSpace(rest);
    assert rest[..|rest| - b] == s[a..|s| - b];
    rest[..|rest| - b]
  }

  /** A string that neither starts nor ends with white space has nothing to trim. */
  lemma TrimEnds(s: string)
    requires s != [] ==> !IsTrimmable(s[0]) && !IsTrimmable(s[|s| - 1])
    ensures Trim(s) == s
  {
    if s != [] {
      assert LeadingSpace(s) == 0;
      assert s[0..] == s;
      assert TrailingSpace(s) == 0;
    }
  }

  /** `s.startsWith(p)`. */
  predicate StartsWith(s: string, p: string): (b: bool)
    ensures b <==> |p| <= |s| && forall k :: 0 <= k < |p| ==> s[k] == p[k]
  {
    |p| <= |s| && s[..|p|] == p
  }

  /** `s.padStart(n, c)`: `s` preceded by enough copies of `c` to reach length `n`. */
  function PadStart(s: string, n: nat, c: char): (r: string)
    ensures |r| == if |s| < n then n else |s|
    ensures r[|r| - |s|..] == s
    ensures forall k :: 0 <= k < |r| - |s| ==> r[k] == c
  {
    if |s| < n then Repeat(c, n - |s|) + s else s
  }

  /**
   * Upper-case form of one character: a-z become A-Z, and U+FB00 (the ff
   * ligature) becomes "FF", the one code point whose upper-case form is made
   * of hex digits only. Every other code point is kept as it is.
   */
  function UpperChar(c: char): string
  {
    if 'a' <= c <= 'z' then [(c as int - 32) as char]
    else if c == '\U{FB00}' then "FF"
    else [c]
  }

  /** `s.toUpperCase()`, character by character. */
  function ToUpperCase(s: string): (u: string)
    ensures |u| >= |s|
  {
    if s == [] then [] else ToUpperCase(s[..|s| - 1]) + UpperChar(s[|s| - 1])
  }

  /** Without the ligature, upper-casing maps each character to its own upper-case form at the same index. */
  lemma {:induction false} ToUpperCasePointwise(s: string)
    requires forall k :: 0 <= k < |s| ==> s[k] != '\U{FB00}'
    ensures |ToUpperCase(s)| == |s|
    ensures forall k :: 0 <= k < |s| ==> [ToUpperCase(s)[k]] == UpperChar(s[k])
  {
    if s != [] {
      ToUpperCasePointwise(s[..|s| - 1]);
    }
  }

  lemma {:induction false} ToUpperCaseAppend(a: string, b: string)
    ensures ToUpperCase(a + b) == ToUpperCase(a) + ToUpperCase(b)
    decreases |b|
  {
    if b == [] {
      assert a + b == a;
    } else {
      var b' := b[..|b| - 1];
      assert (a + b)[..|a + b| - 1] == a + b';
      ToUpperCaseAppend(a, b');
    }
  }

  /** A string whose characters are all their own upper-case form is left as it is. */
  lemma {:induction false} ToUpperCaseKeeps(s: string)
    requires forall k :: 0 <= k < |s| ==> UpperChar(s[k]) == [s[k]]
    ensures ToUpperCase(s) == s
  {
    if s != [] {
      ToUpperCaseKeeps(s[..|s| - 1]);
    }
  }

  /** Upper-casing keeps the "0x" prefix at its place: the digits follow at index 2. */
  lemma ToUpperCaseOfPrefixed(rest: string)
    ensures ToUpperCase("0x" + rest) == "0X" + ToUpperCase(rest)
  {
    ToUpperCaseAppend("0x", rest);
    assert "0x"[..1] == "0";
  }

  /** The three binary bitwise operators of the host. */
  datatype BitwiseOp = And | Or | Xor

  function ApplyBit(op: BitwiseOp, a: Bit, b: Bit): Bit
  {
    match op
    case And => if a == 1 && b == 1 then 1 else 0
    case Or => if a == 1 || b == 1 then 1 else 0
    case Xor => if a != b then 1 else 0
  }

  /** `op` applied to the low `w` bits of `x` and `y`, bit by bit. */
  function BitwiseNat(op: BitwiseOp, x: nat, y: nat, w: nat): nat
  {
    if w == 0 then 0 else 2 * BitwiseNat(op, x / 2, y / 2, w - 1) + ApplyBit(op, x % 2, y % 2)
  }

  /** `ToUint32`: the integer modulo 2^32. */
  function ToUint32(x: int): nat
  {
    x % Pow2(32)
  }

  /** Reading a 32-bit pattern as signed and converting back gives the pattern. */
  lemma ToUint32Signed(u: int)
    requires 0 <= u < Pow2(32)
    ensures ToUint32(u) == u && ToUint32(u - Pow2(32)) == u
  {
    Pow2At32();
  }

  lemma ToUint32Small(x: int)
    requires 0 <= x < Pow2(32)
    ensures ToUint32(x) == x
  {
    Pow2At32();
  }

  /**
   * `x op y` on two integer-valued JavaScript numbers: both are converted with
   * ToInt32, combined bit by bit on 32 bits, and the result is read back as a
   * signed 32-bit integer.
   */
  function JsBitwise(op: BitwiseOp, x: int, y: int): (r: int)
    ensures 0 <= r + Pow2(31) && r < Pow2(31)
    ensures ToUint32(r) == BitwiseNat(op, ToUint32(x), ToUint32(y), 32)
  {
    var u := BitwiseNat(op, ToUint32(x), ToUint32(y), 32);
    BitwiseNatBits(op, ToUint32(x), ToUint32(y), 32);
    Pow2At32();
    ToUint32Signed(u);
    if u >= Pow2(31) then u - Pow2(32) else u
  }

  /** Bit `i` of the result is `op` of bit `i` of the two operands, at every width. */
  lemma {:induction false} BitwiseNatBits(op: BitwiseOp, x: nat, y: nat, w: nat)
    ensures BitwiseNat(op, x, y, w) < Pow2(w)
    ensures forall i :: 0 <= i < w ==>
      NatToBits(BitwiseNat(op, x, y, w), w)[i] == ApplyBit(op, NatToBits(x, w)[i], NatToBits(y, w)[i])
  {
    if w > 0 {
      var r := BitwiseNat(op, x, y, w);
      var r' := BitwiseNat(op, x / 2, y / 2, w - 1);
      BitwiseNatBits(op, x / 2, y / 2, w - 1);
      assert r / 2 == r' && r % 2 == ApplyBit(op, x % 2, y % 2);
    }
  }

  /** A number below 2^k has zero bits above position k. */
  lemma {:induction false} BitwiseNatBelow(op: BitwiseOp, x: nat, y: nat, w: nat, k: nat)
    requires k <= w
    requires x < Pow2(k) && y < Pow2(k)
    ensures BitwiseNat(op, x, y, w) < Pow2(k)
  {
    if w > 0 && k > 0 {
      BitwiseNatBelow(op, x / 2, y / 2, w - 1, k - 1);
    } else if w > 0 {
      assert x == 0 && y == 0;
      BitwiseNatZero(op, w);
    }
  }

  lemma {:induction false} BitwiseNatZero(op: BitwiseOp, w: nat)
    ensures BitwiseNat(op, 0, 0, w) == 0
  {
    if w > 0 {
      BitwiseNatZero(op, w - 1);
    }
  }

  /** Bits above the width of both operands contribute nothing: only the low `k` bits matter. */
  lemma {:induction false} BitwiseNatWidth(op: BitwiseOp, x: nat, y: nat, w: nat, k: nat)
    requires k <= w
    requires x < Pow2(k) && y < Pow2(k)
    ensures BitwiseNat(op, x, y, w) == BitwiseNat(op, x, y, k)
  {
    if k > 0 {
      BitwiseNatWidth(op, x / 2, y / 2, w - 1, k - 1);
    } else {
      assert x == 0 && y == 0;
      BitwiseNatZero(op, w);
    }
  }

  /**
   * Below 2^31 the host operators are plain unsigned 32-bit bitwise operations:
   * no wrap-around and no negative result.
   */
  lemma JsBitwiseNonNegative(op: BitwiseOp, x: int, y: int)
    requires 0 <= x < Pow2(31) && 0 <= y < Pow2(31)
    ensures JsBitwise(op, x, y) == BitwiseNat(op, x, y, 32)
    ensures 0 <= JsBitwise(op, x, y) < Pow2(31)
  {
    Pow2Monotone(31, 32);
    ToUint32Small(x);
    ToUint32Small(y);
    BitwiseNatBelow(op, x, y, 32, 31);
  }
}
