/** Fixed-width integers, their byte encodings and the bit operations the model needs. */
module Words {
  datatype Option<+T> = None | Some(value: T)

  type byte = x: int | 0 <= x < 0x100
  type uint32 = x: int | 0 <= x < 0x1_0000_0000
  type int32 = x: int | -0x8000_0000 <= x < 0x8000_0000

  const TWO_32: int := 0x1_0000_0000
  const TWO_64: int := 0x1_0000_0000_0000_0000

  /** static_cast<uint32_t>. */
  function ToUint32(x: int): uint32 {
    x % TWO_32
  }

  /** Two's-complement reading of the low 32 bits. */
  function Wrap32(x: int): int32 {
    var u := x % TWO_32;
    if u < 0x8000_0000 then u else u - TWO_32
  }

  lemma WrapRoundTrip(x: int32)
    ensures Wrap32(ToUint32(x)) == x
  {
    if x < 0 {
      assert x % TWO_32 == x + TWO_32;
    }
  }

  function Abs(x: int): nat {
    if x < 0 then -x else x
  }

  /** C++ integer division: the quotient is truncated toward zero. */
  function TruncDiv(a: int, b: int): int
    requires b != 0
  {
    var q := Abs(a) / Abs(b);
    if (a < 0) == (b < 0) then q else -q
  }

  /** C++ remainder: it takes the sign of the dividend. */
  function TruncRem(a: int, b: int): int
    requires b != 0
  {
    var r := Abs(a) % Abs(b);
    if a < 0 then -r else r
  }

  /** Quotient and remainder recombine to the dividend, and the remainder is smaller than the
      divisor and on the dividend's side of zero. */
  lemma TruncDivision(a: int, b: int)
    requires b != 0
    ensures a == b * TruncDiv(a, b) + TruncRem(a, b)
    ensures Abs(TruncRem(a, b)) < Abs(b)
    ensures TruncRem(a, b) != 0 ==> (TruncRem(a, b) < 0 <==> a < 0)
  {
    var q: int, r: int := Abs(a) / Abs(b), Abs(a) % Abs(b);
    assert Abs(a) == Abs(b) * q + r;
    MulSigns(b, q);
  }

  lemma MulSigns(b: int, q: int)
    ensures -b * q == -(b * q) && b * -q == -(b * q)
  {
  }

  function Pow256(n: nat): nat {
    if n == 0 then 1 else 256 * Pow256(n - 1)
  }

  lemma WordSizes()
    ensures Pow256(4) == TWO_32
    ensures Pow256(8) == TWO_64
  {
    assert Pow256(2) == 256 * Pow256(1);
    assert Pow256(4) == 256 * Pow256(3);
    assert Pow256(6) == 256 * Pow256(5);
    assert Pow256(8) == 256 * Pow256(7);
  }

  /** The n low bytes of x, least significant first. */
  function LittleEndian(x: nat, n: nat): (s: seq<byte>)
    ensures |s| == n
  {
    if n == 0 then [] else [x % 256] + LittleEndian(x / 256, n - 1)
  }

  function FromLittleEndian(s: seq<byte>): nat {
    if s == [] then 0 else s[0] + 256 * FromLittleEndian(s[1..])
  }

  lemma {:induction false} EncodeDecode(x: nat, n: nat)
    requires x < Pow256(n)
    ensures FromLittleEndian(LittleEndian(x, n)) == x
  {
    if n > 0 {
      EncodeDecode(x / 256, n - 1);
      assert LittleEndian(x, n)[1..] == LittleEndian(x / 256, n - 1);
    }
  }

  lemma {:induction false} DecodeEncode(s: seq<byte>)
    ensures FromLittleEndian(s) < Pow256(|s|)
    ensures LittleEndian(FromLittleEndian(s), |s|) == s
  {
    if s != [] {
      DecodeEncode(s[1..]);
      LowByte(s[0], FromLittleEndian(s[1..]));
      assert s == [s[0]] + s[1..];
    }
  }

  lemma LowByte(low: byte, rest: nat)
    ensures (low + 256 * rest) % 256 == low && (low + 256 * rest) / 256 == rest
  {
  }

  /** The 4 bytes of an int32 in memory order. */
  function WordBytes(w: int): (s: seq<byte>)
    ensures |s| == 4
  {
    LittleEndian(ToUint32(w), 4)
  }

  function BytesWord(s: seq<byte>): int32 {
    Wrap32(FromLittleEndian(s))
  }

  lemma WordBytesRoundTrip(w: int32)
    ensures BytesWord(WordBytes(w)) == w
  {
    hide LittleEndian, FromLittleEndian, Pow256;
    WordSizes();
    EncodeDecode(ToUint32(w), 4);
    WrapRoundTrip(w);
  }

  lemma BytesWordRoundTrip(s: seq<byte>)
    requires |s| == 4
    ensures WordBytes(BytesWord(s)) == s
  {
    hide LittleEndian, FromLittleEndian, Pow256;
    WordSizes();
    DecodeEncode(s);
    UnwrapRoundTrip(FromLittleEndian(s));
  }

  lemma UnwrapRoundTrip(u: uint32)
    ensures ToUint32(Wrap32(u)) == u
  {
  }

  datatype BitFn = BitAnd | BitOr | BitXor {
    function Apply(a: bool, b: bool): bool {
      match this
      case BitAnd => a && b
      case BitOr => a || b
      case BitXor => a != b
    }
  }

  /** A bitwise operation on the n low bits of a and b. */
  function Bitwise(f: BitFn, a: nat, b: nat, n: nat): (r: nat)
    ensures r < Pow2(n)
  {
    if n == 0 then 0
    else
      (if f.Apply(a % 2 == 1, b % 2 == 1) then 1 else 0) + 2 * Bitwise(f, a / 2, b / 2, n - 1)
  }

  function Pow2(n: nat): (p: nat)
    ensures p > 0
  {
    if n == 0 then 1 else 2 * Pow2(n - 1)
  }

  /** Exclusive or with a fixed right operand is its own inverse. */
  lemma {:induction false} XorCancels(a: nat, b: nat, n: nat)
    requires a < Pow2(n)
    ensures Bitwise(BitXor, Bitwise(BitXor, a, b, n), b, n) == a
  {
    if n > 0 {
      XorCancels(a / 2, b / 2, n - 1);
    }
  }

  /** Exclusive or with a fixed left operand is injective. */
  lemma {:induction false} XorInjective(a: nat, b: nat, c: nat, n: nat)
    requires b < Pow2(n) && c < Pow2(n)
    requires Bitwise(BitXor, a, b, n) == Bitwise(BitXor, a, c, n)
    ensures b == c
  {
    if n > 0 {
      XorInjective(a / 2, b / 2, c / 2, n - 1);
    }
  }

  lemma Pow2Word()
    ensures Pow2(8) == 0x100
    ensures Pow2(32) == TWO_32
  {
    assert Pow2(8) == 16 * Pow2(4) && Pow2(4) == 16;
    assert Pow2(16) == 256 * Pow2(8) by {
      assert Pow2(12) == 16 * Pow2(8) && Pow2(16) == 16 * Pow2(12);
    }
    assert Pow2(24) == 256 * Pow2(16) by {
      assert Pow2(20) == 16 * Pow2(16) && Pow2(24) == 16 * Pow2(20);
    }
    assert Pow2(28) == 16 * Pow2(24) && Pow2(32) == 16 * Pow2(28);
  }
}
