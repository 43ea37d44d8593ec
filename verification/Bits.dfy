/** What the encodings and operations of Words mean, bit by bit and byte by byte. */
module Bits {
  import opened Words

  /** Bit k of an integer in two's complement; a negative number has infinitely many leading ones. */
  predicate Bit(x: int, k: nat) {
    x / Pow2(k) % 2 == 1
  }

  lemma QuotientUnique(x: int, d: int, q: int, r: int)
    requires 0 <= r < d && x == d * q + r
    ensures x / d == q && x % d == r
  {
    var e := x / d - q;
    assert d * e == r - x % d;
    MultipleSize(d, e);
  }

  lemma MultipleSize(d: nat, e: int)
    ensures e >= 1 ==> d * e >= d
    ensures e <= -1 ==> d * e <= 0 - d
  {
  }

  lemma HalveThenDivide(x: int, p: int)
    requires p > 0
    ensures x / 2 / p == x / (2 * p)
  {
    var q, s := x / 2 / p, x / 2 % p;
    assert x / 2 == p * q + s;
    assert x == 2 * (x / 2) + x % 2;
    assert x == 2 * p * q + (2 * s + x % 2);
    QuotientUnique(x, 2 * p, q, 2 * s + x % 2);
  }

  /** Bit 0 is the parity, and bit k + 1 is bit k of the half. */
  lemma BitStep(x: int, k: nat)
    ensures Bit(x, 0) <==> x % 2 == 1
    ensures k > 0 ==> (Bit(x, k) <==> Bit(x / 2, k - 1))
  {
    if k > 0 {
      HalveThenDivide(x, Pow2(k - 1));
    }
  }

  /** Numbers that agree modulo 2^n agree in their n low bits. */
  lemma {:induction false} CongruentBits(x: int, y: int, n: nat, t: int, k: nat)
    requires x == y + Pow2(n) * t && k < n
    ensures Bit(x, k) <==> Bit(y, k)
    decreases k
  {
    BitStep(x, k);
    BitStep(y, k);
    var half := Pow2(n - 1) * t;
    assert x == y + 2 * half;
    if k > 0 {
      CongruentBits(x / 2, y / 2, n - 1, t, k - 1);
    }
  }

  /** Wrapping to 32 bits keeps the 32 low bits. */
  lemma WrapKeepsBits(x: int, k: nat)
    requires k < 32
    ensures Bit(Wrap32(x), k) <==> Bit(x, k)
    ensures Bit(ToUint32(x), k) <==> Bit(x, k)
  {
    Pow2Word();
    var t := x / TWO_32;
    assert x == ToUint32(x) + TWO_32 * t;
    CongruentBits(x, ToUint32(x), 32, t, k);
    if Wrap32(x) < 0 {
      CongruentBits(ToUint32(x), Wrap32(x), 32, 1, k);
    }
  }

  /** A bitwise operation acts on each bit by itself. */
  lemma {:induction false} BitwiseActsOnBits(f: BitFn, a: nat, b: nat, n: nat, k: nat)
    requires k < n
    ensures Bit(Bitwise(f, a, b, n), k) <==>
              match f
              case BitAnd => Bit(a, k) && Bit(b, k)
              case BitOr => Bit(a, k) || Bit(b, k)
              case BitXor => Bit(a, k) != Bit(b, k)
    decreases n
  {
    BitStep(a, k);
    BitStep(b, k);
    var r := Bitwise(f, a, b, n);
    BitStep(r, k);
    assert r / 2 == Bitwise(f, a / 2, b / 2, n - 1);
    if k > 0 {
      BitwiseActsOnBits(f, a / 2, b / 2, n - 1, k - 1);
    }
  }

  /** Dividing by 2^b, rounding down, moves the bits b places down. */
  lemma {:induction false} DivisionMovesBits(x: int, b: nat, k: nat)
    ensures Bit(x / Pow2(b), k) <==> Bit(x, k + b)
    decreases b
  {
    if b > 0 {
      HalveThenDivide(x, Pow2(b - 1));
      DivisionMovesBits(x / 2, b - 1, k);
      BitStep(x, k + b);
    }
  }

  /** Multiplying by 2^b moves the bits b places up, and zeros in below. */
  lemma {:induction false} ProductMovesBits(x: int, b: nat, k: nat)
    ensures Bit(x * Pow2(b), k) <==> k >= b && Bit(x, k - b)
    decreases b
  {
    if b > 0 {
      var half := x * Pow2(b - 1);
      assert x * Pow2(b) == 2 * half;
      BitStep(x * Pow2(b), k);
      if k > 0 {
        ProductMovesBits(x, b - 1, k - 1);
      }
    }
  }

  /** Beyond its magnitude a number repeats its sign. */
  lemma {:induction false} SignBits(x: int, k: nat)
    requires 0 - Pow2(k) <= x < Pow2(k)
    ensures Bit(x, k) <==> x < 0
    decreases k
  {
    BitStep(x, k);
    if k > 0 {
      SignBits(x / 2, k - 1);
    }
  }

  lemma {:induction false} Pow2Grows(a: nat, b: nat)
    requires a <= b
    ensures Pow2(a) <= Pow2(b)
    decreases b
  {
    if a < b {
      Pow2Grows(a, b - 1);
    }
  }

  /** From bit 31 on, a 32-bit number repeats its sign. */
  lemma HighBits(x: int32, k: nat)
    requires k >= 31
    ensures Bit(x, k) <==> x < 0
  {
    Pow2Word();
    assert Pow2(32) == 2 * Pow2(31);
    Pow2Grows(31, k);
    SignBits(x, k);
  }

  /** The four bytes of a word, least significant first. */
  lemma WordBytesAre(w: int)
    ensures var u := w % 0x1_0000_0000;
            WordBytes(w) == [u % 0x100, u / 0x100 % 0x100, u / 0x1_0000 % 0x100, u / 0x100_0000]
  {
    var u := w % 0x1_0000_0000;
    assert u / 0x100 / 0x100 == u / 0x1_0000 && u / 0x1_0000 / 0x100 == u / 0x100_0000;
    assert LittleEndian(u, 4) == [u % 0x100] + LittleEndian(u / 0x100, 3);
    assert LittleEndian(u / 0x100, 3) == [u / 0x100 % 0x100] + LittleEndian(u / 0x1_0000, 2);
    assert LittleEndian(u / 0x1_0000, 2) == [u / 0x1_0000 % 0x100] + LittleEndian(u / 0x100_0000, 1);
  }

  /** The word four bytes stand for: their little-endian sum, read in two's complement. */
  lemma BytesWordIs(s: seq<byte>)
    requires |s| == 4
    ensures var a: int, b: int, c: int, d: int := s[0], s[1], s[2], s[3];
            var u := a + 0x100 * b + 0x1_0000 * c + 0x100_0000 * d;
            BytesWord(s) == if u < 0x8000_0000 then u else u - 0x1_0000_0000
  {
    assert s[2..][1..] == s[3..] && s[1..][1..] == s[2..] && s[3..][1..] == [];
    assert FromLittleEndian(s[3..]) == s[3];
    assert FromLittleEndian(s[2..]) == s[2] + 256 * FromLittleEndian(s[3..]);
    assert FromLittleEndian(s[1..]) == s[1] + 256 * FromLittleEndian(s[2..]);
  }
}
