/**
 * Bytes and 16-bit registers as rows of bits. The C code shifts and xors uint8_t and
 * uint16_t values; here those two operations are written out bit by bit, so that no
 * theorem depends on how a solver treats bit vectors.
 */
module Bits {
  import opened Bytes

  /** A byte, b0 least significant. */
  datatype Bits8 = Bits8(b0: bool, b1: bool, b2: bool, b3: bool, b4: bool, b5: bool, b6: bool, b7: bool)

  /** A uint16_t, low byte and high byte. */
  datatype Bits16 = Bits16(lo: Bits8, hi: Bits8)

  const ZERO8 := Bits8(false, false, false, false, false, false, false, false)
  const ONES8 := Bits8(true, true, true, true, true, true, true, true)

  function Weight(b: bool, w: nat): nat { if b then w else 0 }

  function ToByte(r: Bits8): byte {
    Weight(r.b0, 1) + Weight(r.b1, 2) + Weight(r.b2, 4) + Weight(r.b3, 8) +
    Weight(r.b4, 16) + Weight(r.b5, 32) + Weight(r.b6, 64) + Weight(r.b7, 128)
  }

  function OfByte(n: byte): Bits8 {
    var (l, h) := (n % 16, n / 16);
    Bits8(Odd(l), Pair(l), Quad(l), l >= 8, Odd(h), Pair(h), Quad(h), h >= 8)
  }

  /** Bits 0, 1 and 2 of a four-bit number. */
  predicate Odd(n: int) {
    n == 1 || n == 3 || n == 5 || n == 7 || n == 9 || n == 11 || n == 13 || n == 15
  }

  predicate Pair(n: int) { 2 <= n < 4 || 6 <= n < 8 || 10 <= n < 12 || 14 <= n }

  predicate Quad(n: int) { 4 <= n < 8 || 12 <= n }

  /** The number in a 16-bit register. */
  function ToWord(r: Bits16): word {
    ToByte(r.lo) + 256 * ToByte(r.hi)
  }

  function Xor8(a: Bits8, b: Bits8): Bits8 {
    Bits8(a.b0 != b.b0, a.b1 != b.b1, a.b2 != b.b2, a.b3 != b.b3,
          a.b4 != b.b4, a.b5 != b.b5, a.b6 != b.b6, a.b7 != b.b7)
  }

  function Xor16(a: Bits16, b: Bits16): Bits16 {
    Bits16(Xor8(a.lo, b.lo), Xor8(a.hi, b.hi))
  }

  /** Left shift by one; the top bit is lost. */
  function Shl8(r: Bits8): Bits8 {
    Bits8(false, r.b0, r.b1, r.b2, r.b3, r.b4, r.b5, r.b6)
  }

  function Shl16(r: Bits16): Bits16 {
    Bits16(Shl8(r.lo), Shl8(r.hi).(b0 := r.lo.b7))
  }

  lemma ByteToBitsToByte(n: byte)
    ensures ToByte(OfByte(n)) == n
  {
    Nibble(n % 16);
    Nibble(n / 16);
  }

  lemma Nibble(n: int)
    requires 0 <= n < 16
    ensures n == Weight(Odd(n), 1) + Weight(Pair(n), 2) + Weight(Quad(n), 4) + Weight(n >= 8, 8)
  {
  }

  lemma ToByteInjective(r: Bits8, s: Bits8)
    requires ToByte(r) == ToByte(s)
    ensures r == s
  {
    assert r.b7 == s.b7;
    assert r.b6 == s.b6;
    assert r.b5 == s.b5;
    assert r.b4 == s.b4;
    assert r.b3 == s.b3;
  }

  lemma BitsToByteToBits(r: Bits8)
    ensures OfByte(ToByte(r)) == r
  {
    ByteToBitsToByte(ToByte(r));
    ToByteInjective(r, OfByte(ToByte(r)));
  }

  lemma ToWordInjective(r: Bits16, s: Bits16)
    requires ToWord(r) == ToWord(s)
    ensures r == s
  {
    var a, b, c, d := ToByte(r.lo), ToByte(r.hi), ToByte(s.lo), ToByte(s.hi);
    assert a == c && b == d;
    ToByteInjective(r.lo, s.lo);
    ToByteInjective(r.hi, s.hi);
  }

  lemma LoHiOfRegister(r: Bits16)
    ensures Lo(ToWord(r)) == ToByte(r.lo) && Hi(ToWord(r)) == ToByte(r.hi)
  {
    WordOfLoHi(ToByte(r.lo), ToByte(r.hi));
  }
}
