/**
 * The two checksums on the wire: CRC-16/CCITT-FALSE of the IPC link
 * (firmware/crsf/src/ipc.c, tools/zerotx-bench/ipc_client.go, pi/daemon/internal/ipc/framing.go,
 * firmware/io/src/hal.cpp) and the DVB-S2 CRC-8 of CRSF frames (polynomial 0xD5,
 * section 5.1.4 of ETSI EN 302 307), in its table-driven and its bitwise form.
 */
module Crc {
  import opened Bytes
  import opened Bits

  // ----- CRC-16 -----------------------------------------------------------------

  /** 0x1021: bits 12, 5 and 0. */
  const POLY16 := Bits16(ZERO8.(b0 := true, b5 := true), ZERO8.(b4 := true))

  /** 0xFFFF. */
  const INIT16 := Bits16(ONES8, ONES8)

  /** Multiplication of the register by x modulo x^16 + x^12 + x^5 + 1. */
  function Shift16(c: Bits16): Bits16 {
    var t := c.hi.b7;
    Bits16(Bits8(t, c.lo.b0, c.lo.b1, c.lo.b2, c.lo.b3, c.lo.b4 != t, c.lo.b5, c.lo.b6),
           Bits8(c.lo.b7, c.hi.b0, c.hi.b1, c.hi.b2, c.hi.b3 != t, c.hi.b4, c.hi.b5, c.hi.b6))
  }

  /** That is what one turn of the source's bit loop computes. */
  lemma Shift16IsLoopTurn(c: Bits16)
    ensures Shift16(c) == if c.hi.b7 then Xor16(Shl16(c), POLY16) else Shl16(c)
  {
  }

  function Shifts16(c: Bits16, n: nat): Bits16 {
    if n == 0 then c else Shift16(Shifts16(c, n - 1))
  }

  /** crc ^= b << 8. */
  function XorHigh(c: Bits16, b: byte): Bits16 {
    c.(hi := Xor8(c.hi, OfByte(b)))
  }

  /** The register after one more message byte. */
  function Step16(c: Bits16, b: byte): Bits16 {
    Shifts16(XorHigh(c, b), 8)
  }

  function Fold16(c: Bits16, data: seq<byte>): Bits16 {
    if data == [] then c else Step16(Fold16(c, data[..|data| - 1]), data[|data| - 1])
  }

  /** CRC-16/CCITT-FALSE of `data`. */
  function Crc16(data: seq<byte>): word {
    ToWord(Fold16(INIT16, data))
  }

  /** The inner bit loop. */
  method EightTurns(c: Bits16) returns (r: Bits16)
    ensures r == Shifts16(c, 8)
  {
    r := c;
    for b := 0 to 8
      invariant r == Shifts16(c, b)
    {
      Shift16IsLoopTurn(r);
      r := if r.hi.b7 then Xor16(Shl16(r), POLY16) else Shl16(r);
    }
  }

  /** The nested byte and bit loops that every CRC-16 copy runs. */
  method ComputeCrc16(data: seq<byte>) returns (crc: word)
    ensures crc == Crc16(data)
  {
    var c := INIT16;
    for i := 0 to |data|
      invariant c == Fold16(INIT16, data[..i])
    {
      ghost var before := c;
      c := XorHigh(c, data[i]);
      c := EightTurns(c);
      assert data[..i + 1][..i] == data[..i];
      assert c == Step16(before, data[i]);
    }
    assert data[..|data|] == data;
    crc := ToWord(c);
  }

  // The register update is linear over xor, and it loses nothing: the polynomial has its
  // lowest bit set, so the bit shifted out at the top is still visible at the bottom.

  lemma Shift16Injective(c: Bits16, d: Bits16)
    requires Shift16(c) == Shift16(d)
    ensures c == d
  {
  }

  lemma {:induction false} Shifts16Injective(c: Bits16, d: Bits16, n: nat)
    requires Shifts16(c, n) == Shifts16(d, n)
    ensures c == d
  {
    if n != 0 {
      Shift16Injective(Shifts16(c, n - 1), Shifts16(d, n - 1));
      Shifts16Injective(c, d, n - 1);
    }
  }

  lemma Shift16Linear(c: Bits16, d: Bits16)
    ensures Shift16(Xor16(c, d)) == Xor16(Shift16(c), Shift16(d))
  {
  }

  lemma {:induction false} Shifts16Linear(c: Bits16, d: Bits16, n: nat)
    ensures Shifts16(Xor16(c, d), n) == Xor16(Shifts16(c, n), Shifts16(d, n))
  {
    if n != 0 {
      Shifts16Linear(c, d, n - 1);
      Shift16Linear(Shifts16(c, n - 1), Shifts16(d, n - 1));
    }
  }

  /** The register after eight shifts of the high byte `e` alone. */
  function Spread(e: Bits8): Bits16 {
    Shifts16(Bits16(ZERO8, e), 8)
  }

  lemma SpreadUnrolled(e: Bits8)
    ensures Spread(e) ==
            Shift16(Shift16(Shift16(Shift16(Shift16(Shift16(Shift16(Shift16(Bits16(ZERO8, e)))))))))
  {
    var d := Bits16(ZERO8, e);
    assert Shifts16(d, 1) == Shift16(d);
    assert Shifts16(d, 2) == Shift16(Shifts16(d, 1));
    assert Shifts16(d, 3) == Shift16(Shifts16(d, 2));
    assert Shifts16(d, 4) == Shift16(Shifts16(d, 3));
    assert Shifts16(d, 5) == Shift16(Shifts16(d, 4));
    assert Shifts16(d, 6) == Shift16(Shifts16(d, 5));
    assert Shifts16(d, 7) == Shift16(Shifts16(d, 6));
  }

  /** Two bytes folded into the same register leave registers that differ by Spread. */
  lemma StepDifference(c: Bits16, x: byte, y: byte)
    ensures Xor16(Step16(c, x), Step16(c, y)) == Spread(Xor8(OfByte(x), OfByte(y)))
  {
    var u, v := XorHigh(c, x), XorHigh(c, y);
    Shifts16Linear(u, v, 8);
    HighOnly(c, OfByte(x), OfByte(y));
  }

  lemma HighOnly(c: Bits16, x: Bits8, y: Bits8)
    ensures Xor16(c.(hi := Xor8(c.hi, x)), c.(hi := Xor8(c.hi, y))) == Bits16(ZERO8, Xor8(x, y))
  {
    XorZero(c.lo, c.lo);
    XorCommon(c.hi, x, y);
  }

  lemma XorCommon(h: Bits8, x: Bits8, y: Bits8)
    ensures Xor8(Xor8(h, x), Xor8(h, y)) == Xor8(x, y)
  {
  }

  /** The low byte of the spread already determines the byte that was spread. */
  lemma SpreadLowZero(e: Bits8)
    requires Spread(e).lo == ZERO8
    ensures e == ZERO8
  {
    SpreadUnrolled(e);
    var d0 := Bits16(ZERO8, e);
    var d1 := Shift16(d0); var d2 := Shift16(d1); var d3 := Shift16(d2); var d4 := Shift16(d3);
    var d5 := Shift16(d4); var d6 := Shift16(d5); var d7 := Shift16(d6); var d8 := Shift16(d7);
    assert !d7.hi.b7 && !d6.hi.b7;
    assert !d5.hi.b7 && !d4.hi.b7;
    assert !d3.hi.b7 && !d2.hi.b7;
  }

  /** Exactly one non-zero byte error spreads into the low byte alone: 0x89, to 0xA1. */
  lemma SpreadHighZero(e: Bits8)
    ensures Spread(e).hi == ZERO8 <==> e == ZERO8 || e == BLIND
    ensures Spread(BLIND) == Bits16(BLIND_LOW, ZERO8)
  {
    SpreadUnrolled(e);
    SpreadUnrolled(BLIND);
  }

  /** 0x89 and 0xA1. */
  const BLIND := ZERO8.(b0 := true, b3 := true, b7 := true)
  const BLIND_LOW := ZERO8.(b0 := true, b5 := true, b7 := true)

  lemma XorZero(a: Bits8, b: Bits8)
    ensures Xor8(a, b) == ZERO8 <==> a == b
  {
  }

  lemma OfByteInjective(x: byte, y: byte)
    requires OfByte(x) == OfByte(y)
    ensures x == y
  {
    ByteToBitsToByte(x);
    ByteToBitsToByte(y);
  }

  /** Sixteen message bits fill the register injectively, whatever it held. */
  lemma TwoStepsInjective(c: Bits16, x: byte, y: byte, x': byte, y': byte)
    requires Step16(Step16(c, x), y) == Step16(Step16(c, x'), y')
    ensures x == x' && y == y'
  {
    var p, q := Step16(c, x), Step16(c, x');
    Shifts16Injective(XorHigh(p, y), XorHigh(q, y'), 8);
    SameLow(p, q, y, y');
    StepDifference(c, x, x');
    XorZero(p.lo, q.lo);
    SpreadLowZero(Xor8(OfByte(x), OfByte(x')));
    XorZero(OfByte(x), OfByte(x'));
    OfByteInjective(x, x');
    XorHighInjective(p, y, y');
  }

  lemma SameLow(p: Bits16, q: Bits16, y: byte, y': byte)
    requires XorHigh(p, y) == XorHigh(q, y')
    ensures p.lo == q.lo
  {
  }

  lemma XorHighInjective(p: Bits16, y: byte, y': byte)
    requires XorHigh(p, y) == XorHigh(p, y')
    ensures y == y'
  {
    XorLeft(p.hi, OfByte(y), OfByte(y'));
    OfByteInjective(y, y');
  }

  lemma XorLeft(a: Bits8, b: Bits8, c: Bits8)
    requires Xor8(a, b) == Xor8(a, c)
    ensures b == c
  {
  }

  lemma XorRight(a: Bits8, b: Bits8, c: Bits8)
    requires Xor8(a, c) == Xor8(b, c)
    ensures a == b
  {
  }

  lemma Step16Injective(c: Bits16, d: Bits16, b: byte)
    requires Step16(c, b) == Step16(d, b)
    ensures c == d
  {
    Shifts16Injective(XorHigh(c, b), XorHigh(d, b), 8);
    XorRight(c.hi, d.hi, OfByte(b));
  }

  /** Two registers that differ stay different over any common suffix. */
  lemma {:induction false} Fold16Injective(c: Bits16, d: Bits16, data: seq<byte>)
    requires Fold16(c, data) == Fold16(d, data)
    ensures c == d
  {
    if data != [] {
      var n := |data| - 1;
      Step16Injective(Fold16(c, data[..n]), Fold16(d, data[..n]), data[n]);
      Fold16Injective(c, d, data[..n]);
    }
  }

  lemma {:induction false} Fold16Append(c: Bits16, a: seq<byte>, b: seq<byte>)
    ensures Fold16(c, a + b) == Fold16(Fold16(c, a), b)
  {
    if b == [] {
      assert a + b == a;
    } else {
      var n := |b| - 1;
      assert (a + b)[..|a| + n] == a + b[..n];
      Fold16Append(c, a, b[..n]);
    }
  }

  lemma Fold16Pair(c: Bits16, x: byte, y: byte)
    ensures Fold16(c, [x, y]) == Step16(Step16(c, x), y)
  {
    assert [x, y][..1] == [x];
    assert [x][..0] == [];
    assert Fold16(c, [x]) == Step16(Fold16(c, []), x);
  }

  /** A change confined to two neighbouring bytes always changes the CRC-16. */
  lemma BurstChangesCrc16(u: seq<byte>, v: seq<byte>, p: seq<byte>, x: byte, y: byte, x': byte, y': byte, s: seq<byte>)
    requires u == p + [x, y] + s && v == p + [x', y'] + s
    requires Crc16(u) == Crc16(v)
    ensures x == x' && y == y'
  {
    var c := Fold16(INIT16, p);
    ToWordInjective(Fold16(INIT16, u), Fold16(INIT16, v));
    Fold16Append(INIT16, p + [x, y], s);
    Fold16Append(INIT16, p + [x', y'], s);
    Fold16Append(INIT16, p, [x, y]);
    Fold16Append(INIT16, p, [x', y']);
    Fold16Injective(Fold16(c, [x, y]), Fold16(c, [x', y']), s);
    Fold16Pair(c, x, y);
    Fold16Pair(c, x', y');
    TwoStepsInjective(c, x, y, x', y');
  }

  /**
   * Changing the last message byte leaves the high CRC byte alone exactly when the changed
   * bits are none or 0x89; in the second case the low CRC byte changes by 0xA1.
   */
  lemma LastByteBlindSpot(p: seq<byte>, x: byte, y: byte)
    ensures Hi(Crc16(p + [x])) == Hi(Crc16(p + [y])) <==>
            x == y || Xor8(OfByte(x), OfByte(y)) == BLIND
    ensures Xor8(OfByte(x), OfByte(y)) == BLIND ==>
            Xor8(OfByte(Lo(Crc16(p + [x]))), OfByte(Lo(Crc16(p + [y])))) == BLIND_LOW
  {
    var c := Fold16(INIT16, p);
    assert (p + [x])[..|p|] == p && (p + [y])[..|p|] == p;
    var u, v := Step16(c, x), Step16(c, y);
    var e := Xor8(OfByte(x), OfByte(y));
    assert Crc16(p + [x]) == ToWord(u) && Crc16(p + [y]) == ToWord(v);
    LoHiOfRegister(u);
    LoHiOfRegister(v);
    StepDifference(c, x, y);
    SpreadHighZero(e);
    XorZero(u.hi, v.hi);
    XorZero(OfByte(x), OfByte(y));
    if u.hi == v.hi && x != y && e != BLIND {
      OfByteInjective(x, y);
    }
    if ToByte(u.hi) == ToByte(v.hi) {
      ToByteInjective(u.hi, v.hi);
    }
    BitsToByteToBits(u.lo);
    BitsToByteToBits(v.lo);
  }

  // ----- CRC-8 ------------------------------------------------------------------

  /** 0xD5: bits 7, 6, 4, 2 and 0. */
  const POLY8 := ZERO8.(b0 := true, b2 := true, b4 := true, b6 := true, b7 := true)

  /** Multiplication of the register by x modulo x^8 + x^7 + x^6 + x^4 + x^2 + 1. */
  function Shift8(c: Bits8): Bits8 {
    var t := c.b7;
    Bits8(t, c.b0, c.b1 != t, c.b2, c.b3 != t, c.b4, c.b5 != t, c.b6 != t)
  }

  /** That is what one turn of the source's bit loop computes. */
  lemma Shift8IsLoopTurn(c: Bits8)
    ensures Shift8(c) == if c.b7 then Xor8(Shl8(c), POLY8) else Shl8(c)
  {
  }

  function Shifts8(c: Bits8, n: nat): Bits8 {
    if n == 0 then c else Shift8(Shifts8(c, n - 1))
  }

  function Step8(c: Bits8, b: byte): Bits8 {
    Shifts8(Xor8(c, OfByte(b)), 8)
  }

  function Fold8(c: Bits8, data: seq<byte>): Bits8 {
    if data == [] then c else Step8(Fold8(c, data[..|data| - 1]), data[|data| - 1])
  }

  /** The CRSF checksum of `data`. */
  function Crc8(data: seq<byte>): byte {
    ToByte(Fold8(ZERO8, data))
  }

  /** The bit loop of the tracker and of the telemetry tee. */
  method ComputeCrc8Bitwise(data: seq<byte>) returns (crc: byte)
    ensures crc == Crc8(data)
  {
    var c := ZERO8;
    for i := 0 to |data|
      invariant c == Fold8(ZERO8, data[..i])
    {
      ghost var before := c;
      c := EightTurns8(Xor8(c, OfByte(data[i])));
      assert data[..i + 1][..i] == data[..i];
      assert c == Step8(before, data[i]);
    }
    assert data[..|data|] == data;
    crc := ToByte(c);
  }

  method EightTurns8(c: Bits8) returns (r: Bits8)
    ensures r == Shifts8(c, 8)
  {
    r := c;
    for b := 0 to 8
      invariant r == Shifts8(c, b)
    {
      Shift8IsLoopTurn(r);
      r := if r.b7 then Xor8(Shl8(r), POLY8) else Shl8(r);
    }
  }

  function TableEntry(i: byte): byte {
    ToByte(Shifts8(OfByte(i), 8))
  }

  ghost predicate IsTablePrefix(t: seq<byte>) {
    t == [] || (|t| <= 256 && IsTablePrefix(t[..|t| - 1]) && t[|t| - 1] == TableEntry(|t| - 1))
  }

  lemma {:induction false} TablePrefixAt(t: seq<byte>, i: byte)
    requires IsTablePrefix(t) && i < |t|
    ensures t[i] == TableEntry(i)
  {
    if i < |t| - 1 {
      TablePrefixAt(t[..|t| - 1], i);
    }
  }

  lemma TheTable() returns (t: seq<byte>)
    ensures |t| == 256 && IsTablePrefix(t)
  {
    t := [];
    while |t| < 256
      invariant |t| <= 256 && IsTablePrefix(t)
      decreases 256 - |t|
    {
      var longer := t + [TableEntry(|t|)];
      assert longer[..|t|] == t;
      t := longer;
    }
  }

  method ComputeEntry(i: byte, ghost t: seq<byte>) returns (e: byte)
    requires |t| == 256 && IsTablePrefix(t)
    ensures e == t[i]
  {
    var r := EightTurns8(OfByte(i));
    e := ToByte(r);
    TablePrefixAt(t, i);
  }

  /** The RP2040's lookup table, filled in on first use. */
  class Crc8Table {
    const table: array<byte>
    var ready: bool

    ghost predicate Valid()
      reads this, table
    {
      table.Length == 256 && (ready ==> IsTablePrefix(table[..]))
    }

    constructor ()
      ensures Valid() && !ready && fresh(table)
    {
      table := new byte[256];
      ready := false;
    }

    method Init()
      requires Valid()
      modifies this, table
      ensures Valid() && ready
    {
      ghost var want := TheTable();
      for i := 0 to 256
        invariant forall k :: 0 <= k < i ==> table[k] == want[k]
      {
        var e := ComputeEntry(i, want);
        table[i] := e;
      }
      assert table[..] == want;
      ready := true;
    }

    /** One table lookup per byte gives the bitwise checksum. */
    method Compute(data: seq<byte>) returns (crc: byte)
      requires Valid()
      modifies this, table
      ensures Valid() && ready
      ensures crc == Crc8(data)
    {
      if !ready {
        Init();
      }
      crc := 0;
      ghost var c := ZERO8;
      for i := 0 to |data|
        invariant Valid() && ready
        invariant c == Fold8(ZERO8, data[..i]) && crc == ToByte(c)
      {
        var index := ToByte(Xor8(OfByte(crc), OfByte(data[i])));
        LookupIsStep(c, data[i]);
        TablePrefixAt(table[..], index);
        crc := table[index];
        assert data[..i + 1][..i] == data[..i];
        c := Step8(c, data[i]);
      }
      assert data[..|data|] == data;
    }
  }

  lemma LookupIsStep(c: Bits8, b: byte)
    ensures Xor8(OfByte(ToByte(c)), OfByte(b)) == Xor8(c, OfByte(b))
    ensures OfByte(ToByte(Xor8(c, OfByte(b)))) == Xor8(c, OfByte(b))
  {
    BitsToByteToBits(c);
    BitsToByteToBits(Xor8(c, OfByte(b)));
  }
}
