/**
 * Known answers that the repository's own tests fix (firmware/crsf/tests/test_ipc.c,
 * pi/daemon/internal/ipc/framing_test.go, pi/daemon/internal/crsftee/crsftee_test.go): they tie
 * polynomials, start values, byte orders and field orders to numbers.
 */
module Vectors {
  import opened Bytes
  import opened Bits
  import opened Crc
  import opened Cobs
  import opened Ipc

  // ----- the registers met on the way, named by their hexadecimal value --------------------

  const RFFFF := Bits16(Bits8(true, true, true, true, true, true, true, true),
                         Bits8(true, true, true, true, true, true, true, true))
  const RCEFF := Bits16(Bits8(true, true, true, true, true, true, true, true),
                         Bits8(false, true, true, true, false, false, true, true))
  const RC782 := Bits16(Bits8(false, true, false, false, false, false, false, true),
                         Bits8(true, true, true, false, false, false, true, true))
  const RF582 := Bits16(Bits8(false, true, false, false, false, false, false, true),
                         Bits8(true, false, true, false, true, true, true, true))
  const R3DBA := Bits16(Bits8(false, true, false, true, true, true, false, true),
                         Bits8(true, false, true, true, true, true, false, false))
  const R0EBA := Bits16(Bits8(false, true, false, true, true, true, false, true),
                         Bits8(false, true, true, true, false, false, false, false))
  const R5BCE := Bits16(Bits8(false, true, true, true, false, false, true, true),
                         Bits8(true, true, false, true, true, false, true, false))
  const R6FCE := Bits16(Bits8(false, true, true, true, false, false, true, true),
                         Bits8(true, true, true, true, false, true, true, false))
  const R5349 := Bits16(Bits8(true, false, false, true, false, false, true, false),
                         Bits8(true, true, false, false, true, false, true, false))
  const R6649 := Bits16(Bits8(true, false, false, true, false, false, true, false),
                         Bits8(false, true, true, false, false, true, true, false))
  const R4560 := Bits16(Bits8(false, false, false, false, false, true, true, false),
                         Bits8(true, false, true, false, false, false, true, false))
  const R7360 := Bits16(Bits8(false, false, false, false, false, true, true, false),
                         Bits8(true, true, false, false, true, true, true, false))
  const R2EF4 := Bits16(Bits8(false, false, true, false, true, true, true, true),
                         Bits8(false, true, true, true, false, true, false, false))
  const R19F4 := Bits16(Bits8(false, false, true, false, true, true, true, true),
                         Bits8(true, false, false, true, true, false, false, false))
  const R7718 := Bits16(Bits8(false, false, false, true, true, false, false, false),
                         Bits8(true, true, true, false, true, true, true, false))
  const R4F18 := Bits16(Bits8(false, false, false, true, true, false, false, false),
                         Bits8(true, true, true, true, false, false, true, false))
  const RA12B := Bits16(Bits8(true, true, false, true, false, true, false, false),
                         Bits8(true, false, false, false, false, true, false, true))
  const R982B := Bits16(Bits8(true, true, false, true, false, true, false, false),
                         Bits8(false, false, false, true, true, false, false, true))
  const R29B1 := Bits16(Bits8(true, false, false, false, true, true, false, true),
                         Bits8(true, false, false, true, false, true, false, false))
  const RFCFF := Bits16(Bits8(true, true, true, true, true, true, true, true),
                         Bits8(false, false, true, true, true, true, true, true))
  const RD193 := Bits16(Bits8(true, true, false, false, true, false, false, true),
                         Bits8(true, false, false, false, true, false, true, true))
  const RFB93 := Bits16(Bits8(true, true, false, false, true, false, false, true),
                         Bits8(true, true, false, true, true, true, true, true))
  const RCD74 := Bits16(Bits8(false, false, true, false, true, true, true, false),
                         Bits8(true, false, true, true, false, false, true, true))
  const RCC74 := Bits16(Bits8(false, false, true, false, true, true, true, false),
                         Bits8(false, false, true, true, false, false, true, true))
  const R6CC0 := Bits16(Bits8(false, false, false, false, false, false, true, true),
                         Bits8(false, false, true, true, false, true, true, false))
  const R6D2A := Bits16(Bits8(false, true, false, true, false, true, false, false),
                         Bits8(true, false, true, true, false, true, true, false))
  const R2F2A := Bits16(Bits8(false, true, false, true, false, true, false, false),
                         Bits8(true, true, true, true, false, true, false, false))
  const RFF8D := Bits16(Bits8(true, false, true, true, false, false, false, true),
                         Bits8(true, true, true, true, true, true, true, true))

  lemma EightShifts(c: Bits16)
    ensures Shifts16(c, 8) == Shift16(Shift16(Shift16(Shift16(Shift16(Shift16(Shift16(Shift16(c))))))))
  {
    assert Shifts16(c, 1) == Shift16(c);
    assert Shifts16(c, 2) == Shift16(Shifts16(c, 1));
    assert Shifts16(c, 3) == Shift16(Shifts16(c, 2));
    assert Shifts16(c, 4) == Shift16(Shifts16(c, 3));
    assert Shifts16(c, 5) == Shift16(Shifts16(c, 4));
    assert Shifts16(c, 6) == Shift16(Shifts16(c, 5));
    assert Shifts16(c, 7) == Shift16(Shifts16(c, 6));
  }

  lemma Start()
    ensures Fold16(INIT16, []) == RFFFF
  {
  }

  lemma Packs()
    ensures ToWord(R29B1) == 0x29B1 && ToWord(RFF8D) == 0xFF8D
  {
  }

  /** One more byte of a message whose register is known, by its two halves. */
  lemma Next(data: seq<byte>, c: Bits16, b: byte, x: Bits16, d: Bits16)
    requires Fold16(INIT16, data) == c && XorHigh(c, b) == x && Shifts16(x, 8) == d
    ensures Fold16(INIT16, data + [b]) == d
  {
    assert (data + [b])[..|data|] == data;
  }

  lemma Byte00()
    ensures OfByte(0x00) == Bits8(false, false, false, false, false, false, false, false)
  {
  }

  lemma Byte01()
    ensures OfByte(0x01) == Bits8(true, false, false, false, false, false, false, false)
  {
  }

  lemma Byte03()
    ensures OfByte(0x03) == Bits8(true, true, false, false, false, false, false, false)
  {
  }

  lemma Byte2A()
    ensures OfByte(0x2A) == Bits8(false, true, false, true, false, true, false, false)
  {
  }

  lemma Byte31()
    ensures OfByte(0x31) == Bits8(true, false, false, false, true, true, false, false)
  {
  }

  lemma Byte32()
    ensures OfByte(0x32) == Bits8(false, true, false, false, true, true, false, false)
  {
  }

  lemma Byte33()
    ensures OfByte(0x33) == Bits8(true, true, false, false, true, true, false, false)
  {
  }

  lemma Byte34()
    ensures OfByte(0x34) == Bits8(false, false, true, false, true, true, false, false)
  {
  }

  lemma Byte35()
    ensures OfByte(0x35) == Bits8(true, false, true, false, true, true, false, false)
  {
  }

  lemma Byte36()
    ensures OfByte(0x36) == Bits8(false, true, true, false, true, true, false, false)
  {
  }

  lemma Byte37()
    ensures OfByte(0x37) == Bits8(true, true, true, false, true, true, false, false)
  {
  }

  lemma Byte38()
    ensures OfByte(0x38) == Bits8(false, false, false, true, true, true, false, false)
  {
  }

  lemma Byte39()
    ensures OfByte(0x39) == Bits8(true, false, false, true, true, true, false, false)
  {
  }

  lemma Byte42()
    ensures OfByte(0x42) == Bits8(false, true, false, false, false, false, true, false)
  {
  }

  lemma ToC782()
    ensures XorHigh(RFFFF, 0x31) == RCEFF && Shifts16(RCEFF, 8) == RC782
  {
    hide OfByte;
    Byte31();
    EightShifts(RCEFF);
  }

  lemma To3DBA()
    ensures XorHigh(RC782, 0x32) == RF582 && Shifts16(RF582, 8) == R3DBA
  {
    hide OfByte;
    Byte32();
    EightShifts(RF582);
  }

  lemma To5BCE()
    ensures XorHigh(R3DBA, 0x33) == R0EBA && Shifts16(R0EBA, 8) == R5BCE
  {
    hide OfByte;
    Byte33();
    EightShifts(R0EBA);
  }

  lemma To5349()
    ensures XorHigh(R5BCE, 0x34) == R6FCE && Shifts16(R6FCE, 8) == R5349
  {
    hide OfByte;
    Byte34();
    EightShifts(R6FCE);
  }

  lemma To4560()
    ensures XorHigh(R5349, 0x35) == R6649 && Shifts16(R6649, 8) == R4560
  {
    hide OfByte;
    Byte35();
    EightShifts(R6649);
  }

  lemma To2EF4()
    ensures XorHigh(R4560, 0x36) == R7360 && Shifts16(R7360, 8) == R2EF4
  {
    hide OfByte;
    Byte36();
    EightShifts(R7360);
  }

  lemma To7718()
    ensures XorHigh(R2EF4, 0x37) == R19F4 && Shifts16(R19F4, 8) == R7718
  {
    hide OfByte;
    Byte37();
    EightShifts(R19F4);
  }

  lemma ToA12B()
    ensures XorHigh(R7718, 0x38) == R4F18 && Shifts16(R4F18, 8) == RA12B
  {
    hide OfByte;
    Byte38();
    EightShifts(R4F18);
  }

  lemma To29B1()
    ensures XorHigh(RA12B, 0x39) == R982B && Shifts16(R982B, 8) == R29B1
  {
    hide OfByte;
    Byte39();
    EightShifts(R982B);
  }

  lemma ToD193()
    ensures XorHigh(RFFFF, 0x03) == RFCFF && Shifts16(RFCFF, 8) == RD193
  {
    hide OfByte;
    Byte03();
    EightShifts(RFCFF);
  }

  lemma ToCD74()
    ensures XorHigh(RD193, 0x2A) == RFB93 && Shifts16(RFB93, 8) == RCD74
  {
    hide OfByte;
    Byte2A();
    EightShifts(RFB93);
  }

  lemma To6CC0()
    ensures XorHigh(RCD74, 0x01) == RCC74 && Shifts16(RCC74, 8) == R6CC0
  {
    hide OfByte;
    Byte01();
    EightShifts(RCC74);
  }

  lemma To6D2A()
    ensures XorHigh(R6CC0, 0x00) == R6CC0 && Shifts16(R6CC0, 8) == R6D2A
  {
    hide OfByte;
    Byte00();
    EightShifts(R6CC0);
  }

  lemma ToFF8D()
    ensures XorHigh(R6D2A, 0x42) == R2F2A && Shifts16(R2F2A, 8) == RFF8D
  {
    hide OfByte;
    Byte42();
    EightShifts(R2F2A);
  }

  /** The check value of CRC-16/CCITT-FALSE: "123456789" in ASCII gives 0x29B1. */
  lemma Crc16CheckValue()
    ensures Crc16([0x31, 0x32, 0x33, 0x34, 0x35, 0x36, 0x37, 0x38, 0x39]) == 0x29B1
  {
    Start();
    Packs();
    hide Fold16, XorHigh, Shifts16, ToWord;
    ToC782();
    Next([], RFFFF, 0x31, RCEFF, RC782);
    assert [] + [0x31] ==
           [0x31];
    To3DBA();
    Next([0x31], RC782, 0x32, RF582, R3DBA);
    assert [0x31] + [0x32] ==
           [0x31, 0x32];
    To5BCE();
    Next([0x31, 0x32], R3DBA, 0x33, R0EBA, R5BCE);
    assert [0x31, 0x32] + [0x33] ==
           [0x31, 0x32, 0x33];
    To5349();
    Next([0x31, 0x32, 0x33], R5BCE, 0x34, R6FCE, R5349);
    assert [0x31, 0x32, 0x33] + [0x34] ==
           [0x31, 0x32, 0x33, 0x34];
    To4560();
    Next([0x31, 0x32, 0x33, 0x34], R5349, 0x35, R6649, R4560);
    assert [0x31, 0x32, 0x33, 0x34] + [0x35] ==
           [0x31, 0x32, 0x33, 0x34, 0x35];
    To2EF4();
    Next([0x31, 0x32, 0x33, 0x34, 0x35], R4560, 0x36, R7360, R2EF4);
    assert [0x31, 0x32, 0x33, 0x34, 0x35] + [0x36] ==
           [0x31, 0x32, 0x33, 0x34, 0x35, 0x36];
    To7718();
    Next([0x31, 0x32, 0x33, 0x34, 0x35, 0x36], R2EF4, 0x37, R19F4, R7718);
    assert [0x31, 0x32, 0x33, 0x34, 0x35, 0x36] + [0x37] ==
           [0x31, 0x32, 0x33, 0x34, 0x35, 0x36, 0x37];
    ToA12B();
    Next([0x31, 0x32, 0x33, 0x34, 0x35, 0x36, 0x37], R7718, 0x38, R4F18, RA12B);
    assert [0x31, 0x32, 0x33, 0x34, 0x35, 0x36, 0x37] + [0x38] ==
           [0x31, 0x32, 0x33, 0x34, 0x35, 0x36, 0x37, 0x38];
    To29B1();
    Next([0x31, 0x32, 0x33, 0x34, 0x35, 0x36, 0x37, 0x38], RA12B, 0x39, R982B, R29B1);
    assert [0x31, 0x32, 0x33, 0x34, 0x35, 0x36, 0x37, 0x38] + [0x39] ==
           [0x31, 0x32, 0x33, 0x34, 0x35, 0x36, 0x37, 0x38, 0x39];
  }

  lemma HeartbeatChecksum()
    ensures Crc16([0x03, 0x2A, 0x01, 0x00, 0x42]) == 0xFF8D
  {
    Start();
    Packs();
    hide Fold16, XorHigh, Shifts16, ToWord;
    ToD193();
    Next([], RFFFF, 0x03, RFCFF, RD193);
    assert [] + [0x03] ==
           [0x03];
    ToCD74();
    Next([0x03], RD193, 0x2A, RFB93, RCD74);
    assert [0x03] + [0x2A] ==
           [0x03, 0x2A];
    To6CC0();
    Next([0x03, 0x2A], RCD74, 0x01, RCC74, R6CC0);
    assert [0x03, 0x2A] + [0x01] ==
           [0x03, 0x2A, 0x01];
    To6D2A();
    Next([0x03, 0x2A, 0x01], R6CC0, 0x00, R6CC0, R6D2A);
    assert [0x03, 0x2A, 0x01] + [0x00] ==
           [0x03, 0x2A, 0x01, 0x00];
    ToFF8D();
    Next([0x03, 0x2A, 0x01, 0x00], R6D2A, 0x42, R2F2A, RFF8D);
    assert [0x03, 0x2A, 0x01, 0x00] + [0x42] ==
           [0x03, 0x2A, 0x01, 0x00, 0x42];
  }

  /** The wire bytes of heartbeat 42 with payload 0x42, as C and Go encoders both have to give them. */
  lemma HeartbeatVector()
    ensures Wire(Frame(0x03, 42, [0x42])) == [0x04, 0x03, 0x2A, 0x01, 0x04, 0x42, 0x8D, 0xFF, 0x00]
  {
    hide Crc16;
    var f := Frame(0x03, 42, [0x42]);
    assert Body(f) == [0x03, 0x2A, 0x01, 0x00, 0x42];
    HeartbeatChecksum();
    var run: seq<byte>, rest: seq<byte> := [0x03, 0x2A, 0x01], [0x42, 0x8D, 0xFF];
    assert Raw(f) == run + [0] + rest;
    EncodeRun(run, rest);
    CollectFrom(rest, []);
    assert rest + [] == rest;
  }

  // ----- the checksum of CRSF frames ------------------------------------------------------

  lemma EightShifts8(c: Bits8)
    ensures Shifts8(c, 8) == Shift8(Shift8(Shift8(Shift8(Shift8(Shift8(Shift8(Shift8(c))))))))
  {
    assert Shifts8(c, 1) == Shift8(c);
    assert Shifts8(c, 2) == Shift8(Shifts8(c, 1));
    assert Shifts8(c, 3) == Shift8(Shifts8(c, 2));
    assert Shifts8(c, 4) == Shift8(Shifts8(c, 3));
    assert Shifts8(c, 5) == Shift8(Shifts8(c, 4));
    assert Shifts8(c, 6) == Shift8(Shifts8(c, 5));
    assert Shifts8(c, 7) == Shift8(Shifts8(c, 6));
  }

  lemma OneByte8(b: byte, x: Bits8)
    requires OfByte(b) == x
    ensures Crc8([b]) == ToByte(Shifts8(x, 8))
  {
    var d := [b];
    assert d[..|d| - 1] == [] && Fold8(ZERO8, d) == Step8(ZERO8, b);
    XorNothing(x);
  }

  lemma XorNothing(x: Bits8)
    ensures Xor8(ZERO8, x) == x
  {
  }

  /** The values of the tee's own test: nothing, 0x00, 0xFF and 0x14. */
  lemma Crc8KnownValues()
    ensures Crc8([]) == 0x00 && Crc8([0x00]) == 0x00 && Crc8([0xFF]) == 0xF9 && Crc8([0x14]) == 0xAC
  {
    OneByte8(0x00, ZERO8);
    EightShifts8(ZERO8);
    OneByte8(0xFF, ONES8);
    EightShifts8(ONES8);
    var x14 := Bits8(false, false, true, false, true, false, false, false);
    OneByte8(0x14, x14);
    EightShifts8(x14);
  }
}

