/** Packing of sixteen 11-bit channels into a CRSF RC frame (firmware/crsf/src/crsf.c). */
module CrsfPack {
  import opened Bytes
  import opened Crc
  import opened CrsfRx

  const TYPE_RC: byte := 0x16

  // ----- little-endian numbers --------------------------------------------------------

  function Pow2(n: nat): (p: nat)
    ensures p > 0
  {
    if n == 0 then 1 else 2 * Pow2(n - 1)
  }

  /** The number a byte string spells, least significant byte first. */
  function LittleEndian(s: seq<byte>): nat {
    if s == [] then 0 else s[0] + 256 * LittleEndian(s[1..])
  }

  /** The `len` low bytes of `n`. */
  function ToBytes(n: nat, len: nat): (s: seq<byte>)
    ensures |s| == len
  {
    if len == 0 then [] else [n % 256] + ToBytes(n / 256, len - 1)
  }

  lemma {:induction false} ToBytesOfNumber(s: seq<byte>)
    ensures ToBytes(LittleEndian(s), |s|) == s
  {
    if s != [] {
      ToBytesOfNumber(s[1..]);
      HeadAndTail(s[0], LittleEndian(s[1..]));
    }
  }

  lemma HeadAndTail(b: byte, n: nat)
    ensures (b + 256 * n) % 256 == b && (b + 256 * n) / 256 == n
  {
  }

  lemma {:induction false} Pow2Add(m: nat, n: nat)
    ensures Pow2(m + n) == Pow2(m) * Pow2(n)
  {
    if n != 0 {
      Pow2Add(m, n - 1);
    }
  }

  lemma Pow2Byte(n: nat)
    ensures Pow2(n + 8) == 256 * Pow2(n)
  {
    Pow2Add(n, 8);
  }

  /** Adding `d` to byte k adds d * 256^k to the number. */
  lemma {:induction false} AddToByte(s: seq<byte>, k: nat, d: nat)
    requires k < |s| && s[k] + d < 256
    ensures LittleEndian(s[k := s[k] + d]) == LittleEndian(s) + d * Pow2(8 * k)
  {
    var t := s[k := s[k] + d];
    if k == 0 {
      assert t[1..] == s[1..];
    } else {
      assert t[1..] == s[1..][k - 1 := s[1..][k - 1] + d];
      AddToByte(s[1..], k - 1, d);
      Pow2Byte(8 * (k - 1));
      Distribute(s[0], LittleEndian(s[1..]), d, Pow2(8 * (k - 1)));
    }
  }

  lemma Distribute(a: int, b: int, d: int, p: int)
    ensures a + 256 * (b + d * p) == a + 256 * b + d * (256 * p)
  {
  }

  lemma {:induction false} LittleEndianZero(s: seq<byte>)
    requires forall k :: 0 <= k < |s| ==> s[k] == 0
    ensures LittleEndian(s) == 0
  {
    if s != [] {
      LittleEndianZero(s[1..]);
    }
  }

  // ----- what the 22 payload bytes must spell -----------------------------------------

  /** ch & 0x07FF */
  function Mask(ch: word): nat { ch % 2048 }

  /** The first n channels, 11 bits each. */
  function ChannelSum(ch: seq<word>, n: nat): nat
    requires n <= |ch|
  {
    if n == 0 then 0 else ChannelSum(ch, n - 1) + Mask(ch[n - 1]) * Pow2(11 * (n - 1))
  }

  function Packed(ch: seq<word>): seq<byte>
    requires |ch| == 16
  {
    ToBytes(ChannelSum(ch, 16), 22)
  }

  /** Channel i, read back out of the packed bytes. */
  function Unpack(bytes: seq<byte>, i: nat): nat {
    LittleEndian(bytes) / Pow2(11 * i) % 2048
  }

  lemma {:induction false} ChannelSumBound(ch: seq<word>, n: nat)
    requires n <= |ch|
    ensures ChannelSum(ch, n) < Pow2(11 * n)
  {
    if n != 0 {
      ChannelSumBound(ch, n - 1);
      Pow2Add(11 * (n - 1), 11);
      TopDigit(Mask(ch[n - 1]), Pow2(11 * (n - 1)));
    }
  }

  lemma TopDigit(v: nat, p: nat)
    requires v < 2048
    ensures p + v * p <= p * 2048
  {
    assert p + v * p == (v + 1) * p;
    assert (v + 1) * p <= 2048 * p;
  }

  /** Channels i.. n-1, as the number they form above bit 11 * i. */
  function Upper(ch: seq<word>, i: nat, n: nat): nat
    requires i <= n <= |ch|
    decreases n - i
  {
    if i == n then 0 else Mask(ch[i]) + 2048 * Upper(ch, i + 1, n)
  }

  lemma {:induction false} SumSplits(ch: seq<word>, i: nat, n: nat)
    requires i <= n <= |ch|
    ensures ChannelSum(ch, n) == ChannelSum(ch, i) + Pow2(11 * i) * Upper(ch, i, n)
    decreases n - i
  {
    if i < n {
      SumSplits(ch, i + 1, n);
      Pow2Add(11 * i, 11);
      assert Pow2(11 * (i + 1)) == Pow2(11 * i) * 2048;
      NextDigit(Pow2(11 * i), Mask(ch[i]), Upper(ch, i + 1, n));
    }
  }

  lemma NextDigit(p: nat, v: nat, u: nat)
    ensures v * p + p * 2048 * u == p * (v + 2048 * u)
  {
    assert p * 2048 * u == p * (2048 * u);
    assert p * (v + 2048 * u) == p * v + p * (2048 * u);
  }

  lemma DivideOut(a: nat, p: nat, q: nat)
    requires a < p
    ensures (a + p * q) / p == q
  {
    var d, r := (a + p * q) / p, (a + p * q) % p;
    assert p * d + r == a + p * q;
    Scale(p, d + 1, q);
    Scale(p, q + 1, d);
    assert p * (d + 1) == p * d + p;
    assert p * (q + 1) == p * q + p;
  }

  lemma Scale(p: nat, x: nat, y: nat)
    ensures x <= y ==> p * x <= p * y
  {
    if x <= y {
      assert p * y == p * x + p * (y - x);
    }
  }

  /** Unpacking returns every channel, masked to 11 bits. */
  lemma UnpackPacked(ch: seq<word>, i: nat)
    requires |ch| == 16 && i < 16
    ensures Unpack(Packed(ch), i) == Mask(ch[i])
  {
    PackedValue(ch);
    ChannelOfSum(ch, i, 16);
  }

  lemma ChannelOfSum(ch: seq<word>, i: nat, n: nat)
    requires i < n <= |ch|
    ensures ChannelSum(ch, n) / Pow2(11 * i) % 2048 == Mask(ch[i])
  {
    SumSplits(ch, i, n);
    ChannelSumBound(ch, i);
    DivideOut(ChannelSum(ch, i), Pow2(11 * i), Upper(ch, i, n));
    LowDigit(Mask(ch[i]), Upper(ch, i + 1, n));
  }

  lemma LowDigit(v: nat, u: nat)
    requires v < 2048
    ensures (v + 2048 * u) % 2048 == v
  {
  }

  /** 22 bytes are exactly enough: nothing is cut off. */
  lemma PackedValue(ch: seq<word>)
    requires |ch| == 16
    ensures LittleEndian(Packed(ch)) == ChannelSum(ch, 16)
  {
    ChannelSumBound(ch, 16);
    NumberOfToBytes(ChannelSum(ch, 16), 22);
  }

  lemma {:induction false} NumberOfToBytes(n: nat, len: nat)
    requires n < Pow2(8 * len)
    ensures LittleEndian(ToBytes(n, len)) == n
  {
    if len != 0 {
      Pow2Byte(8 * (len - 1));
      NumberOfToBytes(n / 256, len - 1);
      assert ToBytes(n, len)[1..] == ToBytes(n / 256, len - 1);
    }
  }

  // ----- the packing loop -----------------------------------------------------------------

  /** Bitwise or. */
  function BitOr(a: nat, b: nat): nat {
    if a == 0 then b else if b == 0 then a
    else (if a % 2 == 1 || b % 2 == 1 then 1 else 0) + 2 * BitOr(a / 2, b / 2)
  }

  /** Below bit n and from bit n on, or is addition. */
  lemma {:induction false} OrIsSum(a: nat, m: nat, n: nat)
    requires a < Pow2(n)
    ensures BitOr(a, m * Pow2(n)) == a + m * Pow2(n)
  {
    if a != 0 && m != 0 {
      var p := Pow2(n - 1);
      Halve(m, p);
      OrIsSum(a / 2, m, n - 1);
    }
  }

  lemma Halve(m: nat, p: nat)
    ensures m * (2 * p) % 2 == 0 && m * (2 * p) / 2 == m * p && m * (2 * p) == 2 * (m * p)
  {
    assert m * (2 * p) == 2 * (m * p);
  }

  /** A shifted channel value cut into the three bytes it touches. */
  lemma ThreeBytes(v: nat, p: nat, q: nat)
    requires v < 2048 && q > 0 && p * q == 256
    ensures v * p % 256 == v % q * p
    ensures v * p == v % q * p + 256 * (v / q)
    ensures v / q == v / q % 256 + 256 * (v / q / 256)
  {
    assert v == v % q + q * (v / q);
    assert v * p == v % q * p + q * (v / q) * p;
    assert q * (v / q) * p == p * q * (v / q);
    assert v % q * p < 256 by {
      assert (v % q + 1) * p <= q * p;
    }
  }

  lemma {:induction false} ByteBelow(s: seq<byte>, k: nat, c: nat)
    requires k < |s| && LittleEndian(s) < c * Pow2(8 * k)
    ensures s[k] < c
  {
    if k != 0 {
      Pow2Byte(8 * (k - 1));
      assert c * (256 * Pow2(8 * (k - 1))) == 256 * (c * Pow2(8 * (k - 1)));
      ByteBelow(s[1..], k - 1, c);
    } else {
      assert Pow2(8 * k) == 1;
    }
  }

  /** v << shift, v >> (8 - shift) and v >> (16 - shift), each cut to a byte, lose no bit of v. */
  method ChannelBytes(v: nat, shift: nat) returns (lo: byte, mid: byte, hi: byte, ghost m: nat)
    requires v < 2048 && shift < 8
    ensures v * Pow2(shift) == lo + 256 * mid + 65536 * hi
    ensures lo == m * Pow2(shift) && m < Pow2(8 - shift)
    ensures shift <= 5 ==> hi == 0
  {
    lo := v * Pow2(shift) % 256;
    mid := v / Pow2(8 - shift) % 256;
    hi := v / Pow2(16 - shift) % 256;
    m := v % Pow2(8 - shift);
    Complement(shift);
    ThreeBytes(v, Pow2(shift), Pow2(8 - shift));
    Pow2Byte(8 - shift);
    DivDiv(v, Pow2(8 - shift));
    HighSmall(v, shift);
  }

  lemma Complement(shift: nat)
    requires shift < 8
    ensures Pow2(shift) * Pow2(8 - shift) == 256
  {
    Pow2Add(shift, 8 - shift);
    assert Pow2(8) == 256;
  }

  lemma DivDiv(v: nat, q: nat)
    requires q > 0
    ensures v / (256 * q) == v / q / 256
  {
    var a, r := v / q, v % q;
    var b, t := a / 256, a % 256;
    TwoDigits(v, q, a, r, b, t);
    DivideOut(q * t + r, 256 * q, b);
  }

  lemma TwoDigits(v: nat, q: nat, a: nat, r: nat, b: nat, t: nat)
    requires v == q * a + r && r < q && a == 256 * b + t && t < 256
    ensures v == q * t + r + 256 * q * b && q * t + r < 256 * q
  {
    assert q * (256 * b + t) == 256 * q * b + q * t;
    Scale(q, t + 1, 256);
    assert q * (t + 1) == q * t + q;
  }

  lemma HighSmall(v: nat, shift: nat)
    requires v < 2048 && shift < 8
    ensures v / Pow2(16 - shift) < 256
    ensures shift <= 5 ==> v / Pow2(16 - shift) == 0
  {
    Pow2Add(9, 7 - shift);
    assert Pow2(9) == 512;
    Scale(512, 1, Pow2(7 - shift));
    BigDivisor(v, Pow2(16 - shift));
    if shift <= 5 {
      Pow2Add(11, 5 - shift);
      assert Pow2(11) == 2048;
      Scale(2048, 1, Pow2(5 - shift));
    }
  }

  lemma BigDivisor(v: nat, d: nat)
    requires v < 2048 && d >= 512
    ensures v / d < 256 && (d >= 2048 ==> v / d == 0)
  {
    var q := v / d;
    assert d * q <= v;
    Scale(512, 0, q);
    if q >= 4 {
      Scale(d, 4, q);
    }
    if d >= 2048 && q >= 1 {
      Scale(d, 1, q);
    }
  }

  /** The first write of a turn meets only clear bits, the others only clear bytes. */
  lemma PackPlaces(s: seq<byte>, k: nat, shift: nat, m: nat)
    requires k + 1 < |s| && shift < 8 && m < Pow2(8 - shift) && LittleEndian(s) < Pow2(8 * k + shift)
    ensures s[k] + m * Pow2(shift) < 256 && BitOr(s[k], m * Pow2(shift)) == s[k] + m * Pow2(shift)
    ensures s[k + 1] == 0 && (k + 2 < |s| ==> s[k + 2] == 0)
  {
    FirstByte(s, k, shift);
    Complement(shift);
    RoomFor(s[k], m, Pow2(shift), Pow2(8 - shift));
    OrIsSum(s[k], m, shift);
    UpperByteZero(s, k + 1, 8 * k + shift);
    if k + 2 < |s| {
      UpperByteZero(s, k + 2, 8 * k + shift);
    }
  }

  lemma FirstByte(s: seq<byte>, k: nat, shift: nat)
    requires k < |s| && LittleEndian(s) < Pow2(8 * k + shift)
    ensures s[k] < Pow2(shift)
  {
    Pow2Add(shift, 8 * k);
    ByteBelow(s, k, Pow2(shift));
  }

  lemma RoomFor(x: nat, r: nat, p: nat, q: nat)
    requires x < p && r < q && p * q == 256
    ensures x + r * p < 256
  {
    Scale(p, r + 1, q);
    assert p * (r + 1) == r * p + p;
  }

  lemma ThreeWrites(s: seq<byte>, k: nat, lo: byte, mid: byte, hi: byte, third: bool)
    requires k + 1 < |s| && (third ==> k + 2 < |s| && s[k + 2] == 0) && (!third ==> hi == 0)
    requires s[k] + lo < 256 && s[k + 1] == 0
    ensures LittleEndian(Writes(s, k, s[k] + lo, mid, hi, third)) ==
            LittleEndian(s) + lo * Pow2(8 * k) + mid * Pow2(8 * (k + 1)) + hi * Pow2(8 * (k + 2))
  {
    var s1 := s[k := s[k] + lo];
    AddToByte(s, k, lo);
    AddToByte(s1, k + 1, mid);
    if third {
      AddToByte(s1[k + 1 := mid], k + 2, hi);
    } else {
      assert hi * Pow2(8 * (k + 2)) == 0;
    }
  }

  lemma Weigh(v: nat, lo: nat, mid: nat, hi: nat, k: nat, shift: nat)
    requires v * Pow2(shift) == lo + 256 * mid + 65536 * hi
    ensures v * Pow2(8 * k + shift) == lo * Pow2(8 * k) + mid * Pow2(8 * (k + 1)) + hi * Pow2(8 * (k + 2))
  {
    Pow2Add(8 * k, shift);
    Pow2Byte(8 * k);
    Pow2Byte(8 * k + 8);
    WeighNumbers(v, Pow2(shift), Pow2(8 * k), lo, mid, hi);
  }

  lemma WeighNumbers(v: nat, p: nat, b: nat, lo: nat, mid: nat, hi: nat)
    requires v * p == lo + 256 * mid + 65536 * hi
    ensures v * (b * p) == lo * b + mid * (256 * b) + hi * (65536 * b)
  {
    assert v * (b * p) == v * p * b;
    assert (lo + 256 * mid + 65536 * hi) * b == lo * b + 256 * mid * b + 65536 * hi * b;
    assert mid * (256 * b) == 256 * mid * b;
    assert hi * (65536 * b) == 65536 * hi * b;
  }

  lemma UpperByteZero(s: seq<byte>, k: nat, bits: nat)
    requires k < |s| && bits <= 8 * k && LittleEndian(s) < Pow2(bits)
    ensures s[k] == 0
  {
    Pow2Add(bits, 8 * k - bits);
    Scale(Pow2(bits), 1, Pow2(8 * k - bits));
    ByteBelow(s, k, 1);
  }

  /** Up to three neighbouring bytes overwritten. */
  function Writes(s: seq<byte>, k: nat, lo: byte, mid: byte, hi: byte, third: bool): seq<byte>
    requires k + 1 < |s| && (third ==> k + 2 < |s|)
  {
    var t := s[k := lo][k + 1 := mid];
    if third then t[k + 2 := hi] else t
  }

  /** The body of pack11's loop: channel value `v` goes in at bit 11 * i. */
  method PackOne(out: array<byte>, i: nat, v: nat)
    requires out.Length == 22 && i < 16 && v < 2048 && LittleEndian(out[..]) < Pow2(11 * i)
    modifies out
    ensures LittleEndian(out[..]) == old(LittleEndian(out[..])) + v * Pow2(11 * i)
  {
    var k, shift := 11 * i / 8, 11 * i % 8;
    assert 8 * k + shift == 11 * i;
    var lo, mid, hi, m := ChannelBytes(v, shift);
    Placed(out[..], k, shift, v, lo, mid, hi, m);
    OrThree(out, k, lo, mid, hi, shift > 5);
  }

  /** What the three writes of a turn add up to. */
  lemma Placed(s: seq<byte>, k: nat, shift: nat, v: nat, lo: byte, mid: byte, hi: byte, m: nat)
    requires |s| == 22 && shift < 8 && k + 1 < 22 && (shift > 5 ==> k + 2 < 22)
    requires LittleEndian(s) < Pow2(8 * k + shift)
    requires v * Pow2(shift) == lo + 256 * mid + 65536 * hi
    requires lo == m * Pow2(shift) && m < Pow2(8 - shift) && (shift <= 5 ==> hi == 0)
    ensures BitOr(s[k], lo) == s[k] + lo < 256 && s[k + 1] == 0 && (k + 2 < 22 ==> s[k + 2] == 0)
    ensures LittleEndian(Writes(s, k, s[k] + lo, mid, hi, shift > 5)) ==
            LittleEndian(s) + v * Pow2(8 * k + shift)
  {
    PackPlaces(s, k, shift, m);
    ThreeWrites(s, k, lo, mid, hi, shift > 5);
    Weigh(v, lo, mid, hi, k, shift);
  }

  method OrThree(out: array<byte>, k: nat, lo: byte, mid: byte, hi: byte, third: bool)
    requires k + 1 < out.Length && (third ==> k + 2 < out.Length && out[k + 2] == 0)
    requires BitOr(out[k], lo) == out[k] + lo < 256 && out[k + 1] == 0
    modifies out
    ensures out[..] == Writes(old(out[..]), k, old(out[k]) + lo, mid, hi, third)
  {
    OrInto(out, k, lo);
    OrInto(out, k + 1, mid);
    if third {
      OrInto(out, k + 2, hi);
    }
  }

  /** out[k] |= b, where no bit is lost. */
  method OrInto(out: array<byte>, k: nat, b: byte)
    requires k < out.Length && BitOr(out[k], b) == out[k] + b < 256
    modifies out
    ensures out[..] == old(out[..])[k := old(out[k]) + b]
  {
    out[k] := BitOr(out[k], b);
  }

  /** pack11: every write stays inside the 22 bytes. */
  method Pack11(ch: seq<word>, out: array<byte>)
    requires |ch| == 16 && out.Length == 22
    modifies out
    ensures LittleEndian(out[..]) == ChannelSum(ch, 16)
    ensures out[..] == Packed(ch)
  {
    for j := 0 to 22
      invariant forall k :: 0 <= k < j ==> out[k] == 0
    {
      out[j] := 0;
    }
    LittleEndianZero(out[..]);
    for i := 0 to 16
      invariant LittleEndian(out[..]) == ChannelSum(ch, i)
    {
      var v := ch[i] % 2048;
      ChannelSumBound(ch, i);
      PackOne(out, i, v);
    }
    ToBytesOfNumber(out[..]);
  }

  /** The RC_CHANNELS_PACKED frame: address, length 24, type, payload, checksum. */
  function RcFrame(ch: seq<word>): seq<byte>
    requires |ch| == 16
  {
    Sealed([TYPE_RC] + Packed(ch))
  }

  /** A frame around type and payload, addressed to the flight controller. */
  function Sealed(covered: seq<byte>): seq<byte> {
    [ADDR_FC, (|covered| + 1) % 256] + covered + [Crc8(covered)]
  }

  lemma RcPayload(ch: seq<word>)
    requires |ch| == 16
    ensures |RcFrame(ch)| == 26 && RcFrame(ch)[3..25] == Packed(ch)
  {
  }

  /** crsf_pack_rc */
  method PackRc(ch: seq<word>, crc8: Crc8Table, out: array<byte>)
    requires |ch| == 16 && out.Length == 26 && crc8.Valid() && out != crc8.table
    modifies out, crc8, crc8.table
    ensures crc8.Valid()
    ensures out[..] == RcFrame(ch)
  {
    var payload := new byte[22];
    Pack11(ch, payload);
    FillHead(out, payload[..]);
    ghost var covered := [TYPE_RC] + Packed(ch);
    HeadParts(out[..], covered);
    var crc := crc8.Compute(out[2..25]);
    out[25] := crc;
    SealedFrom(out[..], covered);
  }

  /** Address, length, type and payload. */
  method FillHead(out: array<byte>, payload: seq<byte>)
    requires out.Length == 26 && |payload| == 22
    modifies out
    ensures out[..25] == [ADDR_FC, 24] + ([TYPE_RC] + payload)
  {
    out[0], out[1], out[2] := ADDR_FC, 24, TYPE_RC;
    forall j | 0 <= j < 22 {
      out[3 + j] := payload[j];
    }
  }

  lemma HeadParts(out: seq<byte>, covered: seq<byte>)
    requires |out| == 26 && |covered| == 23 && out[..25] == [ADDR_FC, 24] + covered
    ensures out[2..25] == covered
  {
    assert out[2..25] == out[..25][2..];
  }

  lemma SealedFrom(out: seq<byte>, covered: seq<byte>)
    requires |out| == 26 && |covered| == 23 && out[..25] == [ADDR_FC, 24] + covered && out[25] == Crc8(covered)
    ensures out == Sealed(covered)
  {
    assert out == out[..25] + [out[25]];
  }

  /**
   * The emitted frame is a valid CRSF frame, any CRSF parser recognises it, and all sixteen
   * channels can be read back out of what the parser delivers.
   */
  lemma RcFrameRecognised(ch: seq<word>)
    requires |ch| == 16
    ensures IsWireFrame(RcFrame(ch))
    ensures RxFrames(WaitAddr, RcFrame(ch)) == [Telemetry(0xC8, 0x16, Packed(ch))]
    ensures forall i :: 0 <= i < 16 ==> Unpack(Packed(ch), i) == ch[i] % 0x800
  {
    var w, covered := RcFrame(ch), [TYPE_RC] + Packed(ch);
    assert w[2..|w| - 1] == covered;
    assert w[3..|w| - 1] == covered[1..] == Packed(ch);
    WireFrameRecognised(w);
    forall i | 0 <= i < 16
      ensures Unpack(Packed(ch), i) == Mask(ch[i])
    {
      UnpackPacked(ch, i);
    }
  }
}
