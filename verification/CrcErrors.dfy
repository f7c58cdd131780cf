/**
 * Which corruptions of two neighbouring bytes the CRC-16 lets through, for any message with its
 * checksum stored low byte first behind it: IPC frames and the EEPROM record alike.
 */
module CrcErrors {
  import opened Bytes
  import opened Bits
  import opened Crc

  /** Equal length, and equal outside the neighbours i and i + 1. */
  predicate DifferOnlyAt(a: seq<byte>, b: seq<byte>, i: nat) {
    |a| == |b| && i + 1 < |a| && forall k :: 0 <= k < |a| && k != i && k != i + 1 ==> a[k] == b[k]
  }

  /** The one two-byte pattern the CRC does not see: 0x89 in the last body byte, 0xA1 behind it. */
  predicate BlindPair(a: seq<byte>, b: seq<byte>, i: nat)
    requires i + 1 < |a| == |b|
  {
    i == |a| - 3 && Xor8(OfByte(a[i]), OfByte(b[i])) == BLIND && Xor8(OfByte(a[i + 1]), OfByte(b[i + 1])) == BLIND_LOW
  }

  /** The checksum test alone, as a statement about the bytes. */
  predicate Checks(d: seq<byte>)
    requires |d| >= 2
  {
    var n := |d| - 2;
    Lo(Crc16(d[..n])) == d[n] && Hi(Crc16(d[..n])) == d[n + 1]
  }

  /** The body of `d` around the neighbours i and i + 1. */
  lemma BodyParts(d: seq<byte>, i: nat)
    requires i + 3 < |d|
    ensures d[..|d| - 2] == d[..i] + [d[i], d[i + 1]] + d[i + 2..|d| - 2]
  {
  }

  /** A change of the body confined to two neighbours always changes the checksum. */
  lemma BodyBurst(a: seq<byte>, b: seq<byte>, i: nat)
    requires DifferOnlyAt(a, b, i) && i + 3 < |a|
    requires Crc16(a[..|a| - 2]) == Crc16(b[..|b| - 2])
    ensures a == b
  {
    var u, v, p, s := a[..|a| - 2], b[..|b| - 2], a[..i], a[i + 2..|a| - 2];
    BodyParts(a, i);
    BodyParts(b, i);
    assert p == b[..i] && s == b[i + 2..|b| - 2];
    BurstChangesCrc16(u, v, p, a[i], a[i + 1], b[i], b[i + 1], s);
  }

  lemma SameChecksum(a: seq<byte>, b: seq<byte>)
    requires |a| == |b| >= 2 && a[|a| - 2] == b[|b| - 2] && a[|a| - 1] == b[|b| - 1]
    requires Checks(a) && Checks(b)
    ensures Crc16(a[..|a| - 2]) == Crc16(b[..|b| - 2])
  {
    LoHiOfWord(Crc16(a[..|a| - 2]));
    LoHiOfWord(Crc16(b[..|b| - 2]));
  }

  /** A change of the stored checksum alone is always seen. */
  lemma ChecksumBurst(a: seq<byte>, b: seq<byte>)
    requires |a| >= 2 && DifferOnlyAt(a, b, |a| - 2) && Checks(a) && Checks(b)
    ensures a == b
  {
    var n := |a| - 2;
    assert a[..n] == b[..n];
  }

  /** Across the boundary between body and checksum exactly one pattern gets through. */
  lemma BoundaryBurst(a: seq<byte>, b: seq<byte>)
    requires |a| >= 3 && DifferOnlyAt(a, b, |a| - 3) && Checks(a)
    ensures Checks(b) <==> a == b || BlindPair(a, b, |a| - 3)
  {
    var n := |a| - 2;
    var p, x, y := a[..n - 1], a[n - 1], b[n - 1];
    assert a[..n] == p + [x] && b[..n] == p + [y];
    LastByteBlindSpot(p, x, y);
    var u, v := Lo(Crc16(p + [x])), Lo(Crc16(p + [y]));
    assert u == a[n];
    if x == y {
      XorZero(OfByte(x), OfByte(y));
    } else if Xor8(OfByte(x), OfByte(y)) == BLIND {
      SameDifference(OfByte(u), OfByte(v), OfByte(b[n]), BLIND_LOW);
      if Xor8(OfByte(u), OfByte(b[n])) == BLIND_LOW {
        OfByteInjective(v, b[n]);
      }
    }
  }

  lemma SameDifference(u: Bits8, v: Bits8, w: Bits8, e: Bits8)
    requires Xor8(u, v) == e
    ensures Xor8(u, w) == e <==> v == w
  {
  }

  /** All two-byte errors in one: the checksum test passes again only if nothing changed or the pair is blind. */
  lemma NeighbourChecks(a: seq<byte>, b: seq<byte>, i: nat)
    requires |a| >= 3 && DifferOnlyAt(a, b, i) && Checks(a)
    ensures Checks(b) <==> a == b || BlindPair(a, b, i)
  {
    hide Crc16, Xor8, OfByte;
    if i == |a| - 3 {
      BoundaryBurst(a, b);
    } else if Checks(b) {
      if i == |a| - 2 {
        ChecksumBurst(a, b);
      } else {
        SameChecksum(a, b);
        BodyBurst(a, b, i);
      }
    }
  }

  /** A single changed byte is no blind pair, whichever neighbour it is looked at with. */
  lemma OneByteNotBlind(a: seq<byte>, b: seq<byte>, i: nat)
    requires i + 1 < |a| == |b| && (a[i] == b[i] || a[i + 1] == b[i + 1])
    ensures !BlindPair(a, b, i)
  {
    XorZero(OfByte(a[i]), OfByte(b[i]));
    XorZero(OfByte(a[i + 1]), OfByte(b[i + 1]));
  }
}
