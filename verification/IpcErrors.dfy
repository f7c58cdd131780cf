/** Which corruptions of a decoded frame the CRC-16 check of ipc_feed lets through. */
module IpcErrors {
  import opened Bytes
  import opened Bits
  import opened Crc
  import opened CrcErrors
  import opened Ipc

  lemma ParseChecks(d: seq<byte>)
    requires |d| >= 2
    ensures Parse(d).Some? <==> Split(d).Some? && Checks(d)
  {
    if Split(d).Some? {
      var (f, crc) := Split(d).value;
      var n := |d| - 2;
      WordOfLoHi(d[n], d[n + 1]);
      LoHiOfWord(Crc16(d[..n]));
    }
  }

  /**
   * Two-byte errors, exactly: replace any two neighbouring bytes of an accepted frame, and
   * the result is accepted again only if nothing changed or the change is the blind pair in
   * a frame that has a payload.
   */
  lemma NeighbourErrors(a: seq<byte>, b: seq<byte>, i: nat)
    requires Parse(a).Some? && DifferOnlyAt(a, b, i)
    ensures Parse(b).Some? <==> a == b || (|a| > 6 && BlindPair(a, b, i))
  {
    ParseChecks(a);
    ParseChecks(b);
    NeighbourChecks(a, b, i);
    if i == |a| - 3 {
      BoundarySplit(a, b);
    }
  }

  /** With a payload the length field is untouched; without one its high byte is the last body byte. */
  lemma BoundarySplit(a: seq<byte>, b: seq<byte>)
    requires Split(a).Some? && DifferOnlyAt(a, b, |a| - 3)
    ensures Split(b).Some? <==> a[3] == b[3]
    ensures |a| > 6 ==> a[3] == b[3]
    ensures |a| == 6 && BlindPair(a, b, |a| - 3) ==> a[3] != b[3]
  {
    if |a| == 6 {
      XorZero(OfByte(a[3]), OfByte(b[3]));
    }
  }

  /** Every single-byte error is detected, whichever byte it hits. */
  lemma SingleByteErrors(a: seq<byte>, i: nat, x: byte)
    requires Parse(a).Some? && i < |a| && x != a[i]
    ensures Parse(a[i := x]).None?
  {
    var b := a[i := x];
    var j := if i + 1 < |a| then i else i - 1;
    NeighbourErrors(a, b, j);
    OneByteNotBlind(a, b, j);
  }
}
