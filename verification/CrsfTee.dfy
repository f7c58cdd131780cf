/**
 * The daemon's CRSF tee (pi/daemon/internal/crsftee/crsftee.go), which rebuilds the frames
 * the RP2040 stripped for transport, and the whole telemetry path between the two.
 */
module CrsfTee {
  import opened Bytes
  import opened Crc
  import opened CrsfRx
  import Ipc

  const MSG_TELEMETRY: byte := 0x12

  /** What on_crsf_telemetry puts into an IPC payload: [addr][type][payload]. */
  function Strip(t: Telemetry): seq<byte> {
    [t.addr, t.kind] + t.payload
  }

  /** buildFrame; None for its nil result. */
  function Rebuild(stripped: seq<byte>): Option<seq<byte>> {
    if |stripped| < 2 then None
    else Some([stripped[0], |stripped| % 256] + stripped[1..] + [Crc8(stripped[1..])])
  }

  method BuildFrame(stripped: seq<byte>) returns (frame: Option<seq<byte>>)
    ensures frame == Rebuild(stripped)
  {
    if |stripped| < 2 {
      return None;
    }
    var addr := stripped[0];
    var inner := stripped[1..];
    var crc := ComputeCrc8Bitwise(inner);
    var out := [addr];
    out := out + [(|inner| + 1) % 256];
    out := out + inner;
    out := out + [crc];
    assert [addr] + [(|inner| + 1) % 256] == [addr, |stripped| % 256];
    return Some(out);
  }

  /** Stripping a valid wire frame and rebuilding it gives back exactly its bytes. */
  lemma RebuildInvertsStrip(w: seq<byte>)
    requires IsWireFrame(w)
    ensures Rebuild(Strip(Carried(w))) == Some(w)
  {
    var s := Strip(Carried(w));
    assert s[1..] == w[2..|w| - 1];
    WireParts(w);
  }

  /** Rebuilding a stripped payload gives a valid wire frame that carries just that payload. */
  lemma StripInvertsRebuild(s: seq<byte>)
    requires 2 <= |s| <= 62 && AddrOk(s[0])
    ensures var w := Rebuild(s).value;
            && IsWireFrame(w) && Strip(Carried(w)) == s
            && RxRun(WaitAddr, w) == WaitAddr && RxFrames(WaitAddr, w) == [Carried(w)]
  {
    var w := Rebuild(s).value;
    assert w[2..|w| - 1] == s[1..];
    assert w[3..|w| - 1] == s[2..];
    WireFrameRecognised(w);
  }

  // ----- end to end ------------------------------------------------------------------

  /** The IPC frames the RP2040 sends for a list of telemetry frames, numbered from `sn`. */
  function Forwarded(ts: seq<Telemetry>, sn: byte): seq<Ipc.Frame> {
    if ts == [] then [] else [Ipc.Frame(MSG_TELEMETRY, sn, Strip(ts[0]))] + Forwarded(ts[1..], Inc8(sn))
  }

  /** What the daemon hands to mwp for the IPC frames it receives. */
  function Teed(fs: seq<Ipc.Frame>): seq<byte> {
    if fs == [] then []
    else (match Rebuild(fs[0].payload) case None => [] case Some(w) => w) + Teed(fs[1..])
  }

  /** The wire frames of a run, without the noise. */
  function Clean(bs: seq<Burst>): seq<byte> {
    if bs == [] then [] else bs[0].frame + Clean(bs[1..])
  }

  lemma {:induction false} ForwardedSendable(bs: seq<Burst>, sn: byte)
    requires forall b :: b in bs ==> BurstOk(b)
    ensures forall f :: f in Forwarded(CarriedAll(bs), sn) ==> Ipc.Sendable(f)
    ensures Teed(Forwarded(CarriedAll(bs), sn)) == Clean(bs)
  {
    if bs != [] {
      assert BurstOk(bs[0]);
      var ts := CarriedAll(bs);
      assert ts[0] == Carried(bs[0].frame) && ts[1..] == CarriedAll(bs[1..]);
      RebuildInvertsStrip(bs[0].frame);
      ForwardedSendable(bs[1..], Inc8(sn));
      var fs := Forwarded(ts, sn);
      assert fs[1..] == Forwarded(ts[1..], Inc8(sn));
    }
  }

  /** At most one frame in front of the run's, forwarded with it. */
  lemma StaleInFront(stale: seq<Telemetry>, bs: seq<Burst>, sn: byte)
    requires |stale| <= 1 && forall t :: t in stale ==> |t.payload| <= 60
    requires forall b :: b in bs ==> BurstOk(b)
    ensures var ipc := Forwarded(stale + CarriedAll(bs), sn);
            && (forall f :: f in ipc ==> Ipc.Sendable(f))
            && Teed(ipc) == Teed(Forwarded(stale, sn)) + Clean(bs)
  {
    if stale == [] {
      assert stale + CarriedAll(bs) == CarriedAll(bs);
      ForwardedSendable(bs, sn);
    } else {
      var all := stale + CarriedAll(bs);
      assert all[0] == stale[0] && all[1..] == CarriedAll(bs);
      ForwardedSendable(bs, Inc8(sn));
      var first := Ipc.Frame(MSG_TELEMETRY, sn, Strip(stale[0]));
      assert Forwarded(stale[1..], Inc8(sn)) == [] && Forwarded(stale, sn) == [first];
      TeedInFront(first, Forwarded(CarriedAll(bs), Inc8(sn)));
      TeedInFront(first, []);
    }
  }

  lemma TeedInFront(f: Ipc.Frame, fs: seq<Ipc.Frame>)
    ensures Teed([f] + fs) == Teed([f]) + Teed(fs)
  {
    assert ([f] + fs)[1..] == fs && [f][1..] == [];
  }

  /**
   * The telemetry tunnel: frames sent by the radio module, with noise between them, through
   * the RP2040's CRSF parser, its IPC sender, the daemon's IPC parser (in any state, after
   * any garbage) and the tee, come out as the module's own bytes, in order. If the RP2040's
   * parser is not idle, 63 bytes of noise in front are enough; what comes of those is at most
   * one frame.
   */
  lemma TelemetryTunnel(rx: Rx, gap: seq<byte>, bs: seq<Burst>, sn: byte, daemon: Ipc.RxState, garbage: seq<byte>)
    requires RxOk(rx) && Addressless(gap) && (rx == WaitAddr || |gap| >= 63)
    requires forall b :: b in bs ==> BurstOk(b)
    ensures var stale, ipc := RxFrames(rx, gap), Forwarded(RxFrames(rx, gap + Transmitted(bs)), sn);
            && |stale| <= 1 && (rx == WaitAddr ==> stale == [])
            && (forall f :: f in ipc ==> Ipc.Sendable(f))
            && var before := Ipc.FeedFrames(Ipc.Daemon, daemon, garbage + [0]);
               var received := Ipc.FeedFrames(Ipc.Daemon, daemon, garbage + [0] + Ipc.WireAll(ipc));
               && before <= received
               && Teed(received[|before|..]) == Teed(Forwarded(stale, sn)) + Clean(bs)
  {
    BurstsFromAnywhere(rx, gap, bs);
    if rx == WaitAddr {
      NoiseIgnored(gap);
    }
    TelemetryFits(rx, gap);
    StaleInFront(RxFrames(rx, gap), bs, sn);
    var ipc := Forwarded(RxFrames(rx, gap) + CarriedAll(bs), sn);
    Ipc.StreamDelivery(Ipc.Daemon, daemon, garbage, ipc);
    var before := Ipc.FeedFrames(Ipc.Daemon, daemon, garbage + [0]);
    assert (before + ipc)[|before|..] == ipc;
  }
}
