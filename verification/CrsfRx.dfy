/**
 * The two CRSF byte-stream parsers: the RP2040's (firmware/crsf/src/crsf.c) and the
 * antenna tracker's (firmware/tracker/src/main.cpp), and a proof that no byte stream,
 * however it is cut into reads, makes them disagree.
 */
module CrsfRx {
  import opened Bytes
  import opened Crc

  const RX_MAX := 64
  const ADDR_RADIO: byte := 0xEA
  const ADDR_FC: byte := 0xC8
  const POLL_LIMIT := 256

  /** What a parser hands on: address, type and payload of a frame whose checksum held. */
  datatype Telemetry = Telemetry(addr: byte, kind: byte, payload: seq<byte>)

  predicate AddrOk(a: byte) { a == ADDR_RADIO || a == ADDR_FC }

  predicate LenOk(b: byte) { 2 <= b <= RX_MAX - 2 }

  // ----- the RP2040 parser ----------------------------------------------------------

  datatype Rx = WaitAddr | WaitLen(addr: byte) | WaitPayload(addr: byte, len: byte, got: seq<byte>)

  predicate RxOk(rx: Rx) {
    rx.WaitPayload? ==> LenOk(rx.len) && |rx.got| < rx.len
  }

  function RxStep(rx: Rx, b: byte): Rx {
    match rx
    case WaitAddr => if AddrOk(b) then WaitLen(b) else WaitAddr
    case WaitLen(addr) => if LenOk(b) then WaitPayload(addr, b, []) else WaitAddr
    case WaitPayload(addr, len, got) =>
      if |got| + 1 == len then WaitAddr else WaitPayload(addr, len, got + [b])
  }

  /** The callback's arguments, when the byte completes a frame with a valid checksum. */
  function RxOut(rx: Rx, b: byte): Option<Telemetry> {
    match rx
    case WaitPayload(addr, len, got) =>
      if |got| + 1 == len && got != [] && b == Crc8(got)
      then Some(Telemetry(addr, got[0], got[1..])) else None
    case _ => None
  }

  function RxRun(rx: Rx, s: seq<byte>): Rx
    decreases |s|
  {
    if s == [] then rx else RxRun(RxStep(rx, s[0]), s[1..])
  }

  function RxFrames(rx: Rx, s: seq<byte>): seq<Telemetry>
    decreases |s|
  {
    if s == [] then [] else OptSeq(RxOut(rx, s[0])) + RxFrames(RxStep(rx, s[0]), s[1..])
  }

  lemma {:induction false} RxAppend(rx: Rx, s: seq<byte>, t: seq<byte>)
    ensures RxRun(rx, s + t) == RxRun(RxRun(rx, s), t)
    ensures RxFrames(rx, s + t) == RxFrames(rx, s) + RxFrames(RxRun(rx, s), t)
    decreases |s|
  {
    if s == [] {
      assert s + t == t;
    } else {
      assert (s + t)[0] == s[0] && (s + t)[1..] == s[1..] + t;
      var rx' := RxStep(rx, s[0]);
      RxAppend(rx', s[1..], t);
      var head, mid, last := OptSeq(RxOut(rx, s[0])), RxFrames(rx', s[1..]), RxFrames(RxRun(rx', s[1..]), t);
      assert head + (mid + last) == head + mid + last;
    }
  }

  lemma RxSnoc(rx: Rx, s: seq<byte>, b: byte)
    ensures RxRun(rx, s + [b]) == RxStep(RxRun(rx, s), b)
    ensures RxFrames(rx, s + [b]) == RxFrames(rx, s) + OptSeq(RxOut(RxRun(rx, s), b))
  {
    RxAppend(rx, s, [b]);
    var mid, none: seq<byte> := RxRun(rx, s), [b][1..];
    assert none == [];
    assert RxRun(RxStep(mid, b), none) == RxStep(mid, b) && RxFrames(RxStep(mid, b), none) == [];
  }

  lemma {:induction false} RxRunOk(rx: Rx, s: seq<byte>)
    requires RxOk(rx)
    ensures RxOk(RxRun(rx, s))
    decreases |s|
  {
    if s != [] {
      RxRunOk(RxStep(rx, s[0]), s[1..]);
    }
  }

  datatype Phase = WAIT_ADDR | WAIT_LEN | WAIT_PAYLOAD

  /** The static struct `rx` and the polling loop around it. */
  class Receiver {
    const buf: array<byte>
    const crc8: Crc8Table
    var phase: Phase
    var addr: byte
    var len: byte
    var got: byte

    ghost predicate Valid()
      reads this, buf, crc8, crc8.table
    {
      buf.Length == RX_MAX && buf != crc8.table && crc8.Valid() &&
      (phase == WAIT_PAYLOAD ==> LenOk(len) && got < len)
    }

    ghost function State(): Rx
      requires Valid()
      reads this, buf, crc8, crc8.table
    {
      match phase
      case WAIT_ADDR => WaitAddr
      case WAIT_LEN => WaitLen(addr)
      case WAIT_PAYLOAD => WaitPayload(addr, len, buf[..got])
    }

    constructor ()
      ensures Valid() && State() == WaitAddr
      ensures fresh(buf) && fresh(crc8) && fresh(crc8.table)
    {
      buf := new byte[RX_MAX];
      crc8 := new Crc8Table();
      phase, addr, len, got := WAIT_ADDR, 0, 0, 0;
    }

    /** The switch in crsf_rx_poll. */
    method Byte(b: byte) returns (frame: Option<Telemetry>)
      requires Valid()
      modifies this, buf, crc8, crc8.table
      ensures Valid()
      ensures State() == RxStep(old(State()), b)
      ensures frame == RxOut(old(State()), b)
    {
      frame := None;
      match phase
      case WAIT_ADDR =>
        if AddrOk(b) {
          addr := b;
          phase := WAIT_LEN;
        }
      case WAIT_LEN =>
        if b < 2 || b > RX_MAX - 2 {
          phase := WAIT_ADDR;
          return;
        }
        len := b;
        got := 0;
        phase := WAIT_PAYLOAD;
      case WAIT_PAYLOAD =>
        ghost var before := buf[..got];
        buf[got] := b;
        got := got + 1;
        assert buf[..got] == before + [b];
        if got == len {
          var expected := buf[len - 1];
          assert buf[..len - 1] == before;
          var actual := crc8.Compute(buf[..len - 1]);
          assert buf[..len - 1] == before;
          if expected == actual {
            frame := Some(Telemetry(addr, buf[0], buf[1..len - 1]));
            assert buf[1..len - 1] == before[1..];
          }
          phase := WAIT_ADDR;
        }
    }

    /** crsf_rx_poll on the bytes the UART has ready: at most 256 of them are drained. */
    method Poll(ready: seq<byte>) returns (frames: seq<Telemetry>, left: seq<byte>)
      requires Valid()
      modifies this, buf, crc8, crc8.table
      ensures Valid()
      ensures var n := Min(|ready|, 256);
              && State() == RxRun(old(State()), ready[..n])
              && frames == RxFrames(old(State()), ready[..n])
              && left == ready[n..]
    {
      frames := [];
      ghost var start := State();
      assert ready[..0] == [];
      for safety := 0 to POLL_LIMIT
        invariant Valid() && safety <= |ready|
        invariant State() == RxRun(start, ready[..safety])
        invariant frames == RxFrames(start, ready[..safety])
      {
        if safety == |ready| {
          return frames, [];
        }
        RxSnoc(start, ready[..safety], ready[safety]);
        assert ready[..safety + 1] == ready[..safety] + [ready[safety]];
        var frame := Byte(ready[safety]);
        frames := frames + OptSeq(frame);
      }
      left := ready[POLL_LIMIT..];
    }
  }

  /** A relayed payload fits the 64-byte buffer of on_crsf_telemetry: its "paranoia" return is dead code. */
  lemma {:induction false} TelemetryFits(rx: Rx, s: seq<byte>)
    requires RxOk(rx)
    ensures forall t :: t in RxFrames(rx, s) ==> |t.payload| <= 60
    decreases |s|
  {
    if s != [] {
      TelemetryFits(RxStep(rx, s[0]), s[1..]);
    }
  }

  // ----- the tracker's parser ---------------------------------------------------------

  datatype Tracker = WaitSync | WaitLength(sync: byte) | Collect(frame: seq<byte>, need: nat)

  function TrackerStep(t: Tracker, b: byte): Tracker {
    match t
    case WaitSync => if AddrOk(b) then WaitLength(b) else WaitSync
    case WaitLength(sync) => if LenOk(b) then Collect([sync, b], b) else WaitSync
    case Collect(frame, need) => if need <= 1 then WaitSync else Collect(frame + [b], need - 1)
  }

  /** A completed frame: None, or whether its checksum held with what it carried. */
  function TrackerOut(t: Tracker, b: byte): Option<Telemetry> {
    match t
    case Collect(frame, need) =>
      if need == 1 && |frame| >= 3 && Crc8(frame[2..]) == b
      then Some(Telemetry(frame[0], frame[2], frame[3..])) else None
    case _ => None
  }

  function TrackerRun(t: Tracker, s: seq<byte>): Tracker
    decreases |s|
  {
    if s == [] then t else TrackerRun(TrackerStep(t, s[0]), s[1..])
  }

  function TrackerFrames(t: Tracker, s: seq<byte>): seq<Telemetry>
    decreases |s|
  {
    if s == [] then [] else OptSeq(TrackerOut(t, s[0])) + TrackerFrames(TrackerStep(t, s[0]), s[1..])
  }

  lemma {:induction false} TrackerSnoc(t: Tracker, s: seq<byte>, b: byte)
    ensures TrackerRun(t, s + [b]) == TrackerStep(TrackerRun(t, s), b)
    ensures TrackerFrames(t, s + [b]) == TrackerFrames(t, s) + OptSeq(TrackerOut(TrackerRun(t, s), b))
    decreases |s|
  {
    hide Crc8;
    if s == [] {
      var none: seq<byte> := [];
      assert (s + [b])[0] == b && (s + [b])[1..] == none;
      assert TrackerRun(TrackerStep(t, b), none) == TrackerStep(t, b);
      assert TrackerFrames(TrackerStep(t, b), none) == [];
    } else {
      assert (s + [b])[1..] == s[1..] + [b];
      TrackerSnoc(TrackerStep(t, s[0]), s[1..], b);
    }
  }

  const FRAME_GPS: byte := 0x02

  /** All complete frames, those with a bad checksum, and good GPS frames. */
  datatype Counters = Counters(seen: nat, badCrc: nat, gps: nat)

  function Counted(c: Counters, t: Tracker, b: byte): Counters {
    if !t.Collect? || t.need != 1 then c
    else
      match TrackerOut(t, b)
      case None => c.(seen := c.seen + 1, badCrc := c.badCrc + 1)
      case Some(f) => c.(seen := c.seen + 1, gps := c.gps + if f.kind == FRAME_GPS then 1 else 0)
  }

  /** Frames of type 0x02. */
  function GpsFrames(): Telemetry -> bool { (t: Telemetry) => t.kind == 0x02 }

  lemma CountedAgree(t: Tracker, b: byte)
    ensures var out := OptSeq(TrackerOut(t, b));
            forall c :: var c' := Counted(c, t, b);
                        && c'.seen - c'.badCrc == c.seen - c.badCrc + |out|
                        && c'.gps == c.gps + |Kept(out, GpsFrames())| && c'.badCrc >= c.badCrc
  {
    var out := OptSeq(TrackerOut(t, b));
    assert out != [] ==> out[..0] == [];
  }

  /** parser_task's locals and its frame counters. */
  class TrackerParser {
    const frame: array<byte>
    var state: Phase
    var pos: nat
    var need: nat
    var framesSeen: nat
    var framesBadCrc: nat
    var framesGps: nat

    ghost predicate Valid()
      reads this, frame
    {
      frame.Length == RX_MAX &&
      (state != WAIT_ADDR ==> AddrOk(frame[0])) &&
      (state == WAIT_LEN ==> pos == 1) &&
      (state == WAIT_PAYLOAD ==> 2 <= pos && LenOk(frame[1]) && need > 0 && pos + need == frame[1] + 2)
    }

    ghost function State(): Tracker
      requires Valid()
      reads this, frame
    {
      match state
      case WAIT_ADDR => WaitSync
      case WAIT_LEN => WaitLength(frame[0])
      case WAIT_PAYLOAD => Collect(frame[..pos], need)
    }

    ghost function Counts(): Counters
      reads this
    {
      Counters(framesSeen, framesBadCrc, framesGps)
    }

    constructor ()
      ensures Valid() && State() == WaitSync && Counts() == Counters(0, 0, 0) && fresh(frame)
    {
      frame := new byte[RX_MAX];
      state, pos, need := WAIT_ADDR, 0, 0;
      framesSeen, framesBadCrc, framesGps := 0, 0, 0;
    }

    /** The switch in parser_task. */
    method Byte(b: byte) returns (out: Option<Telemetry>)
      requires Valid()
      modifies this, frame
      ensures Valid()
      ensures State() == TrackerStep(old(State()), b)
      ensures out == TrackerOut(old(State()), b)
      ensures Counts() == Counted(old(Counts()), old(State()), b)
    {
      out := None;
      match state
      case WAIT_ADDR =>
        if AddrOk(b) {
          frame[0] := b;
          pos := 1;
          state := WAIT_LEN;
        }
      case WAIT_LEN =>
        if b < 2 || b > RX_MAX - 2 {
          state := WAIT_ADDR;
          return;
        }
        frame[1] := b;
        need := b;
        pos := 2;
        state := WAIT_PAYLOAD;
        assert frame[..2] == [frame[0], b];
      case WAIT_PAYLOAD =>
        ghost var before := frame[..pos];
        frame[pos] := b;
        pos := pos + 1;
        need := need - 1;
        assert frame[..pos] == before + [b];
        if need == 0 {
          assert before == frame[..pos - 1];
          out := Finish();
          state := WAIT_ADDR;
        }
    }

    /** A frame is complete: its checksum is compared and the frame counted. */
    method Finish() returns (out: Option<Telemetry>)
      requires frame.Length == RX_MAX && 4 <= pos <= RX_MAX
      modifies this`framesSeen, this`framesBadCrc, this`framesGps
      ensures var last := Collect(frame[..pos - 1], 1);
              out == TrackerOut(last, frame[pos - 1]) && Counts() == Counted(old(Counts()), last, frame[pos - 1])
    {
      hide Crc8;
      ghost var before := frame[..pos - 1];
      assert frame[2..2 + (pos - 3)] == before[2..] && frame[3..3 + (pos - 4)] == before[3..];
      var crcCalc := ComputeCrc8Bitwise(frame[2..2 + (pos - 3)]);
      var crcRecv := frame[pos - 1];
      framesSeen := framesSeen + 1;
      if crcCalc != crcRecv {
        framesBadCrc := framesBadCrc + 1;
        return None;
      }
      if frame[2] == FRAME_GPS {
        framesGps := framesGps + 1;
      }
      return Some(Telemetry(frame[0], frame[2], frame[3..3 + (pos - 4)]));
    }

    /** One batch out of the stream buffer, of any size. */
    method Batch(batch: seq<byte>) returns (out: seq<Telemetry>)
      requires Valid()
      modifies this, frame
      ensures Valid()
      ensures State() == TrackerRun(old(State()), batch)
      ensures out == TrackerFrames(old(State()), batch)
      ensures framesSeen - framesBadCrc == old(framesSeen - framesBadCrc) + |out|
      ensures framesGps == old(framesGps) + |Kept(out, GpsFrames())| && framesBadCrc >= old(framesBadCrc)
    {
      out := [];
      ghost var start := State();
      assert batch[..0] == [];
      for i := 0 to |batch|
        invariant Valid()
        invariant State() == TrackerRun(start, batch[..i])
        invariant out == TrackerFrames(start, batch[..i])
        invariant framesSeen - framesBadCrc == old(framesSeen - framesBadCrc) + |out|
        invariant framesGps == old(framesGps) + |Kept(out, GpsFrames())| && framesBadCrc >= old(framesBadCrc)
      {
        TrackerSnoc(start, batch[..i], batch[i]);
        assert batch[..i + 1] == batch[..i] + [batch[i]];
        ghost var before := State();
        var frameOut := Byte(batch[i]);
        CountedAgree(before, batch[i]);
        KeptAppend(out, OptSeq(frameOut), GpsFrames());
        out := out + OptSeq(frameOut);
      }
      assert batch[..|batch|] == batch;
    }
  }

  // ----- they agree ----------------------------------------------------------------------

  /** The tracker position that corresponds to an RP2040 position. */
  function Twin(rx: Rx): Tracker {
    match rx
    case WaitAddr => WaitSync
    case WaitLen(addr) => WaitLength(addr)
    case WaitPayload(addr, len, got) => if |got| <= len then Collect([addr, len] + got, len - |got|) else WaitSync
  }

  lemma TwinStep(rx: Rx, b: byte)
    requires RxOk(rx)
    ensures TrackerStep(Twin(rx), b) == Twin(RxStep(rx, b))
    ensures TrackerOut(Twin(rx), b) == RxOut(rx, b)
  {
    match rx
    case WaitPayload(addr, len, got) =>
      assert [addr, len] + got + [b] == [addr, len] + (got + [b]);
      assert ([addr, len] + got)[2..] == got;
      if got != [] {
        assert ([addr, len] + got)[3..] == got[1..];
      }
    case WaitLen(addr) =>
      assert [addr, b] + [] == [addr, b];
    case WaitAddr =>
  }

  /** On every byte stream the two parsers stay in step and deliver the same frames. */
  lemma {:induction false} ParsersAgree(rx: Rx, s: seq<byte>)
    requires RxOk(rx)
    ensures TrackerRun(Twin(rx), s) == Twin(RxRun(rx, s))
    ensures TrackerFrames(Twin(rx), s) == RxFrames(rx, s)
    decreases |s|
  {
    if s != [] {
      TwinStep(rx, s[0]);
      ParsersAgree(RxStep(rx, s[0]), s[1..]);
    }
  }

  /** The frames the RP2040 delivers over a series of polls. */
  function PollFrames(rx: Rx, chunks: seq<seq<byte>>): seq<Telemetry>
    decreases |chunks|
  {
    if chunks == [] then [] else RxFrames(rx, chunks[0]) + PollFrames(RxRun(rx, chunks[0]), chunks[1..])
  }

  /** The frames the tracker delivers over a series of batches. */
  function BatchFrames(t: Tracker, chunks: seq<seq<byte>>): seq<Telemetry>
    decreases |chunks|
  {
    if chunks == [] then [] else TrackerFrames(t, chunks[0]) + BatchFrames(TrackerRun(t, chunks[0]), chunks[1..])
  }

  lemma {:induction false} PollsAreOneStream(rx: Rx, chunks: seq<seq<byte>>)
    ensures PollFrames(rx, chunks) == RxFrames(rx, Flatten(chunks))
    decreases |chunks|
  {
    if chunks != [] {
      PollsAreOneStream(RxRun(rx, chunks[0]), chunks[1..]);
      RxAppend(rx, chunks[0], Flatten(chunks[1..]));
    }
  }

  lemma {:induction false} BatchesFollowPolls(rx: Rx, chunks: seq<seq<byte>>)
    requires RxOk(rx)
    ensures BatchFrames(Twin(rx), chunks) == PollFrames(rx, chunks)
    decreases |chunks|
  {
    if chunks != [] {
      ParsersAgree(rx, chunks[0]);
      RxRunOk(rx, chunks[0]);
      BatchesFollowPolls(RxRun(rx, chunks[0]), chunks[1..]);
    }
  }

  /** Cut the same bytes into polls one way and into batches another: same frames, same order. */
  lemma CuttingDoesNotMatter(polls: seq<seq<byte>>, batches: seq<seq<byte>>)
    requires Flatten(polls) == Flatten(batches)
    ensures PollFrames(WaitAddr, polls) == BatchFrames(WaitSync, batches)
  {
    PollsAreOneStream(WaitAddr, polls);
    PollsAreOneStream(WaitAddr, batches);
    BatchesFollowPolls(WaitAddr, batches);
  }

  // ----- complete frames on the wire --------------------------------------------------------

  /**
   * [addr][len][type][payload][crc]: to the flight controller or the handset, the length 2 to 62
   * and counting type, payload and checksum.
   */
  predicate IsWireFrame(w: seq<byte>) {
    && |w| >= 4 && w[0] in {0xC8, 0xEA} && 2 <= w[1] <= 62 && |w| == w[1] + 2
    && w[|w| - 1] == Crc8(w[2..|w| - 1])
  }

  function Carried(w: seq<byte>): Telemetry
    requires |w| >= 4
  {
    Telemetry(w[0], w[2], w[3..|w| - 1])
  }

  /** The bytes of a frame body pile up until the last one. */
  lemma {:induction false} Collecting(addr: byte, len: byte, got: seq<byte>, s: seq<byte>)
    requires LenOk(len) && |got| + |s| < len
    ensures RxRun(WaitPayload(addr, len, got), s) == WaitPayload(addr, len, got + s)
    ensures RxFrames(WaitPayload(addr, len, got), s) == []
    decreases |s|
  {
    if s == [] {
      assert got + s == got;
    } else {
      Collecting(addr, len, got + [s[0]], s[1..]);
      assert got + [s[0]] + s[1..] == got + s;
    }
  }

  lemma BodyCollected(addr: byte, len: byte, body: seq<byte>)
    requires AddrOk(addr) && LenOk(len) && |body| < len
    ensures RxRun(WaitAddr, [addr, len] + body) == WaitPayload(addr, len, body)
    ensures RxFrames(WaitAddr, [addr, len] + body) == []
  {
    var none: seq<byte> := [];
    HeaderConsumed(addr, len);
    Collecting(addr, len, none, body);
    assert none + body == body;
    RxAppend(WaitAddr, [addr, len], body);
  }

  /** Every valid frame is recognised, alone or inside a stream, and leaves the parser idle. */
  lemma WireFrameRecognised(w: seq<byte>)
    requires IsWireFrame(w)
    ensures RxRun(WaitAddr, w) == WaitAddr
    ensures RxFrames(WaitAddr, w) == [Carried(w)]
  {
    var body := w[2..|w| - 1];
    BodyCollected(w[0], w[1], body);
    RxSnoc(WaitAddr, [w[0], w[1]] + body, w[|w| - 1]);
    WireParts(w);
  }

  lemma WireParts(w: seq<byte>)
    requires |w| >= 4
    ensures w == [w[0], w[1]] + w[2..|w| - 1] + [w[|w| - 1]]
    ensures w[2..|w| - 1][1..] == w[3..|w| - 1]
  {
  }

  lemma HeaderConsumed(addr: byte, len: byte)
    requires AddrOk(addr) && LenOk(len)
    ensures RxRun(WaitAddr, [addr, len]) == WaitPayload(addr, len, [])
    ensures RxFrames(WaitAddr, [addr, len]) == []
  {
    var none: seq<byte> := [];
    RxSnoc(WaitAddr, none, addr);
    assert none + [addr] == [addr];
    RxSnoc(WaitAddr, [addr], len);
    assert [addr] + [len] == [addr, len];
  }

  predicate Addressless(s: seq<byte>) { forall x :: x in s ==> !AddrOk(x) }

  /** A run of valid frames, with noise between them that never looks like an address byte. */
  datatype Burst = Burst(noise: seq<byte>, frame: seq<byte>)

  predicate BurstOk(b: Burst) {
    IsWireFrame(b.frame) && Addressless(b.noise)
  }

  function Transmitted(bs: seq<Burst>): seq<byte> {
    if bs == [] then [] else bs[0].noise + bs[0].frame + Transmitted(bs[1..])
  }

  function CarriedAll(bs: seq<Burst>): seq<Telemetry>
    requires forall b :: b in bs ==> BurstOk(b)
  {
    if bs == [] then []
    else
      assert BurstOk(bs[0]);
      [Carried(bs[0].frame)] + CarriedAll(bs[1..])
  }

  lemma {:induction false} NoiseIgnored(noise: seq<byte>)
    requires Addressless(noise)
    ensures RxRun(WaitAddr, noise) == WaitAddr && RxFrames(WaitAddr, noise) == []
    decreases |noise|
  {
    if noise != [] {
      assert noise[0] in noise;
      NoiseIgnored(noise[1..]);
    }
  }

  /** Resynchronisation: every frame of the run is delivered, in order, noise or not. */
  lemma {:induction false} BurstsDelivered(bs: seq<Burst>)
    requires forall b :: b in bs ==> BurstOk(b)
    ensures RxRun(WaitAddr, Transmitted(bs)) == WaitAddr
    ensures RxFrames(WaitAddr, Transmitted(bs)) == CarriedAll(bs)
  {
    if bs != [] {
      assert BurstOk(bs[0]);
      NoiseIgnored(bs[0].noise);
      WireFrameRecognised(bs[0].frame);
      RxAppend(WaitAddr, bs[0].noise, bs[0].frame);
      RxAppend(WaitAddr, bs[0].noise + bs[0].frame, Transmitted(bs[1..]));
      BurstsDelivered(bs[1..]);
    }
  }

  /** How many more bytes without an address the parser can be held up by. */
  function Held(rx: Rx): nat
    requires RxOk(rx)
  {
    match rx
    case WaitAddr => 0
    case WaitLen(_) => RX_MAX - 1
    case WaitPayload(_, len, got) => len - |got|
  }

  lemma HeldShrinks(rx: Rx, b: byte)
    requires RxOk(rx) && !AddrOk(b)
    ensures RxOk(RxStep(rx, b)) && (Held(RxStep(rx, b)) < Held(rx) || Held(RxStep(rx, b)) == 0)
    ensures RxOut(rx, b).Some? ==> RxStep(rx, b) == WaitAddr
  {
  }

  /**
   * A gap of 63 bytes without an address byte brings the parser back to idle from wherever it
   * was; at most one frame comes of it.
   */
  lemma {:induction false} GapResets(rx: Rx, gap: seq<byte>)
    requires RxOk(rx) && Addressless(gap) && Held(rx) <= |gap|
    ensures RxRun(rx, gap) == WaitAddr && |RxFrames(rx, gap)| <= 1
    decreases |gap|
  {
    if rx == WaitAddr {
      NoiseIgnored(gap);
    } else {
      assert gap[0] in gap;
      HeldShrinks(rx, gap[0]);
      GapResets(RxStep(rx, gap[0]), gap[1..]);
      if RxOut(rx, gap[0]).Some? {
        NoiseIgnored(gap[1..]);
      }
    }
  }

  /** From any state, behind such a gap: every frame of the run is delivered, in order. */
  lemma BurstsFromAnywhere(rx: Rx, gap: seq<byte>, bs: seq<Burst>)
    requires RxOk(rx) && Addressless(gap) && (rx == WaitAddr || |gap| >= 63)
    requires forall b :: b in bs ==> BurstOk(b)
    ensures RxRun(rx, gap + Transmitted(bs)) == WaitAddr
    ensures RxFrames(rx, gap + Transmitted(bs)) == RxFrames(rx, gap) + CarriedAll(bs)
    ensures |RxFrames(rx, gap)| <= 1
  {
    GapResets(rx, gap);
    BurstsDelivered(bs);
    RxAppend(rx, gap, Transmitted(bs));
  }

  // ----- nothing but frames is delivered ------------------------------------------------------------

  /** What the parser holds is the end of what it has read. */
  predicate Holding(rx: Rx, s: seq<byte>) {
    match rx
    case WaitAddr => true
    case WaitLen(addr) => AddrOk(addr) && |s| >= 1 && s[|s| - 1] == addr
    case WaitPayload(addr, len, got) =>
      && AddrOk(addr) && LenOk(len) && |got| < len && |s| >= |got| + 2
      && s[|s| - |got| - 2..] == [addr, len] + got
  }

  /** Some stretch of s is a valid frame that carries t. */
  predicate WasSent(s: seq<byte>, t: Telemetry) {
    exists i, j :: 0 <= i <= j <= |s| && IsWireFrame(s[i..j]) && Carried(s[i..j]) == t
  }

  lemma StillSent(s: seq<byte>, b: byte, t: Telemetry)
    requires WasSent(s, t)
    ensures WasSent(s + [b], t)
  {
    hide Crc8;
    var i, j :| 0 <= i <= j <= |s| && IsWireFrame(s[i..j]) && Carried(s[i..j]) == t;
    assert (s + [b])[i..j] == s[i..j];
  }

  lemma HoldingNext(rx: Rx, s: seq<byte>, b: byte)
    requires Holding(rx, s)
    ensures Holding(RxStep(rx, b), s + [b])
  {
    match rx
    case WaitPayload(addr, len, got) =>
      if |got| + 1 != len {
        assert (s + [b])[|s| - |got| - 2..] == [addr, len] + (got + [b]);
      }
    case WaitLen(addr) =>
      if LenOk(b) {
        assert (s + [b])[|s| - 1..] == [addr, b] + [];
      }
    case WaitAddr =>
  }

  lemma CompletedWasSent(rx: Rx, s: seq<byte>, b: byte)
    requires Holding(rx, s) && RxOut(rx, b).Some?
    ensures WasSent(s + [b], RxOut(rx, b).value)
  {
    var i, j := |s| - |rx.got| - 2, |s| + 1;
    var w := (s + [b])[i..j];
    assert w == [rx.addr, rx.len] + rx.got + [b];
    assert w[2..|w| - 1] == rx.got && w[3..|w| - 1] == rx.got[1..];
    assert IsWireFrame(w) && Carried(w) == RxOut(rx, b).value;
  }

  /** Whatever bytes come in: each delivered frame is a valid frame that stands in them, with its own checksum. */
  lemma {:induction false} DeliveredWasSent(s: seq<byte>)
    ensures Holding(RxRun(WaitAddr, s), s)
    ensures forall t :: t in RxFrames(WaitAddr, s) ==> WasSent(s, t)
  {
    if s != [] {
      var n := |s| - 1;
      var before, b := s[..n], s[n];
      assert s == before + [b];
      DeliveredWasSent(before);
      RxSnoc(WaitAddr, before, b);
      HoldingNext(RxRun(WaitAddr, before), before, b);
      forall t | t in RxFrames(WaitAddr, s)
        ensures WasSent(s, t)
      {
        if t in RxFrames(WaitAddr, before) {
          StillSent(before, b, t);
        } else {
          CompletedWasSent(RxRun(WaitAddr, before), before, b);
        }
      }
    }
  }
}
