/**
 * From the RP2040 to the daemon's callbacks, over whole runs: telemetry, panel events, heartbeats
 * and the handshake, told by what entered the chip and by what module PiLink does with each frame.
 */
module Reports {
  import opened Bytes
  import opened Inputs
  import opened Firmware
  import opened Runs
  import CrsfRx
  import CrsfTee
  import Ipc
  import PiLink

  // ----- the daemon's side ------------------------------------------------------------------

  /** The callbacks that one frame leads to. */
  function CallsOf(): Ipc.Frame -> seq<PiLink.Call> {
    (f: Ipc.Frame) => PiLink.Dispatched(PiLink.Opened(), [], f).calls
  }

  function Heard(fs: seq<Ipc.Frame>): seq<PiLink.Call> { FlatMap(fs, CallsOf()) }

  function Received(fs: seq<Ipc.Frame>): seq<PiLink.Op> {
    seq(|fs|, k requires 0 <= k < |fs| => PiLink.Receive(fs[k]))
  }

  lemma DispatchCalls(p: PiLink.Pi, version: seq<byte>, f: Ipc.Frame)
    ensures PiLink.Dispatched(p, version, f).calls == p.calls + PiLink.Dispatched(PiLink.Opened(), [], f).calls
  {
    assert p.calls + [] == p.calls;
  }

  /** They do not depend on the state of the link. */
  lemma {:induction false} HeardIsDispatched(version: seq<byte>, fs: seq<Ipc.Frame>)
    ensures PiLink.Run(version, Received(fs)).calls == Heard(fs)
  {
    if fs != [] {
      var n := |fs| - 1;
      assert Received(fs)[..n] == Received(fs[..n]);
      HeardIsDispatched(version, fs[..n]);
      DispatchCalls(PiLink.Run(version, Received(fs[..n])), version, fs[n]);
    }
  }

  // ----- what a message says ------------------------------------------------------------------

  function TelemetryCall(t: CrsfRx.Telemetry): PiLink.Call { PiLink.OnTelemetry([t.addr, t.kind] + t.payload) }

  function Spoken(m: Message): seq<PiLink.Call> {
    match m
    case HelloAck => []
    case Relay(t) => [TelemetryCall(t)]
    case Key(up) => [PiLink.OnInputEvent(1, if up then 1 else 0)]
    case Press => [PiLink.OnInputEvent(2, 1)]
  }

  function Voice(): Message -> seq<PiLink.Call> { (m: Message) => Spoken(m) }

  function SpokenAll(ms: seq<Message>): seq<PiLink.Call> { FlatMap(ms, Voice()) }

  lemma MessageHeard(m: Message, sn: byte)
    ensures PiLink.Dispatched(PiLink.Opened(), [], Framed(m, sn)).calls == Spoken(m)
  {
  }

  lemma {:induction false} NumberedHeard(ms: seq<Message>, sn: byte)
    ensures Heard(Numbered(ms, sn)) == SpokenAll(ms)
  {
    if ms == [] {
      return;
    }
    hide Framed, Spoken, PiLink.Dispatched, Advance;
    var n := |ms| - 1;
    var fs := Numbered(ms, sn);
    assert fs[..n] == Numbered(ms[..n], sn);
    NumberedHeard(ms[..n], sn);
    MessageHeard(ms[n], Advance(sn, n));
  }

  lemma {:induction false} AcksSilent(fs: seq<Ipc.Frame>)
    ensures SpokenAll(Acks(fs)) == []
  {
    if fs != [] {
      var n := |fs| - 1;
      AcksSilent(fs[..n]);
      FlatMapAppend(Acks(fs[..n]), AckOf(fs[n]), Voice());
      assert AckOf(fs[n]) == [HelloAck] ==> [HelloAck][..0] == [];
    }
  }

  function TelemetryCalls(ts: seq<CrsfRx.Telemetry>): seq<PiLink.Call> {
    seq(|ts|, k requires 0 <= k < |ts| => TelemetryCall(ts[k]))
  }

  lemma {:induction false} RelaysSpoken(ts: seq<CrsfRx.Telemetry>)
    ensures SpokenAll(Relays(ts)) == TelemetryCalls(ts)
  {
    if ts != [] {
      var n := |ts| - 1;
      RelaysSpoken(ts[..n]);
      assert Relays(ts)[..|Relays(ts)| - 1] == Relays(ts[..n]);
    }
  }

  // ----- a run's reports ----------------------------------------------------------------------

  /** When the last heartbeat went to the Pi, and how many have gone: one whenever 200 ms have passed. */
  function BeatClock(ins: seq<Input>): (nat, nat) {
    if ins == [] then (0, 0) else OneLoop(BeatClock(ins[..|ins| - 1]), ins[|ins| - 1].now)
  }

  function OneLoop(clock: (nat, nat), now: nat): (nat, nat) {
    if now - clock.0 >= 200_000 then (now, clock.1 + 1) else clock
  }

  /** Iteration k sends a heartbeat. */
  predicate BeatsAt(ins: seq<Input>, k: nat)
    requires k < |ins|
  {
    ins[k].now - BeatClock(ins[..k]).0 >= 200_000
  }

  /** The panel's part: key first, then button, each when the debouncers' histories call for it. */
  function PanelCalls(w: Runs.Wake, ins: seq<Input>, k: nat): seq<PiLink.Call>
    requires k < |ins|
  {
    (if ArmEvent(w.keyUp, KeySamples(ins), k) then [PiLink.OnInputEvent(1, if ins[k].keyUp then 1 else 0)] else []) +
    (if PressEvent(w.pressed, ButtonSamples(ins), k) then [PiLink.OnInputEvent(2, 1)] else [])
  }

  function BeatCalls(ins: seq<Input>, k: nat): seq<PiLink.Call>
    requires k < |ins|
  {
    if BeatsAt(ins, k) then [PiLink.OnHeartbeatRx(BeatClock(ins[..k]).1 % 256)] else []
  }

  /** What the daemon ought to hear of a run: radio, panel and heartbeat, iteration by iteration. */
  function Told(w: Runs.Wake, ins: seq<Input>): seq<PiLink.Call> {
    if ins == [] then []
    else
      var n := |ins| - 1;
      Told(w, ins[..n]) +
      TelemetryCalls(TelemetryIn(Run(w, ins[..n]), ins[n])) + PanelCalls(w, ins, n) + BeatCalls(ins, n)
  }

  lemma MessagesSpoken(m: Machine, i: Input)
    ensures SpokenAll(Messages(m, i)) ==
            TelemetryCalls(TelemetryIn(m, i)) +
            ((if KeyFires(m, i) then [PiLink.OnInputEvent(1, if i.keyUp then 1 else 0)] else []) +
             (if PressFires(m, i) then [PiLink.OnInputEvent(2, 1)] else []))
  {
    hide FramesIn, TelemetryIn, KeyFires, PressFires, Acks, Relays, TelemetryCalls, Spoken, FlatMap;
    var acks, relays := Acks(FramesIn(m, i)), Relays(TelemetryIn(m, i));
    AcksSilent(FramesIn(m, i));
    RelaysSpoken(TelemetryIn(m, i));
    FourVoices(acks, relays, OptSeq(if KeyFires(m, i) then Some(Key(i.keyUp)) else None),
               OptSeq(if PressFires(m, i) then Some(Press) else None));
    EdgeSpoken(KeyFires(m, i), i.keyUp, PressFires(m, i));
  }

  lemma FourVoices(a: seq<Message>, b: seq<Message>, c: seq<Message>, d: seq<Message>)
    ensures SpokenAll(a + b + c + d) == SpokenAll(a) + SpokenAll(b) + (SpokenAll(c) + SpokenAll(d))
  {
    hide FlatMap;
    FlatMapAppend(a + b + c, d, Voice());
    FlatMapAppend(a + b, c, Voice());
    FlatMapAppend(a, b, Voice());
  }

  lemma EdgeSpoken(key: bool, up: bool, press: bool)
    ensures SpokenAll(OptSeq(if key then Some(Key(up)) else None)) ==
            if key then [PiLink.OnInputEvent(1, if up then 1 else 0)] else []
    ensures SpokenAll(OptSeq(if press then Some(Press) else None)) == if press then [PiLink.OnInputEvent(2, 1)] else []
  {
    FlatMapOne(Key(up), Voice());
    FlatMapOne(Press, Voice());
  }

  /** The heartbeat clock of the machine. */
  lemma {:induction false} ClockFollows(w: Runs.Wake, ins: seq<Input>)
    ensures Run(w, ins).lastTxHb == BeatClock(ins).0 && Run(w, ins).hbSeq == BeatClock(ins).1 % 256
  {
    if ins == [] {
      return;
    }
    hide Step, OneLoop;
    var n := |ins| - 1;
    ClockFollows(w, ins[..n]);
    StepBeats(Run(w, ins[..n]), ins[n], BeatClock(ins[..n]));
  }

  lemma StepBeats(m: Machine, i: Input, clock: (nat, nat))
    requires m.lastTxHb == clock.0 && m.hbSeq == clock.1 % 256
    ensures Step(m, i).lastTxHb == OneLoop(clock, i.now).0 && Step(m, i).hbSeq == OneLoop(clock, i.now).1 % 256
  {
    StepTakesBeat(m, i);
    hide Step;
    IncModulo(clock.1, m.hbSeq);
  }

  lemma StepTakesBeat(m: Machine, i: Input)
    ensures (Step(m, i).hbSeq, Step(m, i).lastTxHb) == AfterBeat(m.hbSeq, m.lastTxHb, i.now)
  {
  }

  lemma BeatHeard(sn: byte, last: nat, now: nat)
    ensures Heard(BeatAt(sn, last, now)) == if now - last >= 200_000 then [PiLink.OnHeartbeatRx(sn)] else []
  {
    FlatMapOne(Ipc.Frame(0x03, sn, [sn]), CallsOf());
  }

  /**
   * Over every run, the callbacks that the frames sent lead to are exactly the run's reports:
   * each radio frame with address, type and payload, each announced key level and button press,
   * and the numbered heartbeats, in the order of the loop.
   */
  lemma {:induction false} RunIsHeard(w: Runs.Wake, ins: seq<Input>)
    ensures Heard(Sent(w, ins)) == Told(w, ins)
  {
    if ins == [] {
      return;
    }
    hide UsbOut, Run, TelemetryCalls, PanelCalls, BeatCalls, TelemetryIn, FlatMap;
    var n := |ins| - 1;
    RunIsHeard(w, ins[..n]);
    IterationHeard(w, ins);
    FlatMapAppend(Sent(w, ins[..n]), UsbOut(Run(w, ins[..n]), ins[n]), CallsOf());
    ToldGrows(w, ins);
  }

  lemma ToldGrows(w: Runs.Wake, ins: seq<Input>)
    requires ins != []
    ensures var n := |ins| - 1;
            Told(w, ins) ==
            Told(w, ins[..n]) +
            (TelemetryCalls(TelemetryIn(Run(w, ins[..n]), ins[n])) + PanelCalls(w, ins, n) + BeatCalls(ins, n))
  {
    hide Run, TelemetryIn, TelemetryCalls, PanelCalls, BeatCalls;
  }

  lemma IterationHeard(w: Runs.Wake, ins: seq<Input>)
    requires ins != []
    ensures var n := |ins| - 1;
            Heard(UsbOut(Run(w, ins[..n]), ins[n])) ==
            TelemetryCalls(TelemetryIn(Run(w, ins[..n]), ins[n])) + PanelCalls(w, ins, n) + BeatCalls(ins, n)
  {
    var n := |ins| - 1;
    var m, i := Run(w, ins[..n]), ins[n];
    KeyEventsAreDebounced(w, ins, n);
    ClockFollows(w, ins[..n]);
    hide Run, Messages, Numbered, BeatAt, TelemetryIn, TelemetryCalls, KeyFires, PressFires, Heard, SpokenAll;
    NumberedHeard(Messages(m, i), m.txSeq);
    MessagesSpoken(m, i);
    BeatHeard(m.hbSeq, m.lastTxHb, i.now);
    FlatMapAppend(Numbered(Messages(m, i), m.txSeq), BeatAt(m.hbSeq, m.lastTxHb, i.now), CallsOf());
  }

  // ----- the heartbeats' cadence ------------------------------------------------------------------

  lemma {:induction false} ClockBound(ins: seq<Input>, d: nat, k: nat)
    requires Clocked(ins, d) && k < |ins|
    ensures BeatClock(ins[..k + 1]).0 <= ins[k].now && ins[k].now - BeatClock(ins[..k + 1]).0 < 200_000
    ensures BeatsAt(ins, k) ==> BeatClock(ins[..k + 1]).0 == ins[k].now
  {
    assert ins[..k + 1][..k] == ins[..k];
    if k > 0 {
      ClockBound(ins, d, k - 1);
    }
  }

  lemma {:induction false} ClockClimbs(ins: seq<Input>, i: nat, k: nat)
    requires i <= k <= |ins| && forall a, b :: 0 <= a <= b < |ins| ==> ins[a].now <= ins[b].now
    requires i > 0 ==> BeatClock(ins[..i]).0 <= ins[i - 1].now
    ensures BeatClock(ins[..i]).0 <= BeatClock(ins[..k]).0
    ensures k > 0 ==> BeatClock(ins[..k]).0 <= ins[k - 1].now
  {
    if i < k {
      assert ins[..k][..k - 1] == ins[..k - 1];
      ClockClimbs(ins, i, k - 1);
    }
  }

  /** Heartbeats to the Pi leave at least 200 ms apart. */
  lemma BeatsApart(ins: seq<Input>, d: nat, i: nat, k: nat)
    requires Clocked(ins, d) && i < k < |ins| && BeatsAt(ins, i) && BeatsAt(ins, k)
    ensures ins[k].now - ins[i].now >= 200_000
  {
    ClockBound(ins, d, i);
    ClockClimbs(ins, i + 1, k);
  }

  /** And no 200 ms pass without one. */
  lemma {:induction false} BeatsKeepUp(ins: seq<Input>, d: nat, i: nat, k: nat)
    requires Clocked(ins, d) && i < k < |ins| && ins[k].now - ins[i].now >= 200_000
    ensures exists j :: i < j <= k && BeatsAt(ins, j)
  {
    ClockBound(ins, d, i);
    ClockBound(ins, d, k);
    hide BeatClock;
    if !exists j :: i < j <= k && BeatsAt(ins, j) {
      assert forall j :: i + 1 <= j < k + 1 ==> !BeatsAt(ins, j);
      NoBeatNoChange(ins, i + 1, k + 1);
    }
  }

  lemma {:induction false} NoBeatNoChange(ins: seq<Input>, i: nat, k: nat)
    requires i <= k <= |ins| && forall j :: i <= j < k ==> !BeatsAt(ins, j)
    ensures BeatClock(ins[..k]) == BeatClock(ins[..i])
  {
    if i < k {
      assert ins[..k][..k - 1] == ins[..k - 1] && !BeatsAt(ins, k - 1);
      NoBeatNoChange(ins, i, k - 1);
    }
  }

  // ----- the telemetry tunnel, over whole runs ------------------------------------------------------

  /** All bytes the loop takes from the radio. */
  function RadioBytes(ins: seq<Input>): seq<byte> {
    if ins == [] then [] else RadioBytes(ins[..|ins| - 1]) + Taken(ins[|ins| - 1].crsfReady)
  }

  /** What the tee makes of a callback. */
  function Tee(): PiLink.Call -> seq<byte> {
    (c: PiLink.Call) =>
      if c.OnTelemetry? && CrsfTee.Rebuild(c.payload).Some? then CrsfTee.Rebuild(c.payload).value else []
  }

  function TeeAll(cs: seq<PiLink.Call>): seq<byte> { FlatMap(cs, Tee()) }

  lemma TelemetryAppend(a: seq<CrsfRx.Telemetry>, b: seq<CrsfRx.Telemetry>)
    ensures TelemetryCalls(a + b) == TelemetryCalls(a) + TelemetryCalls(b)
  {
  }

  lemma {:induction false} OthersSilent(cs: seq<PiLink.Call>)
    requires forall c :: c in cs ==> !c.OnTelemetry?
    ensures TeeAll(cs) == []
  {
    if cs != [] {
      assert cs[|cs| - 1] in cs;
      OthersSilent(cs[..|cs| - 1]);
    }
  }

  lemma PanelSilent(w: Runs.Wake, ins: seq<Input>, k: nat)
    requires k < |ins|
    ensures TeeAll(PanelCalls(w, ins, k) + BeatCalls(ins, k)) == []
  {
    hide ArmEvent, PressEvent, BeatsAt, BeatClock, TeeAll, KeySamples, ButtonSamples;
    OthersSilent(PanelCalls(w, ins, k) + BeatCalls(ins, k));
  }

  /** The tee sees the radio's frames, however the loop cut the stream and whatever else it sent. */
  lemma {:induction false} TeeFollowsRadio(w: Runs.Wake, ins: seq<Input>)
    ensures Run(w, ins).crsfRx == CrsfRx.RxRun(CrsfRx.WaitAddr, RadioBytes(ins))
    ensures TeeAll(Told(w, ins)) == TeeAll(TelemetryCalls(CrsfRx.RxFrames(CrsfRx.WaitAddr, RadioBytes(ins))))
  {
    if ins == [] {
      return;
    }
    var n := |ins| - 1;
    var m, bytes, more := Run(w, ins[..n]), RadioBytes(ins[..n]), Taken(ins[n].crsfReady);
    TeeFollowsRadio(w, ins[..n]);
    CrsfRx.RxAppend(CrsfRx.WaitAddr, bytes, more);
    var before, now := CrsfRx.RxFrames(CrsfRx.WaitAddr, bytes), TelemetryIn(m, ins[n]);
    assert CrsfRx.RxFrames(CrsfRx.WaitAddr, RadioBytes(ins)) == before + now;
    RadioStep(w, ins);
    PanelSilent(w, ins, n);
    ToldGrows(w, ins);
    TeeGrows(Told(w, ins[..n]), before, now, PanelCalls(w, ins, n), BeatCalls(ins, n));
  }

  lemma RadioStep(w: Runs.Wake, ins: seq<Input>)
    requires ins != []
    ensures var n := |ins| - 1;
            Run(w, ins).crsfRx == CrsfRx.RxRun(Run(w, ins[..n]).crsfRx, Taken(ins[n].crsfReady))
  {
  }

  lemma TeeGrows(told: seq<PiLink.Call>, before: seq<CrsfRx.Telemetry>, now: seq<CrsfRx.Telemetry>,
                 panel: seq<PiLink.Call>, beat: seq<PiLink.Call>)
    requires TeeAll(told) == TeeAll(TelemetryCalls(before)) && TeeAll(panel + beat) == []
    ensures TeeAll(told + (TelemetryCalls(now) + panel + beat)) == TeeAll(TelemetryCalls(before + now))
  {
    hide FlatMap, TelemetryCalls;
    TelemetryAppend(before, now);
    Regroup(TelemetryCalls(now), panel, beat);
    FlatMapAppend(told, TelemetryCalls(now) + (panel + beat), Tee());
    FlatMapAppend(TelemetryCalls(now), panel + beat, Tee());
    FlatMapAppend(TelemetryCalls(before), TelemetryCalls(now), Tee());
  }

  lemma {:induction false} BurstsTeed(bs: seq<CrsfRx.Burst>)
    requires forall b :: b in bs ==> CrsfRx.BurstOk(b)
    ensures TeeAll(TelemetryCalls(CrsfRx.CarriedAll(bs))) == CrsfTee.Clean(bs)
  {
    if bs != [] {
      assert CrsfRx.BurstOk(bs[0]);
      BurstsTeed(bs[1..]);
      var first := CrsfRx.Carried(bs[0].frame);
      CrsfTee.RebuildInvertsStrip(bs[0].frame);
      FlatMapOne(TelemetryCall(first), Tee());
      assert TelemetryCalls([first]) == [TelemetryCall(first)];
      TelemetryAppend([first], CrsfRx.CarriedAll(bs[1..]));
      FlatMapAppend([TelemetryCall(first)], TelemetryCalls(CrsfRx.CarriedAll(bs[1..])), Tee());
    }
  }

  lemma LogSilent(f: Ipc.Frame)
    requires f.kind == MSG_LOG
    ensures TeeAll(Heard([f])) == []
  {
    FlatMapOne(f, CallsOf());
    FlatMapOne(PiLink.OnLog(f.payload), Tee());
  }

  lemma TeeHeardNext(fs: seq<Ipc.Frame>, f: Ipc.Frame)
    ensures TeeAll(Heard(fs + [f])) == TeeAll(Heard(fs)) + TeeAll(Heard([f]))
  {
    hide FlatMap;
    FlatMapAppend(fs, [f], CallsOf());
    FlatMapAppend(Heard(fs), Heard([f]), Tee());
  }

  lemma WithoutLogsNext(fs: seq<Ipc.Frame>, f: Ipc.Frame)
    ensures WithoutLogs(fs + [f]) == WithoutLogs(fs) + if f.kind == MSG_LOG then [] else [f]
  {
    assert (fs + [f])[..|fs|] == fs;
  }

  lemma LogNext(fs: seq<Ipc.Frame>, f: Ipc.Frame)
    requires TeeAll(Heard(fs)) == TeeAll(Heard(WithoutLogs(fs)))
    ensures TeeAll(Heard(fs + [f])) == TeeAll(Heard(WithoutLogs(fs + [f])))
  {
    hide *;
    TeeHeardNext(fs, f);
    WithoutLogsNext(fs, f);
    if f.kind == MSG_LOG {
      LogSilent(f);
      assert WithoutLogs(fs) + [] == WithoutLogs(fs);
      assert TeeAll(Heard(fs)) + [] == TeeAll(Heard(fs));
    } else {
      TeeHeardNext(WithoutLogs(fs), f);
    }
  }

  lemma NothingWithoutLogs()
    ensures WithoutLogs([]) == []
  {
  }

  lemma {:induction false} LogsNotTeed(fs: seq<Ipc.Frame>)
    ensures TeeAll(Heard(fs)) == TeeAll(Heard(WithoutLogs(fs)))
  {
    hide *;
    if fs == [] {
      NothingWithoutLogs();
    } else {
      var n := |fs| - 1;
      LogsNotTeed(fs[..n]);
      LogNext(fs[..n], fs[n]);
      assert fs == fs[..n] + [fs[n]];
    }
  }

  /**
   * The telemetry tunnel over a whole run of the firmware: if the radio's bytes are valid frames
   * with noise between them, then what the tee sends out, from the bytes on the USB wire, read by
   * the daemon in any parser state after any garbage and with log lines in between, is those
   * frames byte for byte.
   */
  lemma TunnelOverRun(w: Runs.Wake, ins: seq<Input>, bs: seq<CrsfRx.Burst>, written: seq<Ipc.Frame>,
                      st: Ipc.RxState, garbage: seq<byte>)
    requires (forall b :: b in bs ==> CrsfRx.BurstOk(b)) && RadioBytes(ins) == CrsfRx.Transmitted(bs)
    requires (forall f :: f in written ==> Ipc.Sendable(f)) && WithoutLogs(written) == Sent(w, ins)
    ensures var before := Ipc.FeedFrames(Ipc.Daemon, st, garbage + [0]);
            var got := Ipc.FeedFrames(Ipc.Daemon, st, garbage + [0] + Ipc.WireAll(written));
            before <= got && TeeAll(Heard(got[|before|..])) == CrsfTee.Clean(bs)
  {
    hide FlatMap, Told, Sent, Heard, TeeAll;
    PiReadsTheRun(w, ins, written, st, garbage);
    var before := Ipc.FeedFrames(Ipc.Daemon, st, garbage + [0]);
    var got := Ipc.FeedFrames(Ipc.Daemon, st, garbage + [0] + Ipc.WireAll(written));
    LogsNotTeed(got[|before|..]);
    RunIsHeard(w, ins);
    TeeFollowsRadio(w, ins);
    CrsfRx.BurstsDelivered(bs);
    BurstsTeed(bs);
  }

  // ----- the handshake ----------------------------------------------------------------------------

  function OfKind(kind: byte): Ipc.Frame -> bool { (f: Ipc.Frame) => f.kind == kind }

  /** An acknowledgement that opens the daemon's gate: protocol version 4 and three zeros in front. */
  predicate Acknowledges(f: Ipc.Frame) { f.kind == 0x11 && |f.payload| >= 4 && f.payload[..4] == [4, 0, 0, 0] }

  lemma {:induction false} AcksCount(fs: seq<Ipc.Frame>)
    ensures |Acks(fs)| == |Kept(fs, OfKind(0x10))| && forall m :: m in Acks(fs) ==> m == HelloAck
  {
    if fs != [] {
      AcksCount(fs[..|fs| - 1]);
    }
  }

  lemma OnlyAcksAnswer(m: Message, sn: byte)
    ensures if m == HelloAck then Acknowledges(Framed(m, sn)) else Framed(m, sn).kind != 0x11
  {
    if m == HelloAck {
      assert HelloPayload(4)[..4] == [4, 0, 0, 0];
    }
  }

  lemma KindNone(fs: seq<Ipc.Frame>, kind: byte)
    requires forall f :: f in fs ==> f.kind != kind
    ensures Kept(fs, OfKind(kind)) == []
  {
    KeptNone(fs, OfKind(kind));
  }

  lemma KindAll(fs: seq<Ipc.Frame>, kind: byte)
    requires forall f :: f in fs ==> f.kind == kind
    ensures Kept(fs, OfKind(kind)) == fs
  {
    KeptAll(fs, OfKind(kind));
  }

  lemma NumberedMember(ms: seq<Message>, sn: byte, f: Ipc.Frame)
    requires f in Numbered(ms, sn)
    ensures exists m, b :: m in ms && f == Framed(m, b)
  {
    hide Framed, Advance;
    var k :| 0 <= k < |ms| && Numbered(ms, sn)[k] == f;
    assert ms[k] in ms && f == Framed(ms[k], Advance(sn, k));
  }

  lemma NoneKept(ms: seq<Message>, sn: byte)
    requires forall m :: m in ms ==> m != HelloAck
    ensures Kept(Numbered(ms, sn), OfKind(0x11)) == []
  {
    hide *;
    forall f | f in Numbered(ms, sn)
      ensures f.kind != 0x11
    {
      NumberedMember(ms, sn, f);
      var m, b :| m in ms && f == Framed(m, b);
      OnlyAcksAnswer(m, b);
    }
    KindNone(Numbered(ms, sn), 0x11);
  }

  lemma AllKept(ms: seq<Message>, sn: byte)
    requires forall m :: m in ms ==> m == HelloAck
    ensures Kept(Numbered(ms, sn), OfKind(0x11)) == Numbered(ms, sn)
    ensures forall f :: f in Numbered(ms, sn) ==> Acknowledges(f)
  {
    forall f | f in Numbered(ms, sn)
      ensures Acknowledges(f)
    {
      hide *;
      NumberedMember(ms, sn, f);
      var m, b :| m in ms && f == Framed(m, b);
      OnlyAcksAnswer(m, b);
    }
    hide Kept, Numbered, OfKind;
    KindAll(Numbered(ms, sn), 0x11);
  }

  lemma {:induction false} RelaysAreRelays(ts: seq<CrsfRx.Telemetry>)
    ensures forall m :: m in Relays(ts) ==> m.Relay?
  {
    if ts != [] {
      RelaysAreRelays(ts[..|ts| - 1]);
    }
  }

  lemma IterationAnswers(m: Machine, i: Input)
    ensures var answers := Kept(UsbOut(m, i), OfKind(0x11));
            && |answers| == |Kept(FramesIn(m, i), OfKind(0x10))|
            && forall f :: f in answers ==> Acknowledges(f)
  {
    hide *;
    AcksCount(FramesIn(m, i));
    RestIsNoAck(m, i);
    BeatIsNoAnswer(m.hbSeq, m.lastTxHb, i.now);
    OnlyAnswers(Acks(FramesIn(m, i)), Rest(m, i), m.txSeq, BeatAt(m.hbSeq, m.lastTxHb, i.now));
    UsbOutParts(m, i);
  }

  /** An iteration's messages but for the acknowledgements. */
  function Rest(m: Machine, i: Input): seq<Message> {
    Relays(TelemetryIn(m, i)) + (if KeyFires(m, i) then [Key(i.keyUp)] else []) +
    (if PressFires(m, i) then [Press] else [])
  }

  lemma UsbOutParts(m: Machine, i: Input)
    ensures UsbOut(m, i) ==
            Numbered(Acks(FramesIn(m, i)) + Rest(m, i), m.txSeq) + BeatAt(m.hbSeq, m.lastTxHb, i.now)
  {
    hide Acks, Relays, KeyFires, PressFires, Numbered, BeatAt, FramesIn, TelemetryIn;
    assert Messages(m, i) == Acks(FramesIn(m, i)) + Rest(m, i);
  }

  lemma RestIsNoAck(m: Machine, i: Input)
    ensures forall x :: x in Rest(m, i) ==> x != HelloAck
  {
    RelaysAreRelays(TelemetryIn(m, i));
    hide Relays, KeyFires, PressFires, TelemetryIn;
  }

  lemma OnlyAnswers(acks: seq<Message>, rest: seq<Message>, sn: byte, beat: seq<Ipc.Frame>)
    requires (forall x :: x in acks ==> x == HelloAck) && (forall x :: x in rest ==> x != HelloAck)
    requires Kept(beat, OfKind(0x11)) == []
    ensures var answers := Kept(Numbered(acks + rest, sn) + beat, OfKind(0x11));
            |answers| == |acks| && forall f :: f in answers ==> Acknowledges(f)
  {
    AllKept(acks, sn);
    NoneKept(rest, Advance(sn, |acks|));
    hide Acknowledges, Kept;
    NumberedAppend(acks, rest, sn);
    KeptAppend(Numbered(acks, sn), Numbered(rest, Advance(sn, |acks|)), OfKind(0x11));
    KeptAppend(Numbered(acks + rest, sn), beat, OfKind(0x11));
  }

  lemma BeatIsNoAnswer(sn: byte, last: nat, now: nat)
    ensures Kept(BeatAt(sn, last, now), OfKind(0x11)) == []
  {
    var b := BeatAt(sn, last, now);
    assert b != [] ==> b[..0] == [];
  }

  /** Over every run: as many acknowledgements as hellos, and each of them opens the daemon's gate. */
  lemma {:induction false} HellosAnswered(w: Runs.Wake, ins: seq<Input>)
    ensures var answers := Kept(Sent(w, ins), OfKind(0x11));
            && |answers| == |Kept(Handled(w, ins), OfKind(0x10))|
            && forall f :: f in answers ==> Acknowledges(f)
  {
    if ins == [] {
      return;
    }
    hide UsbOut, FramesIn, Run, Kept, Acknowledges;
    var n := |ins| - 1;
    var m, i := Run(w, ins[..n]), ins[n];
    HellosAnswered(w, ins[..n]);
    IterationAnswers(m, i);
    KeptAppend(Sent(w, ins[..n]), UsbOut(m, i), OfKind(0x11));
    KeptAppend(Handled(w, ins[..n]), FramesIn(m, i), OfKind(0x10));
  }

  /** So one hello that gets through is enough: the daemon that dispatches the run's frames opens its gate. */
  lemma HandshakeCompletes(version: seq<byte>, w: Runs.Wake, ins: seq<Input>)
    requires Kept(Handled(w, ins), OfKind(0x10)) != []
    ensures PiLink.Run(version, Received(Sent(w, ins))).hsOk
  {
    HellosAnswered(w, ins);
    AnswerOpens(version, Sent(w, ins));
  }

  lemma AnswerOpens(version: seq<byte>, sent: seq<Ipc.Frame>)
    requires Kept(sent, OfKind(0x11)) != [] && forall f :: f in Kept(sent, OfKind(0x11)) ==> Acknowledges(f)
    ensures PiLink.Run(version, Received(sent)).hsOk
  {
    var f := Kept(sent, OfKind(0x11))[0];
    KeptMembers(sent, OfKind(0x11));
    assert Acknowledges(f) && f in sent;
    assert f.payload[0] == f.payload[..4][0];
    var k :| 0 <= k < |sent| && sent[k] == f;
    assert Received(sent)[k] == PiLink.Receive(f) && PiLink.Greets(PiLink.Receive(f));
    PiLink.GateKept(version, Received(sent));
  }
}
