/**
 * The RP2040 main loop (firmware/crsf/src/main.c) over all its modules: one method per part of
 * an iteration, proved against one step function, and the theorems about whole runs carried
 * over to the bytes that enter and leave the chip.
 */
module Firmware {
  import opened Bytes
  import opened Link
  import opened Inputs
  import opened Panel
  import opened Failsafe
  import Ipc
  import CrsfRx
  import CrsfPack
  import CrsfTee

  const MSG_HELLO: byte := 0x10
  const MSG_HELLO_ACK: byte := 0x11
  const DRAIN_LIMIT := 256
  const HEARTBEAT_PERIOD_US := 200_000

  /** build_hello_payload: protocol version 4, three reserved zeros, "zerotx-fw m1.8-wdt". */
  function HelloPayload(proto: byte): (p: seq<byte>)
    ensures |p| == 22
  {
    [proto, 0, 0, 0, 122, 101, 114, 111, 116, 120, 45, 102, 119, 32, 109, 49, 46, 56, 45, 119, 100, 116]
  }

  // ----- one iteration, as a function -------------------------------------------------------

  /** Everything the outside world contributes to one iteration. */
  datatype Input = Input(now: nat, usb: bool, ready: seq<byte>, crsfReady: seq<byte>, keyUp: bool, pressed: bool)

  datatype Machine = Machine(sys: Sys, arm: Arm, momentary: Momentary, ipcRx: Ipc.RxState, crsfRx: CrsfRx.Rx,
                             txSeq: byte, hbSeq: byte, lastTxHb: nat)

  function Boot(keyUp: bool, pressed: bool): Machine {
    Machine(BootSys(), ArmInit(keyUp), MomentaryInit(pressed), Ipc.IDLE, CrsfRx.WaitAddr, 0, 0, 0)
  }

  /** At most 256 of the ready bytes are read in one iteration. */
  function Taken(ready: seq<byte>): (taken: seq<byte>)
    ensures taken <= ready && |taken| == if |ready| < 256 then |ready| else 256
  {
    ready[..Min(|ready|, DRAIN_LIMIT)]
  }

  function FramesIn(m: Machine, i: Input): seq<Ipc.Frame> {
    Ipc.FeedFrames(Ipc.Firmware, m.ipcRx, Taken(i.ready))
  }

  function TelemetryIn(m: Machine, i: Input): seq<CrsfRx.Telemetry> {
    CrsfRx.RxFrames(m.crsfRx, Taken(i.crsfReady))
  }

  function Receipts(fs: seq<Ipc.Frame>): seq<Event> {
    if fs == [] then [] else Receipts(fs[..|fs| - 1]) + [Received(fs[|fs| - 1])]
  }

  predicate KeyFires(m: Machine, i: Input) { ArmFires(m.arm, Sample(i.now, i.keyUp)) }

  predicate PressFires(m: Machine, i: Input) { MomentaryFires(m.momentary, Sample(i.now, i.pressed)) }

  /** The events of an iteration, in the order the loop produces them. */
  function TurnOf(m: Machine, i: Input): Turn {
    Turn(i.now, (if i.usb then [UsbReady] else []) + Receipts(FramesIn(m, i)) +
                (if KeyFires(m, i) then [KeyEdge(i.keyUp)] else []))
  }

  /** The numbered IPC frames an iteration sends, before they get their numbers. */
  datatype Message = HelloAck | Relay(t: CrsfRx.Telemetry) | Key(up: bool) | Press

  function Framed(m: Message, sn: byte): Ipc.Frame {
    match m
    case HelloAck => Ipc.Frame(MSG_HELLO_ACK, sn, HelloPayload(4))
    case Relay(t) => Ipc.Frame(CrsfTee.MSG_TELEMETRY, sn, CrsfTee.Strip(t))
    case Key(up) => Ipc.Frame(MSG_INPUT_EVENT, sn, KeyPayload(up))
    case Press => Ipc.Frame(MSG_INPUT_EVENT, sn, PRESS_PAYLOAD)
  }

  /** A HELLO is answered at once. */
  function AckOf(f: Ipc.Frame): seq<Message> {
    if f.kind == MSG_HELLO then [HelloAck] else []
  }

  function Acks(fs: seq<Ipc.Frame>): seq<Message> {
    if fs == [] then [] else Acks(fs[..|fs| - 1]) + AckOf(fs[|fs| - 1])
  }

  function Relays(ts: seq<CrsfRx.Telemetry>): seq<Message> {
    if ts == [] then [] else Relays(ts[..|ts| - 1]) + [Relay(ts[|ts| - 1])]
  }

  function Messages(m: Machine, i: Input): seq<Message> {
    Acks(FramesIn(m, i)) + Relays(TelemetryIn(m, i)) +
    (if KeyFires(m, i) then [Key(i.keyUp)] else []) +
    (if PressFires(m, i) then [Press] else [])
  }

  /** The sequence number n messages later. */
  function Advance(sn: byte, n: nat): byte {
    if n == 0 then sn else Inc8(Advance(sn, n - 1))
  }

  lemma {:induction false} AdvanceAdd(sn: byte, a: nat, n: nat)
    ensures Advance(sn, a + n) == Advance(Advance(sn, a), n)
  {
    if n > 0 {
      AdvanceAdd(sn, a, n - 1);
    }
  }

  /** A counter of C type uint8_t. */
  lemma {:induction false} AdvanceModulo(sn: byte, n: nat)
    ensures Advance(sn, n) == (sn + n) % 256
  {
    if n > 0 {
      AdvanceModulo(sn, n - 1);
      IncModulo(sn + n - 1, Advance(sn, n - 1));
    }
  }

  lemma IncModulo(x: nat, r: byte)
    requires r == x % 256
    ensures Inc8(r) == (x + 1) % 256
  {
  }

  /** Consecutive sequence numbers from `sn`, wrapping at 256. */
  function Numbered(ms: seq<Message>, sn: byte): seq<Ipc.Frame> {
    seq(|ms|, k requires 0 <= k < |ms| => Framed(ms[k], Advance(sn, k)))
  }

  /** The loop's own heartbeat to the Pi, due every 200 ms; it has its own sequence numbers. */
  predicate BeatDue(lastTxHb: nat, now: nat) { now - lastTxHb >= HEARTBEAT_PERIOD_US }

  function BeatAt(hbSeq: byte, lastTxHb: nat, now: nat): seq<Ipc.Frame> {
    if BeatDue(lastTxHb, now) then [Ipc.Frame(MSG_HEARTBEAT, hbSeq, [hbSeq])] else []
  }

  function AfterBeat(hbSeq: byte, lastTxHb: nat, now: nat): (byte, nat) {
    if BeatDue(lastTxHb, now) then (Inc8(hbSeq), now) else (hbSeq, lastTxHb)
  }

  function Ticked(c: Core, now: nat): Core { c.(link := TickLink(c.link, now)) }

  predicate RcDue(c: Core, lastCrsf: nat, now: nat) {
    Emitting(c.link.phase) && now - lastCrsf >= CRSF_PERIOD_US
  }

  function LastCrsfAfter(c: Core, lastCrsf: nat, now: nat): nat {
    if RcDue(c, lastCrsf, now) then now else lastCrsf
  }

  /** The RC frame for the UART, if one is due. */
  function RcOut(c: Core, lastCrsf: nat, now: nat): Option<seq<byte>> {
    if RcDue(c, lastCrsf, now) then Some(CrsfPack.RcFrame(c.link.channels)) else None
  }

  function Step(m: Machine, i: Input): Machine {
    var beat := AfterBeat(m.hbSeq, m.lastTxHb, i.now);
    Machine(Next(m.sys, TurnOf(m, i)),
            ArmStep(m.arm, Sample(i.now, i.keyUp)),
            MomentaryStep(m.momentary, Sample(i.now, i.pressed)),
            Ipc.FeedStates(m.ipcRx, Taken(i.ready)),
            CrsfRx.RxRun(m.crsfRx, Taken(i.crsfReady)),
            Advance(m.txSeq, |Messages(m, i)|),
            beat.0, beat.1)
  }

  /** The RC frame written to the UART, if this iteration writes one. */
  function UartOut(m: Machine, i: Input): Option<seq<byte>> {
    RcOut(TurnCore(m.sys.core, TurnOf(m, i)), m.sys.lastCrsf, i.now)
  }

  /** The IPC frames written to USB. */
  function UsbOut(m: Machine, i: Input): seq<Ipc.Frame> {
    Numbered(Messages(m, i), m.txSeq) + BeatAt(m.hbSeq, m.lastTxHb, i.now)
  }

  // ----- how the pieces of an iteration's output add up ---------------------------------------

  lemma NumberedAppend(a: seq<Message>, b: seq<Message>, sn: byte)
    ensures Numbered(a + b, sn) == Numbered(a, sn) + Numbered(b, Advance(sn, |a|))
  {
    hide Framed, Advance;
    var l, r := Numbered(a + b, sn), Numbered(a, sn) + Numbered(b, Advance(sn, |a|));
    forall k | 0 <= k < |l|
      ensures l[k] == r[k]
    {
      if k >= |a| {
        AdvanceAdd(sn, |a|, k - |a|);
      }
    }
  }

  /** What the loop's stages hand on: the flight-critical state, the frames sent, the next number. */
  datatype Traffic = Traffic(core: Core, sent: seq<Ipc.Frame>, txSeq: byte)

  function Say(t: Traffic, ms: seq<Message>): Traffic {
    t.(sent := t.sent + Numbered(ms, t.txSeq), txSeq := Advance(t.txSeq, |ms|))
  }

  lemma SayNothing(t: Traffic)
    ensures Say(t, []) == t
  {
    var none: seq<Message> := [];
    assert Numbered(none, t.txSeq) == [];
    assert t.sent + Numbered(none, t.txSeq) == t.sent;
  }

  lemma SayOne(t: Traffic, m: Message)
    ensures Say(t, [m]) == t.(sent := t.sent + [Framed(m, t.txSeq)], txSeq := Inc8(t.txSeq))
  {
    var one := [m];
    assert Advance(t.txSeq, 0) == t.txSeq;
    assert Numbered(one, t.txSeq) == [Framed(m, t.txSeq)];
  }

  lemma SayAppend(t: Traffic, a: seq<Message>, b: seq<Message>)
    ensures Say(Say(t, a), b) == Say(t, a + b)
  {
    hide Framed, Advance;
    NumberedAppend(a, b, t.txSeq);
    AdvanceAdd(t.txSeq, |a|, |b|);
    var n := Numbered(b, Advance(t.txSeq, |a|));
    assert t.sent + Numbered(a, t.txSeq) + n == t.sent + (Numbered(a, t.txSeq) + n);
  }

  /** Sending does not read the flight-critical state. */
  lemma SayCommutes(t: Traffic, ms: seq<Message>, core: Core)
    ensures Say(t, ms).(core := core) == Say(t.(core := core), ms)
    ensures Say(t, ms).core == t.core
  {
  }

  /** handle_frame */
  function HandleFrame(t: Traffic, f: Ipc.Frame, now: nat): Traffic {
    Say(t.(core := Handle(t.core, f, now)), AckOf(f))
  }

  /** A batch of received frames: first the state they leave, then the replies they draw. */
  function HandleAll(t: Traffic, fs: seq<Ipc.Frame>, now: nat): Traffic {
    Say(t.(core := ApplyAll(t.core, Receipts(fs), now)), Acks(fs))
  }

  lemma HandleNone(t: Traffic, now: nat)
    ensures HandleAll(t, [], now) == t
  {
    SayNothing(t);
  }

  lemma HandleSnoc(t: Traffic, fs: seq<Ipc.Frame>, f: Ipc.Frame, now: nat)
    ensures HandleAll(t, fs + [f], now) == HandleFrame(HandleAll(t, fs, now), f, now)
  {
    SnocFrame(fs, f);
    ReceiptApplied(t.core, Receipts(fs), f, now);
    var c := ApplyAll(t.core, Receipts(fs), now);
    SayCommutes(t.(core := c), Acks(fs), Handle(c, f, now));
    SayAppend(t.(core := Handle(c, f, now)), Acks(fs), AckOf(f));
  }

  lemma OneMoreByte(t: Traffic, st: Ipc.RxState, s: seq<byte>, i: nat, frame: Option<Ipc.Frame>, now: nat)
    requires i < |s| && frame == Ipc.FeedFrame(Ipc.Firmware, Ipc.FeedStates(st, s[..i]), s[i])
    ensures Ipc.FeedStates(st, s[..i + 1]) == Ipc.FeedState(Ipc.FeedStates(st, s[..i]), s[i])
    ensures var t' := HandleAll(t, Ipc.FeedFrames(Ipc.Firmware, st, s[..i]), now);
            HandleAll(t, Ipc.FeedFrames(Ipc.Firmware, st, s[..i + 1]), now) ==
            if frame.Some? then HandleFrame(t', frame.value, now) else t'
  {
    Ipc.FeedNext(Ipc.Firmware, st, s, i);
    if frame.Some? {
      HandleSnoc(t, Ipc.FeedFrames(Ipc.Firmware, st, s[..i]), frame.value, now);
    }
  }

  lemma SnocFrame(fs: seq<Ipc.Frame>, f: Ipc.Frame)
    ensures Receipts(fs + [f]) == Receipts(fs) + [Received(f)]
    ensures Acks(fs + [f]) == Acks(fs) + AckOf(f)
  {
    assert (fs + [f])[..|fs|] == fs;
  }

  lemma ReceiptApplied(core: Core, es: seq<Event>, f: Ipc.Frame, now: nat)
    ensures ApplyAll(core, es + [Received(f)], now) == Handle(ApplyAll(core, es, now), f, now)
  {
    assert (es + [Received(f)])[..|es|] == es;
  }

  lemma RelaysSnoc(t: Traffic, ts: seq<CrsfRx.Telemetry>, i: nat)
    requires i < |ts|
    ensures Say(Say(t, Relays(ts[..i])), [Relay(ts[i])]) == Say(t, Relays(ts[..i + 1]))
  {
    assert ts[..i + 1][..i] == ts[..i];
    SayAppend(t, Relays(ts[..i]), [Relay(ts[i])]);
  }

  /** input_arm_poll: the override acts, then the event goes out. */
  function KeyStage(t: Traffic, fires: bool, up: bool, now: nat): Traffic {
    if fires then Say(t.(core := Apply(t.core, KeyEdge(up), now)), [Key(up)]) else t
  }

  /** input_momentary_poll */
  function PressStage(t: Traffic, fires: bool): Traffic {
    if fires then Say(t, [Press]) else t
  }

  function UsbStage(t: Traffic, usb: bool, now: nat): Traffic {
    if usb then t.(core := Apply(t.core, UsbReady, now)) else t
  }

  /** USB and CRSF input: what is received is handled, what the radio reports is relayed. */
  function SerialStage(t: Traffic, ipcRx: Ipc.RxState, crsfRx: CrsfRx.Rx, i: Input): Traffic {
    var frames := Ipc.FeedFrames(Ipc.Firmware, ipcRx, Taken(i.ready));
    Say(HandleAll(UsbStage(t, i.usb, i.now), frames, i.now), Relays(CrsfRx.RxFrames(crsfRx, Taken(i.crsfReady))))
  }

  function PanelStage(t: Traffic, arm: Arm, momentary: Momentary, i: Input): Traffic {
    PressStage(KeyStage(t, ArmFires(arm, Sample(i.now, i.keyUp)), i.keyUp, i.now),
               MomentaryFires(momentary, Sample(i.now, i.pressed)))
  }

  /** Everything an iteration does before state_tick. */
  function Stages(t: Traffic, m: Machine, i: Input): Traffic {
    PanelStage(SerialStage(t, m.ipcRx, m.crsfRx, i), m.arm, m.momentary, i)
  }

  lemma {:induction false} ApplyAppend(c: Core, a: seq<Event>, b: seq<Event>, now: nat)
    ensures ApplyAll(c, a + b, now) == ApplyAll(ApplyAll(c, a, now), b, now)
  {
    if b == [] {
      assert a + b == a;
    } else {
      var n := |b| - 1;
      assert (a + b)[..|a| + n] == a + b[..n];
      ApplyAppend(c, a, b[..n], now);
    }
  }

  lemma ApplyOne(c: Core, e: Event, now: nat)
    ensures ApplyAll(c, [e], now) == Apply(c, e, now)
  {
    assert [e][..0] == [];
  }

  lemma KeyStageSays(t: Traffic, ms: seq<Message>, fires: bool, up: bool, now: nat)
    ensures var core := if fires then Apply(t.core, KeyEdge(up), now) else t.core;
            KeyStage(Say(t, ms), fires, up, now) == Say(t.(core := core), ms + if fires then [Key(up)] else [])
  {
    if fires {
      var core := Apply(t.core, KeyEdge(up), now);
      SayCommutes(t, ms, core);
      SayAppend(t.(core := core), ms, [Key(up)]);
    } else {
      assert ms + [] == ms;
    }
  }

  lemma PressStageSays(t: Traffic, ms: seq<Message>, fires: bool)
    ensures PressStage(Say(t, ms), fires) == Say(t, ms + if fires then [Press] else [])
  {
    if fires {
      SayAppend(t, ms, [Press]);
    } else {
      assert ms + [] == ms;
    }
  }

  /** The stages together apply the iteration's events and send its messages, numbered in one go. */
  lemma StagesTogether(t: Traffic, m: Machine, i: Input)
    ensures Stages(t, m, i) == Say(t.(core := ApplyAll(t.core, TurnOf(m, i).events, i.now)), Messages(m, i))
  {
    var usb, rs := if i.usb then [UsbReady] else [], Receipts(FramesIn(m, i));
    var key := if KeyFires(m, i) then [KeyEdge(i.keyUp)] else [];
    var c1 := if i.usb then Apply(t.core, UsbReady, i.now) else t.core;
    var c2 := ApplyAll(c1, rs, i.now);
    var c3 := if KeyFires(m, i) then Apply(c2, KeyEdge(i.keyUp), i.now) else c2;
    assert c3 == ApplyAll(t.core, usb + rs + key, i.now) by {
      ApplyOne(t.core, UsbReady, i.now);
      ApplyOne(c2, KeyEdge(i.keyUp), i.now);
      ApplyAppend(t.core, usb, rs, i.now);
      ApplyAppend(t.core, usb + rs, key, i.now);
    }
    var acks, relays := Acks(FramesIn(m, i)), Relays(TelemetryIn(m, i));
    SayAppend(t.(core := c2), acks, relays);
    KeyStageSays(t.(core := c2), acks + relays, KeyFires(m, i), i.keyUp, i.now);
    PressStageSays(t.(core := c3), acks + relays + (if KeyFires(m, i) then [Key(i.keyUp)] else []), PressFires(m, i));
  }

  /** The machine an iteration leaves, put together from what its stages left in `t`. */
  function Assembled(m: Machine, i: Input, t: Traffic): Machine {
    var core := Ticked(t.core, i.now);
    var beat := AfterBeat(m.hbSeq, m.lastTxHb, i.now);
    Machine(Sys(core, LastCrsfAfter(core, m.sys.lastCrsf, i.now)),
            ArmStep(m.arm, Sample(i.now, i.keyUp)),
            MomentaryStep(m.momentary, Sample(i.now, i.pressed)),
            Ipc.FeedStates(m.ipcRx, Taken(i.ready)),
            CrsfRx.RxRun(m.crsfRx, Taken(i.crsfReady)),
            t.txSeq, beat.0, beat.1)
  }

  lemma StagesMakeStep(m: Machine, i: Input, sent: seq<Ipc.Frame>)
    ensures var t := Stages(Traffic(m.sys.core, sent, m.txSeq), m, i);
            && Assembled(m, i, t) == Step(m, i)
            && RcOut(Ticked(t.core, i.now), m.sys.lastCrsf, i.now) == UartOut(m, i)
            && t.sent + BeatAt(m.hbSeq, m.lastTxHb, i.now) == sent + UsbOut(m, i)
  {
    StagesTogether(Traffic(m.sys.core, sent, m.txSeq), m, i);
    ClosedMakesStep(m, i, sent, Messages(m, i));
  }

  lemma ClosedMakesStep(m: Machine, i: Input, sent: seq<Ipc.Frame>, ms: seq<Message>)
    requires ms == Messages(m, i)
    ensures var core := ApplyAll(m.sys.core, TurnOf(m, i).events, i.now);
            var t := Say(Traffic(core, sent, m.txSeq), ms);
            && Assembled(m, i, t) == Step(m, i)
            && RcOut(Ticked(t.core, i.now), m.sys.lastCrsf, i.now) == UartOut(m, i)
            && t.sent + BeatAt(m.hbSeq, m.lastTxHb, i.now) == sent + UsbOut(m, i)
  {
    SayParts(Traffic(m.sys.core, sent, m.txSeq), ApplyAll(m.sys.core, TurnOf(m, i).events, i.now), ms);
    TickEndsTurn(m.sys, TurnOf(m, i));
    Regroup(sent, Numbered(ms, m.txSeq), BeatAt(m.hbSeq, m.lastTxHb, i.now));
  }

  lemma SayParts(t: Traffic, core: Core, ms: seq<Message>)
    ensures Say(t.(core := core), ms) == Traffic(core, t.sent + Numbered(ms, t.txSeq), Advance(t.txSeq, |ms|))
  {
  }

  lemma TickEndsTurn(s: Sys, t: Turn)
    ensures var core := Ticked(ApplyAll(s.core, t.events, t.now), t.now);
            TurnCore(s.core, t) == core && Next(s, t) == Sys(core, LastCrsfAfter(core, s.lastCrsf, t.now))
  {
  }
}
