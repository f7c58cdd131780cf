/**
 * Whole runs of the RP2040 firmware, from the bytes that enter to the bytes that leave: what
 * the USB stream makes it do, what the Pi reads back, and what the flight controller gets.
 */
module Runs {
  import opened Bytes
  import opened Link
  import opened Inputs
  import opened Failsafe
  import opened Firmware
  import Provenance
  import Ipc
  import CrsfRx
  import CrsfPack

  /** The panel levels read by the init calls. */
  datatype Wake = Wake(keyUp: bool, pressed: bool)

  /** The machine after the iterations `ins`, from power-on. */
  function Run(w: Wake, ins: seq<Input>): Machine {
    if ins == [] then Boot(w.keyUp, w.pressed) else Step(Run(w, ins[..|ins| - 1]), ins[|ins| - 1])
  }

  /** The loop clock never runs backwards, and no iteration takes longer than d. */
  predicate Clocked(ins: seq<Input>, d: nat) {
    (forall i, j :: 0 <= i <= j < |ins| ==> ins[i].now <= ins[j].now) &&
    (forall i, j :: 0 <= i < |ins| && j == i + 1 < |ins| ==> ins[j].now - ins[i].now <= d)
  }

  lemma RunSnoc(w: Wake, ins: seq<Input>, k: nat)
    requires k < |ins|
    ensures ins[..k + 1][..k] == ins[..k]
    ensures Run(w, ins[..k + 1]) == Step(Run(w, ins[..k]), ins[k])
  {
    assert ins[..k + 1][..k] == ins[..k];
  }

  // ----- the bytes from the Pi ---------------------------------------------------------------

  /** All bytes the loop takes from USB. */
  function UsbBytes(ins: seq<Input>): seq<byte> {
    if ins == [] then [] else UsbBytes(ins[..|ins| - 1]) + Taken(ins[|ins| - 1].ready)
  }

  /** All frames it handles. */
  function Handled(w: Wake, ins: seq<Input>): seq<Ipc.Frame> {
    if ins == [] then []
    else
      var n := |ins| - 1;
      Handled(w, ins[..n]) + FramesIn(Run(w, ins[..n]), ins[n])
  }

  /** How the bytes were spread over iterations plays no part in which frames are handled. */
  lemma {:induction false} HandledFromStream(w: Wake, ins: seq<Input>)
    ensures Run(w, ins).ipcRx == Ipc.FeedStates(Ipc.IDLE, UsbBytes(ins))
    ensures Handled(w, ins) == Ipc.FeedFrames(Ipc.Firmware, Ipc.IDLE, UsbBytes(ins))
  {
    if ins != [] {
      var n := |ins| - 1;
      HandledFromStream(w, ins[..n]);
      Ipc.FeedAppend(Ipc.Firmware, Ipc.IDLE, UsbBytes(ins[..n]), Taken(ins[n].ready));
    }
  }

  /** After any garbage and one delimiter, the firmware handles exactly the frames the Pi sends, in order. */
  lemma CommandsArrive(w: Wake, ins: seq<Input>, garbage: seq<byte>, fs: seq<Ipc.Frame>)
    requires forall f :: f in fs ==> Ipc.Sendable(f)
    requires UsbBytes(ins) == garbage + [0] + Ipc.WireAll(fs)
    ensures Handled(w, ins) == Ipc.FeedFrames(Ipc.Firmware, Ipc.IDLE, garbage + [0]) + fs
    ensures Run(w, ins).ipcRx == Ipc.IDLE
  {
    HandledFromStream(w, ins);
    Ipc.StreamDelivery(Ipc.Firmware, Ipc.IDLE, garbage, fs);
  }

  // ----- the bytes to the Pi -------------------------------------------------------------------

  /** All IPC frames sent. */
  function Sent(w: Wake, ins: seq<Input>): seq<Ipc.Frame> {
    if ins == [] then []
    else
      var n := |ins| - 1;
      Sent(w, ins[..n]) + UsbOut(Run(w, ins[..n]), ins[n])
  }

  function Said(w: Wake, ins: seq<Input>): seq<Message> {
    if ins == [] then []
    else
      var n := |ins| - 1;
      Said(w, ins[..n]) + Messages(Run(w, ins[..n]), ins[n])
  }

  /** Whether a frame is a heartbeat, or is none. */
  function BeatTest(beats: bool): Ipc.Frame -> bool { (f: Ipc.Frame) => (f.kind == MSG_HEARTBEAT) == beats }

  /** The frames that are heartbeats, or those that are not. */
  function Select(fs: seq<Ipc.Frame>, beats: bool): seq<Ipc.Frame> { Kept(fs, BeatTest(beats)) }

  lemma {:induction false} SelectUniform(fs: seq<Ipc.Frame>, beats: bool)
    requires forall f :: f in fs ==> (f.kind == MSG_HEARTBEAT) == beats
    ensures Select(fs, beats) == fs && Select(fs, !beats) == []
  {
    if fs != [] {
      var n := |fs| - 1;
      SelectUniform(fs[..n], beats);
      assert fs[n] in fs && fs[..n] + [fs[n]] == fs;
    }
  }

  /** n heartbeats, numbered from 0 and carrying their number. */
  function Beats(n: nat): seq<Ipc.Frame> {
    seq(n, k requires 0 <= k < n => Ipc.Frame(MSG_HEARTBEAT, Advance(0, k), [Advance(0, k)]))
  }

  lemma SelectSplit(a: seq<Ipc.Frame>, b: seq<Ipc.Frame>)
    requires (forall f :: f in a ==> f.kind != MSG_HEARTBEAT) && (forall f :: f in b ==> f.kind == MSG_HEARTBEAT)
    ensures Select(a + b, false) == a && Select(a + b, true) == b
  {
    KeptAppend(a, b, BeatTest(false));
    KeptAppend(a, b, BeatTest(true));
    SelectUniform(a, false);
    SelectUniform(b, true);
    assert a + [] == a && [] + b == b;
  }

  lemma OneIterationSplit(m: Machine, i: Input)
    ensures Select(UsbOut(m, i), false) == Numbered(Messages(m, i), m.txSeq)
    ensures Select(UsbOut(m, i), true) == BeatAt(m.hbSeq, m.lastTxHb, i.now)
  {
    NoMessageIsABeat(Messages(m, i), m.txSeq);
    SelectSplit(Numbered(Messages(m, i), m.txSeq), BeatAt(m.hbSeq, m.lastTxHb, i.now));
  }

  lemma NoMessageIsABeat(ms: seq<Message>, sn: byte)
    ensures forall f :: f in Numbered(ms, sn) ==> f.kind != MSG_HEARTBEAT
  {
  }

  lemma StepTakesNumbers(m: Machine, i: Input)
    ensures Step(m, i).txSeq == Advance(m.txSeq, |Messages(m, i)|)
  {
  }

  /** The next number is that of the count of messages so far. */
  lemma {:induction false} TxSeqCounts(w: Wake, ins: seq<Input>)
    ensures Run(w, ins).txSeq == Advance(0, |Said(w, ins)|)
  {
    hide Step, Messages;
    if ins != [] {
      var n := |ins| - 1;
      TxSeqCounts(w, ins[..n]);
      StepTakesNumbers(Run(w, ins[..n]), ins[n]);
      AdvanceAdd(0, |Said(w, ins[..n])|, |Messages(Run(w, ins[..n]), ins[n])|);
    }
  }

  /**
   * Numbering over a whole run: everything but heartbeats (and log lines, which are not modelled
   * here) carries the numbers 0, 1, 2, ... modulo 256 without gap, whichever module sent it.
   */
  lemma {:induction false} MessageNumbers(w: Wake, ins: seq<Input>)
    ensures Select(Sent(w, ins), false) == Numbered(Said(w, ins), 0)
  {
    if ins == [] {
      return;
    }
    hide Step, Messages, UsbOut, Numbered, Select, Advance;
    var n := |ins| - 1;
    var m, i := Run(w, ins[..n]), ins[n];
    MessageNumbers(w, ins[..n]);
    TxSeqCounts(w, ins[..n]);
    OneIterationSplit(m, i);
    Longer(Sent(w, ins[..n]), UsbOut(m, i), Said(w, ins[..n]), Messages(m, i), m.txSeq);
  }

  /** So the k-th such frame of a run carries k modulo 256. */
  lemma MessageNumber(w: Wake, ins: seq<Input>, k: nat)
    requires k < |Said(w, ins)|
    ensures |Select(Sent(w, ins), false)| == |Said(w, ins)|
    ensures Select(Sent(w, ins), false)[k] == Framed(Said(w, ins)[k], k % 256)
  {
    hide Said, Sent, Select, Framed;
    MessageNumbers(w, ins);
    AdvanceModulo(0, k);
  }

  /** Heartbeats have a sequence of their own. */
  lemma {:induction false} BeatNumbers(w: Wake, ins: seq<Input>)
    ensures var n := |Select(Sent(w, ins), true)|;
            Select(Sent(w, ins), true) == Beats(n) && Run(w, ins).hbSeq == Advance(0, n)
  {
    if ins != [] {
      var n := |ins| - 1;
      var m, i := Run(w, ins[..n]), ins[n];
      BeatNumbers(w, ins[..n]);
      OneIterationSplit(m, i);
      LongerBeats(Sent(w, ins[..n]), UsbOut(m, i), m.hbSeq, m.lastTxHb, i.now);
    }
  }

  lemma Longer(sent: seq<Ipc.Frame>, more: seq<Ipc.Frame>, said: seq<Message>, ms: seq<Message>, sn: byte)
    requires Select(sent, false) == Numbered(said, 0) && sn == Advance(0, |said|)
    requires Select(more, false) == Numbered(ms, sn)
    ensures Select(sent + more, false) == Numbered(said + ms, 0)
    ensures Select(sent + more, true) == Select(sent, true) + Select(more, true)
  {
    KeptAppend(sent, more, BeatTest(false));
    KeptAppend(sent, more, BeatTest(true));
    NumberedAppend(said, ms, 0);
  }

  lemma LongerBeats(sent: seq<Ipc.Frame>, more: seq<Ipc.Frame>, hbSeq: byte, lastTxHb: nat, now: nat)
    requires Select(sent, true) == Beats(|Select(sent, true)|) && hbSeq == Advance(0, |Select(sent, true)|)
    requires Select(more, true) == BeatAt(hbSeq, lastTxHb, now)
    ensures Select(sent + more, true) == Beats(|Select(sent + more, true)|)
    ensures AfterBeat(hbSeq, lastTxHb, now).0 == Advance(0, |Select(sent + more, true)|)
  {
    KeptAppend(sent, more, BeatTest(true));
    OneMoreBeat(Select(sent, true), Select(sent + more, true), hbSeq, lastTxHb, now);
  }

  lemma OneMoreBeat(beats: seq<Ipc.Frame>, beats': seq<Ipc.Frame>, hbSeq: byte, lastTxHb: nat, now: nat)
    requires beats == Beats(|beats|) && hbSeq == Advance(0, |beats|)
    requires beats' == beats + BeatAt(hbSeq, lastTxHb, now)
    ensures beats' == Beats(|beats'|) && AfterBeat(hbSeq, lastTxHb, now).0 == Advance(0, |beats'|)
  {
  }

  /** Every frame the loop sends fits the IPC limit, so none is refused. */
  lemma {:induction false} AllSendable(w: Wake, ins: seq<Input>)
    ensures forall f :: f in Sent(w, ins) ==> Ipc.Sendable(f)
  {
    if ins != [] {
      var n := |ins| - 1;
      AllSendable(w, ins[..n]);
      RadioParserOk(w, ins[..n]);
      IterationSendable(Run(w, ins[..n]), ins[n]);
    }
  }

  lemma {:induction false} RadioParserOk(w: Wake, ins: seq<Input>)
    ensures CrsfRx.RxOk(Run(w, ins).crsfRx)
  {
    if ins != [] {
      var n := |ins| - 1;
      RadioParserOk(w, ins[..n]);
      CrsfRx.RxRunOk(Run(w, ins[..n]).crsfRx, Taken(ins[n].crsfReady));
    }
  }

  predicate Short(m: Message) { m.Relay? ==> |m.t.payload| <= CrsfRx.RX_MAX - 4 }

  lemma {:induction false} RelaysShort(ts: seq<CrsfRx.Telemetry>)
    requires forall t :: t in ts ==> |t.payload| <= CrsfRx.RX_MAX - 4
    ensures forall m :: m in Relays(ts) ==> Short(m)
  {
    if ts != [] {
      var n := |ts| - 1;
      assert ts[n] in ts;
      RelaysShort(ts[..n]);
    }
  }

  lemma {:induction false} AcksShort(fs: seq<Ipc.Frame>)
    ensures forall m :: m in Acks(fs) ==> Short(m)
  {
    if fs != [] {
      AcksShort(fs[..|fs| - 1]);
    }
  }

  lemma ShortSendable(ms: seq<Message>, sn: byte)
    requires forall m :: m in ms ==> Short(m)
    ensures forall f :: f in Numbered(ms, sn) ==> Ipc.Sendable(f)
  {
    forall k | 0 <= k < |ms|
      ensures Ipc.Sendable(Framed(ms[k], Advance(sn, k)))
    {
      assert ms[k] in ms;
    }
  }

  lemma IterationSendable(m: Machine, i: Input)
    requires CrsfRx.RxOk(m.crsfRx)
    ensures forall f :: f in UsbOut(m, i) ==> Ipc.Sendable(f)
  {
    CrsfRx.TelemetryFits(m.crsfRx, Taken(i.crsfReady));
    RelaysShort(TelemetryIn(m, i));
    AcksShort(FramesIn(m, i));
    ShortSendable(Messages(m, i), m.txSeq);
  }

  const MSG_LOG: byte := 0x14

  function NoLog(): Ipc.Frame -> bool { (f: Ipc.Frame) => f.kind != MSG_LOG }

  /** Log lines travel as frames of their own; they take no sequence number. */
  function WithoutLogs(fs: seq<Ipc.Frame>): seq<Ipc.Frame> { Kept(fs, NoLog()) }

  /**
   * The Pi's view: from any parser state, after any garbage and one delimiter, and with log
   * frames anywhere in between, the daemon gets exactly what the firmware sent; without the
   * heartbeats, that is one gapless numbered list.
   */
  lemma PiReadsTheRun(w: Wake, ins: seq<Input>, written: seq<Ipc.Frame>, st: Ipc.RxState, garbage: seq<byte>)
    requires (forall f :: f in written ==> Ipc.Sendable(f)) && WithoutLogs(written) == Sent(w, ins)
    ensures var before := Ipc.FeedFrames(Ipc.Daemon, st, garbage + [0]);
            var got := Ipc.FeedFrames(Ipc.Daemon, st, garbage + [0] + Ipc.WireAll(written));
            && before <= got && WithoutLogs(got[|before|..]) == Sent(w, ins)
            && Select(WithoutLogs(got[|before|..]), false) == Numbered(Said(w, ins), 0)
  {
    MessageNumbers(w, ins);
    Ipc.StreamDelivery(Ipc.Daemon, st, garbage, written);
    var before := Ipc.FeedFrames(Ipc.Daemon, st, garbage + [0]);
    assert (before + written)[|before|..] == written;
  }

  // ----- the panel --------------------------------------------------------------------------

  function KeySamples(ins: seq<Input>): seq<Sample> {
    seq(|ins|, k requires 0 <= k < |ins| => Sample(ins[k].now, ins[k].keyUp))
  }

  function ButtonSamples(ins: seq<Input>): seq<Sample> {
    seq(|ins|, k requires 0 <= k < |ins| => Sample(ins[k].now, ins[k].pressed))
  }

  lemma LastSamples(ins: seq<Input>)
    requires ins != []
    ensures var n := |ins| - 1;
            && KeySamples(ins) == KeySamples(ins[..n]) + [Sample(ins[n].now, ins[n].keyUp)]
            && ButtonSamples(ins) == ButtonSamples(ins[..n]) + [Sample(ins[n].now, ins[n].pressed)]
  {
  }

  lemma {:induction false} KeyFollowsSamples(w: Wake, ins: seq<Input>)
    ensures Run(w, ins).arm == ArmAfter(w.keyUp, KeySamples(ins))
  {
    if ins == [] {
      return;
    }
    hide Step, ArmStep, Run, ArmAfter, KeySamples, ButtonSamples;
    var n, ss := |ins| - 1, KeySamples(ins);
    KeyFollowsSamples(w, ins[..n]);
    LastIteration(w, ins);
    LastSamples(ins);
    ArmAfterSnoc(w.keyUp, ss, |ss| - 1);
  }

  lemma {:induction false} ButtonFollowsSamples(w: Wake, ins: seq<Input>)
    ensures Run(w, ins).momentary == MomentaryAfter(w.pressed, ButtonSamples(ins))
  {
    if ins == [] {
      return;
    }
    hide Step, MomentaryStep, Run, MomentaryAfter, KeySamples, ButtonSamples;
    var n, ss := |ins| - 1, ButtonSamples(ins);
    ButtonFollowsSamples(w, ins[..n]);
    LastIteration(w, ins);
    LastSamples(ins);
    MomentaryAfterSnoc(w.pressed, ss, |ss| - 1);
  }

  lemma LastIteration(w: Wake, ins: seq<Input>)
    requires ins != []
    ensures var m, i := Run(w, ins[..|ins| - 1]), ins[|ins| - 1];
            && Run(w, ins).arm == ArmStep(m.arm, Sample(i.now, i.keyUp))
            && Run(w, ins).momentary == MomentaryStep(m.momentary, Sample(i.now, i.pressed))
  {
  }

  /** The loop announces a key level exactly when the debouncer's history calls for it. */
  lemma KeyEventsAreDebounced(w: Wake, ins: seq<Input>, k: nat)
    requires k < |ins|
    ensures KeyFires(Run(w, ins[..k]), ins[k]) <==> ArmEvent(w.keyUp, KeySamples(ins), k)
    ensures PressFires(Run(w, ins[..k]), ins[k]) <==> PressEvent(w.pressed, ButtonSamples(ins), k)
  {
    KeyFollowsSamples(w, ins[..k]);
    ButtonFollowsSamples(w, ins[..k]);
    assert KeySamples(ins)[..k] == KeySamples(ins[..k]);
    assert ButtonSamples(ins)[..k] == ButtonSamples(ins[..k]);
  }

  /** Two key announcements, and so two chances of an override, are at least 20 ms apart. */
  lemma KeyEventsApart(w: Wake, ins: seq<Input>, d: nat, i: nat, k: nat)
    requires Clocked(ins, d) && i < k < |ins|
    requires KeyFires(Run(w, ins[..i]), ins[i]) && KeyFires(Run(w, ins[..k]), ins[k])
    ensures ins[k].now - ins[i].now >= 20_000
  {
    KeyEventsAreDebounced(w, ins, i);
    KeyEventsAreDebounced(w, ins, k);
    ArmEventsApart(w.keyUp, KeySamples(ins), i, k);
  }

  /** Two presses are at least 40 ms apart. */
  lemma PressEventsApart(w: Wake, ins: seq<Input>, d: nat, i: nat, k: nat)
    requires Clocked(ins, d) && i < k < |ins|
    requires PressFires(Run(w, ins[..i]), ins[i]) && PressFires(Run(w, ins[..k]), ins[k])
    ensures ins[k].now - ins[i].now >= 40_000
  {
    KeyEventsAreDebounced(w, ins, i);
    KeyEventsAreDebounced(w, ins, k);
    PressesApart(w.pressed, ButtonSamples(ins), i, k);
  }

  /** The key has read as at power-on in every iteration up to and including k. */
  predicate Unmoved(w: Wake, ins: seq<Input>, k: nat)
    requires k < |ins|
  {
    forall j :: 0 <= j <= k ==> ins[j].keyUp == w.keyUp
  }

  predicate FirstAfter20ms(ins: seq<Input>, k: nat)
    requires k < |ins|
  {
    ins[k].now >= 20_000 && forall j :: 0 <= j < k ==> ins[j].now < 20_000
  }

  /**
   * The announcement at boot is no edge: a key that has not moved is reported, and run through
   * the override, by the first iteration 20 ms or more after power-on, and by no other.
   */
  lemma BootAnnouncesUnmovedKey(w: Wake, ins: seq<Input>, k: nat)
    requires k < |ins| && Unmoved(w, ins, k)
    ensures KeyFires(Run(w, ins[..k]), ins[k]) <==> FirstAfter20ms(ins, k)
    ensures FirstAfter20ms(ins, k) ==> KeyEdge(w.keyUp) in TurnOf(Run(w, ins[..k]), ins[k]).events
  {
    KeyEventsAreDebounced(w, ins, k);
    UnmovedEvent(w.keyUp, KeySamples(ins), k);
    assert forall j :: 0 <= j <= k ==> KeySamples(ins)[j].now == ins[j].now;
  }

  // ----- the bytes to the flight controller ---------------------------------------------------

  /** The run, seen by the failsafe module. */
  function Turns(w: Wake, ins: seq<Input>): seq<Turn> {
    seq(|ins|, k requires 0 <= k < |ins| => TurnOf(Run(w, ins[..k]), ins[k]))
  }

  lemma {:induction false} RunFollowsTurns(w: Wake, ins: seq<Input>)
    ensures Run(w, ins).sys == After(Turns(w, ins))
  {
    if ins != [] {
      var n := |ins| - 1;
      RunFollowsTurns(w, ins[..n]);
      TurnsPrefix(w, ins, n);
    }
  }

  lemma TurnsPrefix(w: Wake, ins: seq<Input>, k: nat)
    requires k <= |ins|
    ensures Turns(w, ins)[..k] == Turns(w, ins[..k])
  {
    forall j | 0 <= j < k
      ensures Turns(w, ins)[j] == Turns(w, ins[..k])[j]
    {
      assert ins[..k][..j] == ins[..j];
    }
  }

  /** What iteration k writes to the flight controller's UART. */
  function WireOut(w: Wake, ins: seq<Input>, k: nat): Option<seq<byte>>
    requires k < |ins|
  {
    UartOut(Run(w, ins[..k]), ins[k])
  }

  lemma WireOutIsEmission(w: Wake, ins: seq<Input>, k: nat)
    requires k < |ins|
    ensures var ts := Turns(w, ins);
            && (WireOut(w, ins, k).Some? <==> EmitsAt(ts, k))
            && (EmitsAt(ts, k) ==> WireOut(w, ins, k).value == CrsfPack.RcFrame(Provenance.EmittedChannels(ts, k)))
  {
    TurnsPrefix(w, ins, k);
    RunFollowsTurns(w, ins[..k]);
  }

  lemma ClockedIsPaced(w: Wake, ins: seq<Input>, d: nat)
    requires Clocked(ins, d)
    ensures Paced(Turns(w, ins), d)
  {
  }

  /** Iteration j handled a heartbeat or channel intent. */
  predicate BeatIn(w: Wake, ins: seq<Input>, j: nat)
    requires j < |ins|
  {
    exists f :: f in FramesIn(Run(w, ins[..j]), ins[j]) && IsBeat(f)
  }

  lemma {:induction false} ReceiptsOf(fs: seq<Ipc.Frame>, e: Event)
    requires e in Receipts(fs)
    ensures e.Received? && e.f in fs
  {
    if fs != [] {
      var n := |fs| - 1;
      if e != Received(fs[n]) {
        ReceiptsOf(fs[..n], e);
      }
    }
  }

  lemma BeatTurnHasFrame(w: Wake, ins: seq<Input>, j: nat)
    requires j < |ins| && HasBeat(Turns(w, ins)[j])
    ensures BeatIn(w, ins, j)
  {
    var es := TurnOf(Run(w, ins[..j]), ins[j]).events;
    var k :| 0 <= k < |es| && es[k].Received? && IsBeat(es[k].f);
    ReceivedInTurn(Run(w, ins[..j]), ins[j], es[k]);
  }

  lemma ReceivedInTurn(m: Machine, i: Input, e: Event)
    requires e in TurnOf(m, i).events && e.Received?
    ensures e.f in FramesIn(m, i)
  {
    if e in Receipts(FramesIn(m, i)) {
      ReceiptsOf(FramesIn(m, i), e);
    }
  }

  lemma {:induction false} LastBeatHasBeat(ts: seq<Turn>, k: nat)
    requires k <= |ts| && LastBeatTurn(ts, k) >= 0
    ensures var j := LastBeatTurn(ts, k); j < k && HasBeat(ts[j])
  {
    if k > 0 && !HasBeat(ts[k - 1]) {
      LastBeatHasBeat(ts, k - 1);
    }
  }

  /**
   * The safety claim, from byte to byte: whatever enters the chip, the flight controller gets an
   * RC frame only within 800 ms plus one loop gap of an iteration that decoded a heartbeat or
   * intent from the USB stream.
   */
  lemma NoFrameWithoutPi(w: Wake, ins: seq<Input>, d: nat, k: nat)
    requires Clocked(ins, d) && k < |ins| && WireOut(w, ins, k).Some?
    ensures exists j :: 0 <= j <= k && BeatIn(w, ins, j) &&
                        ins[k].now - ins[j].now <= 800_000 + d
  {
    var ts := Turns(w, ins);
    WireOutIsEmission(w, ins, k);
    ClockedIsPaced(w, ins, d);
    EmissionIsRecent(ts, d, k);
    var j: int := LastBeatTurn(ts, k + 1);
    LastBeatHasBeat(ts, k + 1);
    BeatTurnHasFrame(w, ins, j);
  }

  /** RC frames leave at least 20 ms apart. */
  lemma FramesApart(w: Wake, ins: seq<Input>, d: nat, i: nat, k: nat)
    requires Clocked(ins, d) && i < k < |ins| && WireOut(w, ins, i).Some? && WireOut(w, ins, k).Some?
    ensures ins[k].now - ins[i].now >= 20_000
  {
    WireOutIsEmission(w, ins, i);
    WireOutIsEmission(w, ins, k);
    ClockedIsPaced(w, ins, d);
    EmissionsApart(Turns(w, ins), d, i, k);
  }

  // ----- the override, from key to wire ---------------------------------------------------------

  /** The flight-critical state that the key poll of this iteration meets. */
  function BeforeKey(m: Machine, i: Input): Core {
    ApplyAll(m.sys.core, (if i.usb then [UsbReady] else []) + Receipts(FramesIn(m, i)), i.now)
  }

  /** The key has just been announced down, at low throttle. */
  predicate Disarms(m: Machine, i: Input) {
    KeyFires(m, i) && Fires(BeforeKey(m, i).cfg, BeforeKey(m, i).link.channels, i.keyUp)
  }

  /** Nothing that could write a channel: no intent, no key-down. */
  predicate Quiet(m: Machine, i: Input) {
    (forall f :: f in FramesIn(m, i) ==> !IsIntent(f)) && !(KeyFires(m, i) && !i.keyUp)
  }

  lemma {:induction false} ConfigStaysOk(c: Core, es: seq<Event>, now: nat)
    requires ConfigOk(c.cfg)
    ensures ConfigOk(ApplyAll(c, es, now).cfg)
  {
    if es != [] {
      ConfigStaysOk(c, es[..|es| - 1], now);
    }
  }

  lemma {:induction false} RunConfigOk(w: Wake, ins: seq<Input>)
    ensures ConfigOk(Run(w, ins).sys.core.cfg)
  {
    if ins != [] {
      var n := |ins| - 1;
      RunConfigOk(w, ins[..n]);
      ConfigStaysOk(Run(w, ins[..n]).sys.core, TurnOf(Run(w, ins[..n]), ins[n]).events, ins[n].now);
    }
  }

  predicate Harmless(e: Event) {
    match e
    case UsbReady => true
    case Received(f) => !IsIntent(f)
    case KeyEdge(up) => up
  }

  lemma {:induction false} HarmlessKeepsChannels(c: Core, es: seq<Event>, now: nat)
    requires forall e :: e in es ==> Harmless(e)
    ensures ApplyAll(c, es, now).link.channels == c.link.channels
  {
    if es != [] {
      var n := |es| - 1;
      assert es[n] in es;
      HarmlessKeepsChannels(c, es[..n], now);
    }
  }

  lemma QuietIsHarmless(m: Machine, i: Input, e: Event)
    requires Quiet(m, i) && e in TurnOf(m, i).events
    ensures Harmless(e)
  {
    if e.Received? {
      ReceivedInTurn(m, i, e);
    } else if e.KeyEdge? && e in Receipts(FramesIn(m, i)) {
      ReceiptsOf(FramesIn(m, i), e);
    }
  }

  lemma QuietKeepsChannels(m: Machine, i: Input)
    requires Quiet(m, i)
    ensures AfterEvents(m, i).link.channels == m.sys.core.link.channels
  {
    forall e | e in TurnOf(m, i).events
      ensures Harmless(e)
    {
      QuietIsHarmless(m, i, e);
    }
    HarmlessKeepsChannels(m.sys.core, TurnOf(m, i).events, i.now);
  }

  function AfterEvents(m: Machine, i: Input): Core { ApplyAll(m.sys.core, TurnOf(m, i).events, i.now) }

  /** state_tick leaves the channels alone. */
  lemma StepChannels(m: Machine, i: Input)
    ensures Step(m, i).sys.core.link.channels == AfterEvents(m, i).link.channels
  {
    TickKeepsChannels(AfterEvents(m, i), i.now);
  }

  lemma DisarmWrites(m: Machine, i: Input)
    requires ConfigOk(m.sys.core.cfg) && Disarms(m, i)
    ensures var c := BeforeKey(m, i).cfg;
            ConfigOk(c) && AfterEvents(m, i).link.channels[c.armIdx] == c.disarm
  {
    var es := (if i.usb then [UsbReady] else []) + Receipts(FramesIn(m, i));
    ConfigStaysOk(m.sys.core, es, i.now);
    OverrideLast(m.sys.core, es, i.keyUp, i.now);
    assert TurnOf(m, i).events == es + [KeyEdge(i.keyUp)];
  }

  lemma OverrideLast(c: Core, es: seq<Event>, up: bool, now: nat)
    requires var b := ApplyAll(c, es, now); ConfigOk(b.cfg) && Fires(b.cfg, b.link.channels, up)
    ensures var b := ApplyAll(c, es, now);
            ApplyAll(c, es + [KeyEdge(up)], now).link.channels[b.cfg.armIdx] == b.cfg.disarm
  {
    assert (es + [KeyEdge(up)])[..|es|] == es;
  }

  /** The channel buffer at the emission check of iteration k. */
  function ChannelsOut(w: Wake, ins: seq<Input>, k: nat): Channels
    requires k < |ins|
  {
    AfterEvents(Run(w, ins[..k]), ins[k]).link.channels
  }

  lemma QuietIteration(w: Wake, ins: seq<Input>, k: nat)
    requires 0 < k < |ins| && Quiet(Run(w, ins[..k]), ins[k])
    ensures ChannelsOut(w, ins, k) == ChannelsOut(w, ins, k - 1)
  {
    RunSnoc(w, ins, k - 1);
    StepChannels(Run(w, ins[..k - 1]), ins[k - 1]);
    QuietKeepsChannels(Run(w, ins[..k]), ins[k]);
  }

  /** Quiet iterations leave the buffer as it was. */
  lemma {:induction false} QuietStretch(w: Wake, ins: seq<Input>, i: nat, k: nat)
    requires i <= k < |ins|
    requires forall j :: i < j <= k ==> Quiet(Run(w, ins[..j]), ins[j])
    ensures ChannelsOut(w, ins, k) == ChannelsOut(w, ins, i)
  {
    var chs := seq(|ins|, j requires 0 <= j < |ins| => ChannelsOut(w, ins, j));
    forall j | i < j <= k
      ensures chs[j] == chs[j - 1]
    {
      QuietIteration(w, ins, j);
    }
    Constant(chs, i, k);
  }

  lemma {:induction false} Constant<T>(s: seq<T>, i: nat, k: nat)
    requires i <= k < |s| && forall j :: i < j <= k ==> s[j] == s[j - 1]
    ensures s[k] == s[i]
  {
    if i < k {
      Constant(s, i, k - 1);
    }
  }

  lemma WireOutCarries(w: Wake, ins: seq<Input>, k: nat)
    requires k < |ins| && WireOut(w, ins, k).Some?
    ensures WireOut(w, ins, k).value == CrsfPack.RcFrame(ChannelsOut(w, ins, k))
  {
    UartCarries(Run(w, ins[..k]), ins[k]);
  }

  lemma UartCarries(m: Machine, i: Input)
    ensures UartOut(m, i).Some? ==> UartOut(m, i).value == CrsfPack.RcFrame(AfterEvents(m, i).link.channels)
  {
    TickKeepsChannels(AfterEvents(m, i), i.now);
  }

  lemma TickKeepsChannels(c: Core, now: nat)
    ensures Ticked(c, now).link.channels == c.link.channels
  {
  }

  /**
   * Key down at low throttle: from that very iteration on, every RC frame on the wire carries
   * the disarm value in the arm slot, until an intent or another key-down is handled.
   */
  lemma DisarmOnTheWire(w: Wake, ins: seq<Input>, i: nat, k: nat)
    requires i <= k < |ins| && Disarms(Run(w, ins[..i]), ins[i])
    requires forall j :: i < j <= k ==> Quiet(Run(w, ins[..j]), ins[j])
    requires WireOut(w, ins, k).Some?
    ensures var c, frame := BeforeKey(Run(w, ins[..i]), ins[i]).cfg, WireOut(w, ins, k).value;
            |frame| == 26 && ConfigOk(c) && CrsfPack.Unpack(frame[3..25], c.armIdx) == CrsfPack.Mask(c.disarm)
  {
    RunConfigOk(w, ins[..i]);
    DisarmWrites(Run(w, ins[..i]), ins[i]);
    QuietStretch(w, ins, i, k);
    WireOutCarries(w, ins, k);
    CrsfPack.RcPayload(ChannelsOut(w, ins, k));
    CrsfPack.UnpackPacked(ChannelsOut(w, ins, k), BeforeKey(Run(w, ins[..i]), ins[i]).cfg.armIdx);
  }

  // ----- the boot announcement at work ------------------------------------------------------------

  /**
   * Over whole runs, when a key that was down all along triggers a disarm write: in the first
   * iteration 20 ms or more after power-on, if the throttle slot is low then, and never else.
   */
  lemma UnmovedKeyDisarms(w: Wake, ins: seq<Input>, k: nat)
    requires k < |ins| && Unmoved(w, ins, k) && !w.keyUp
    ensures var c := BeforeKey(Run(w, ins[..k]), ins[k]);
            Disarms(Run(w, ins[..k]), ins[k]) <==>
            FirstAfter20ms(ins, k) && GetChannel(c.link.channels, c.cfg.thrIdx) <= c.cfg.threshold
  {
    BootAnnouncesUnmovedKey(w, ins, k);
  }

  /**
   * Exactly which disarm writes come without an edge of the settled key level: those of the first
   * announcement, when it tells that the key is down as it was at power-on.
   */
  lemma DisarmWithoutEdge(w: Wake, ins: seq<Input>, k: nat)
    requires k < |ins| && Disarms(Run(w, ins[..k]), ins[k])
    ensures Run(w, ins[..k]).arm.stable == ins[k].keyUp <==>
            !w.keyUp && forall j :: 0 <= j < k ==> !KeyFires(Run(w, ins[..j]), ins[j])
  {
    var ss := KeySamples(ins);
    forall j | 0 <= j <= k
      ensures KeyFires(Run(w, ins[..j]), ins[j]) <==> ArmEvent(w.keyUp, ss, j)
    {
      KeyEventsAreDebounced(w, ins, j);
    }
    EdgeExactly(w.keyUp, ss, k);
    KeyFollowsSamples(w, ins[..k]);
    assert ss[..k] == KeySamples(ins[..k]);
  }

  /** The first iteration: USB up, one channel intent received, the key where it was at power-on. */
  function FirstIntent(w: Wake, f: Ipc.Frame, now: nat): Input
    requires Ipc.Sendable(f)
  {
    Input(now, true, Ipc.WireAll([f]), [], w.keyUp, w.pressed)
  }

  lemma FirstIntentReceived(w: Wake, f: Ipc.Frame, now: nat)
    requires IsIntent(f)
    ensures FramesIn(Run(w, []), FirstIntent(w, f, now)) == [f]
  {
    Ipc.WireShape(f);
    var wire := Ipc.WireAll([f]);
    assert Ipc.WireAll([f][1..]) == [];
    assert |wire| <= DRAIN_LIMIT && wire[..|wire|] == wire;
    Ipc.FeedWireAll(Ipc.Firmware, [f]);
  }

  /** What that intent leaves before the key is polled. */
  lemma FirstIntentHandled(f: Ipc.Frame, now: nat)
    requires IsIntent(f) && now > 0
    ensures ApplyAll(BootCore(), [UsbReady] + Receipts([f]), now) ==
            Core(Link(OK, now, now, true, IntentOf(f)), DEFAULT_CONFIG)
  {
    hide IntentOf, BootChannels;
    assert Receipts([f]) == [Received(f)] by {
      assert [f][..0] == [];
    }
    ApplyOne(BootCore(), UsbReady, now);
    assert ([UsbReady] + [Received(f)])[..1] == [UsbReady];
  }

  lemma FirstIntentWorks(w: Wake, f: Ipc.Frame, now: nat)
    requires IsIntent(f) && now >= 20_000
    ensures var m, i := Run(w, []), FirstIntent(w, f, now);
            && KeyFires(m, i) && BeforeKey(m, i) == Core(Link(OK, now, now, true, IntentOf(f)), DEFAULT_CONFIG)
            && AfterEvents(m, i) == Apply(BeforeKey(m, i), KeyEdge(w.keyUp), now)
  {
    FirstIntentReceived(w, f, now);
    FirstIntentHandled(f, now);
    var es := [UsbReady] + Receipts([f]);
    assert TurnOf(Run(w, []), FirstIntent(w, f, now)).events == es + [KeyEdge(w.keyUp)];
    EventLast(BootCore(), es, KeyEdge(w.keyUp), now);
  }

  lemma EventLast(c: Core, es: seq<Event>, e: Event, now: nat)
    ensures ApplyAll(c, es + [e], now) == Apply(ApplyAll(c, es, now), e, now)
  {
    assert (es + [e])[..|es|] == es;
  }

  /** A link that has just heard its first beat emits. */
  lemma FreshLinkEmits(c: Core, now: nat)
    requires c.link.phase == OK && c.link.lastBeat == now >= 20_000
    ensures RcOut(Ticked(c, now), 0, now) == Some(CrsfPack.RcFrame(c.link.channels))
  {
    hide CrsfPack.RcFrame;
  }

  /**
   * A disarm write with no edge at work: the key has been down since power-on, the first iteration
   * 20 ms later receives a channel intent with low throttle, and the frame it sends carries that
   * intent with the arm slot overwritten.
   */
  lemma BootKeyOverwritesIntent(w: Wake, f: Ipc.Frame, now: nat)
    requires !w.keyUp && IsIntent(f) && IntentOf(f)[0] <= 200 && now >= 20_000
    ensures Disarms(Run(w, []), FirstIntent(w, f, now))
    ensures WireOut(w, [FirstIntent(w, f, now)], 0) == Some(CrsfPack.RcFrame(IntentOf(f)[4 := CH_MIN]))
  {
    FirstIntentWorks(w, f, now);
    FreshLinkEmits(AfterEvents(Run(w, []), FirstIntent(w, f, now)), now);
    FirstWireOut(w, FirstIntent(w, f, now));
  }

  lemma FirstWireOut(w: Wake, i: Input)
    ensures WireOut(w, [i], 0) == RcOut(Ticked(AfterEvents(Run(w, []), i), i.now), 0, i.now)
  {
    assert [i][..0] == [];
    TickEndsTurn(Run(w, []).sys, TurnOf(Run(w, []), i));
  }
}
