/**
 * From the Pi's channels to the flight controller's: what the daemon writes into an intent or an
 * arm configuration (module PiLink) is what the RP2040's RC frames carry, slot by slot.
 */
module Steering {
  import opened Bytes
  import opened Link
  import opened Failsafe
  import opened Firmware
  import opened Runs
  import CrsfPack
  import Ipc
  import PiLink

  /** A channel intent as the daemon builds it. */
  function IntentFrame(sn: byte, ch: seq<word>): Ipc.Frame { Ipc.Frame(0x01, sn, PiLink.IntentBytes(ch)) }

  /** The RP2040 reads the daemon's sixteen words back, each in its slot. */
  lemma IntentReadBack(sn: byte, ch: Channels)
    ensures IsIntent(IntentFrame(sn, ch)) && IntentOf(IntentFrame(sn, ch)) == ch
  {
    var f := IntentFrame(sn, ch);
    forall i | 0 <= i < 16
      ensures WordAt(f.payload, i) == ch[i]
    {
      LoHiOfWord(ch[i]);
    }
  }

  /** No intent among the frames, so that whichever came before stays the last one. */
  predicate NoIntent(fs: seq<Ipc.Frame>) { forall f :: f in fs ==> f.kind != 0x01 }

  lemma {:induction false} ReceiptsAppend(a: seq<Ipc.Frame>, b: seq<Ipc.Frame>)
    ensures Receipts(a + b) == Receipts(a) + Receipts(b)
  {
    if b == [] {
      assert a + b == a;
    } else {
      var n := |b| - 1;
      assert (a + b)[..|a| + n] == a + b[..n];
      ReceiptsAppend(a, b[..n]);
    }
  }

  lemma NoIntentHarmless(fs: seq<Ipc.Frame>)
    requires NoIntent(fs)
    ensures forall e :: e in Receipts(fs) ==> Harmless(e)
  {
    forall e | e in Receipts(fs)
      ensures Harmless(e)
    {
      ReceiptsOf(fs, e);
    }
  }

  /** Frames handled one after the other, of which `f` is the last intent. */
  lemma LastIntentCounts(c: Core, es: seq<Event>, f: Ipc.Frame, post: seq<Ipc.Frame>, now: nat)
    requires IsIntent(f) && NoIntent(post)
    ensures ApplyAll(c, es + [Received(f)] + Receipts(post), now).link.channels == IntentOf(f)
  {
    ApplyAppend(c, es + [Received(f)], Receipts(post), now);
    EventLast(c, es, Received(f), now);
    NoIntentHarmless(post);
    HarmlessKeepsChannels(ApplyAll(c, es + [Received(f)], now), Receipts(post), now);
  }

  /** The channel buffer that the key poll meets, in an iteration whose last intent is the daemon's `ch`. */
  lemma IntentBeforeKey(m: Machine, i: Input, pre: seq<Ipc.Frame>, sn: byte, ch: Channels, post: seq<Ipc.Frame>)
    requires FramesIn(m, i) == pre + [IntentFrame(sn, ch)] + post && NoIntent(post)
    ensures BeforeKey(m, i).link.channels == ch
  {
    var f := IntentFrame(sn, ch);
    var usb := if i.usb then [UsbReady] else [];
    IntentReadBack(sn, ch);
    ReceiptsAppend(pre + [f], post);
    SnocFrame(pre, f);
    hide FramesIn, Receipts, IntentOf, IntentFrame;
    EventsInOrder(usb, Receipts(pre), Received(f), Receipts(post));
    LastIntentCounts(m.sys.core, usb + Receipts(pre), f, post, i.now);
  }

  lemma EventsInOrder(usb: seq<Event>, a: seq<Event>, e: Event, b: seq<Event>)
    ensures usb + (a + [e] + b) == usb + a + [e] + b
  {
  }

  /** The key event, if there is one, comes last. */
  lemma AfterKey(m: Machine, i: Input)
    ensures AfterEvents(m, i) ==
            if KeyFires(m, i) then Apply(BeforeKey(m, i), KeyEdge(i.keyUp), i.now) else BeforeKey(m, i)
  {
    var es := (if i.usb then [UsbReady] else []) + Receipts(FramesIn(m, i));
    if KeyFires(m, i) {
      EventLast(m.sys.core, es, KeyEdge(i.keyUp), i.now);
    } else {
      assert es + [] == es;
    }
  }

  /** A wire frame of type 0x16 to the flight controller whose slots are these channels, cut to 11 bits. */
  predicate Carries(frame: seq<byte>, ch: Channels) {
    && |frame| == 26 && frame[0] == 0xC8 && frame[1] == 24 && frame[2] == 0x16
    && forall k :: 0 <= k < 16 ==> CrsfPack.Unpack(frame[3..25], k) == ch[k] % 0x800
  }

  lemma RcFrameCarries(ch: Channels)
    ensures Carries(CrsfPack.RcFrame(ch), ch)
  {
    CrsfPack.RcPayload(ch);
    forall k | 0 <= k < 16
      ensures CrsfPack.Unpack(CrsfPack.RcFrame(ch)[3..25], k) == ch[k] % 0x800
    {
      CrsfPack.UnpackPacked(ch, k);
    }
  }

  /**
   * The sixteen values the daemon asked for are the sixteen values on the wire, each in its slot:
   * from the iteration j that receives them (after any other frames, before any but another
   * intent), in every RC frame until another intent or a key-down is handled.
   */
  lemma IntentOnTheWire(w: Runs.Wake, ins: seq<Input>, j: nat, k: nat,
                        pre: seq<Ipc.Frame>, sn: byte, ch: Channels, post: seq<Ipc.Frame>)
    requires j <= k < |ins| && WireOut(w, ins, k).Some?
    requires FramesIn(Run(w, ins[..j]), ins[j]) == pre + [IntentFrame(sn, ch)] + post && NoIntent(post)
    requires !(KeyFires(Run(w, ins[..j]), ins[j]) && !ins[j].keyUp)
    requires forall i :: j < i <= k ==> Quiet(Run(w, ins[..i]), ins[i])
    ensures Carries(WireOut(w, ins, k).value, ch)
  {
    hide BeforeKey, FramesIn, Carries;
    IntentBeforeKey(Run(w, ins[..j]), ins[j], pre, sn, ch, post);
    AfterKey(Run(w, ins[..j]), ins[j]);
    QuietStretch(w, ins, j, k);
    WireOutCarries(w, ins, k);
    RcFrameCarries(ch);
  }

  // ----- the arm configuration -------------------------------------------------------------------

  /** The configuration that the frames handled so far leave in force, as the daemon reads its own payloads. */
  function LastConfig(fs: seq<Ipc.Frame>): (c: PiLink.ArmConfig)
    ensures PiLink.InRange(c)
  {
    if fs == [] then PiLink.ArmConfig(0, 4, 200, 172)
    else
      var f := fs[|fs| - 1];
      if f.kind == 0x15 && |f.payload| == 6 && PiLink.ParseConfig(f.payload).Some?
      then PiLink.ParseConfig(f.payload).value
      else LastConfig(fs[..|fs| - 1])
  }

  /** A configuration the daemon sends is in force until the next one, if its slots exist; else nothing changes. */
  lemma ConfigArrives(fs: seq<Ipc.Frame>, sn: byte, c: PiLink.ArmConfig)
    ensures LastConfig(fs + [Ipc.Frame(0x15, sn, PiLink.ConfigBytes(c))]) ==
            if PiLink.InRange(c) then c else LastConfig(fs)
  {
    PiLink.ConfigReadsBack(c);
    assert (fs + [Ipc.Frame(0x15, sn, PiLink.ConfigBytes(c))])[..|fs|] == fs;
  }

  predicate Same(c: OverrideConfig, p: PiLink.ArmConfig) {
    c.thrIdx == p.thrIdx && c.armIdx == p.armIdx && c.threshold == p.thrThreshold && c.disarm == p.armDisarmValue
  }

  lemma {:induction false} ConfigAppend(c: Core, past: seq<Ipc.Frame>, fs: seq<Ipc.Frame>, now: nat)
    requires Same(c.cfg, LastConfig(past))
    ensures Same(ApplyAll(c, Receipts(fs), now).cfg, LastConfig(past + fs))
  {
    if fs == [] {
      assert past + fs == past;
      return;
    }
    hide *;
    var n := |fs| - 1;
    var c', past' := ApplyAll(c, Receipts(fs[..n]), now), past + fs[..n];
    ConfigAppend(c, past, fs[..n], now);
    HandledConfig(c', past', fs[n], now);
    SnocFrame(fs[..n], fs[n]);
    ReceiptApplied(c, Receipts(fs[..n]), fs[n], now);
    assert fs == fs[..n] + [fs[n]] && past + fs == past' + [fs[n]];
  }

  lemma HandledConfig(c: Core, past: seq<Ipc.Frame>, f: Ipc.Frame, now: nat)
    requires Same(c.cfg, LastConfig(past))
    ensures Same(Handle(c, f, now).cfg, LastConfig(past + [f]))
  {
    hide IntentOf;
    assert (past + [f])[..|past|] == past;
  }

  lemma ConfigBeforeKey(m: Machine, i: Input, past: seq<Ipc.Frame>)
    requires Same(m.sys.core.cfg, LastConfig(past))
    ensures Same(BeforeKey(m, i).cfg, LastConfig(past + FramesIn(m, i)))
  {
    var fs := FramesIn(m, i);
    hide FramesIn, Receipts, LastConfig;
    var usb := if i.usb then [UsbReady] else [];
    assert Same(ApplyAll(m.sys.core, usb, i.now).cfg, LastConfig(past)) by {
      ApplyOne(m.sys.core, UsbReady, i.now);
    }
    hide Same;
    ApplyAppend(m.sys.core, usb, Receipts(fs), i.now);
    ConfigAppend(ApplyAll(m.sys.core, usb, i.now), past, fs, i.now);
  }

  /** Neither the key nor the tick touches the configuration. */
  lemma ConfigAfterStep(m: Machine, i: Input)
    ensures Step(m, i).sys.core.cfg == BeforeKey(m, i).cfg
  {
    hide BeforeKey;
    AfterKey(m, i);
    StepIsTurn(m, i);
  }

  lemma StepIsTurn(m: Machine, i: Input)
    ensures Step(m, i).sys.core.cfg == AfterEvents(m, i).cfg
  {
  }

  /** Over whole runs: the override works with the last acceptable configuration handled, or with the defaults. */
  lemma {:induction false} ConfigInForce(w: Runs.Wake, ins: seq<Input>)
    ensures Same(Run(w, ins).sys.core.cfg, LastConfig(Handled(w, ins)))
  {
    if ins == [] {
      return;
    }
    hide Step, BeforeKey, FramesIn, LastConfig, Same;
    var n := |ins| - 1;
    ConfigInForce(w, ins[..n]);
    ConfigBeforeKey(Run(w, ins[..n]), ins[n], Handled(w, ins[..n]));
    ConfigAfterStep(Run(w, ins[..n]), ins[n]);
  }

  /** What a key announced down makes of the channels, in the daemon's terms. */
  function Cut(ch: Channels, c: PiLink.ArmConfig): Channels
    requires PiLink.InRange(c)
  {
    if ch[c.thrIdx] <= c.thrThreshold then ch[c.armIdx := c.armDisarmValue] else ch
  }

  /**
   * The safety net end to end: in an iteration that receives the daemon's channels and announces
   * the key down, the RC frame carries those channels, with the configured arm slot at the
   * configured disarm value exactly if the configured throttle slot is at or below its threshold.
   */
  lemma KeyDownOnTheWire(w: Runs.Wake, ins: seq<Input>, k: nat,
                         pre: seq<Ipc.Frame>, sn: byte, ch: Channels, post: seq<Ipc.Frame>)
    requires k < |ins| && WireOut(w, ins, k).Some?
    requires FramesIn(Run(w, ins[..k]), ins[k]) == pre + [IntentFrame(sn, ch)] + post && NoIntent(post)
    requires KeyFires(Run(w, ins[..k]), ins[k]) && !ins[k].keyUp
    ensures Carries(WireOut(w, ins, k).value, Cut(ch, LastConfig(Handled(w, ins[..k + 1]))))
  {
    var m, i := Run(w, ins[..k]), ins[k];
    var c := LastConfig(Handled(w, ins[..k + 1]));
    hide BeforeKey, FramesIn, LastConfig, Handled, Same, Cut, Carries;
    KeyMeets(w, ins, k);
    IntentBeforeKey(m, i, pre, sn, ch, post);
    AfterKey(m, i);
    CutIsOverride(BeforeKey(m, i), c, i.now);
    WireOutCarries(w, ins, k);
    RcFrameCarries(Cut(ch, c));
  }

  lemma KeyMeets(w: Runs.Wake, ins: seq<Input>, k: nat)
    requires k < |ins|
    ensures Same(BeforeKey(Run(w, ins[..k]), ins[k]).cfg, LastConfig(Handled(w, ins[..k + 1])))
  {
    hide Step, BeforeKey, FramesIn, LastConfig, Same;
    assert ins[..k + 1][..k] == ins[..k];
    ConfigInForce(w, ins[..k]);
    ConfigBeforeKey(Run(w, ins[..k]), ins[k], Handled(w, ins[..k]));
  }

  /** What the override does to the buffer, told by the daemon's configuration. */
  lemma CutIsOverride(c: Core, p: PiLink.ArmConfig, now: nat)
    requires Same(c.cfg, p) && PiLink.InRange(p)
    ensures Apply(c, KeyEdge(false), now).link.channels == Cut(c.link.channels, p)
  {
  }

  // ----- before the Pi has said anything ------------------------------------------------------------

  /** Sticks centred, slots 2 and 4 at the bottom of the range. */
  predicate Parked(ch: Channels) { forall k :: 0 <= k < 16 ==> ch[k] == if k == 2 || k == 4 then 172 else 992 }

  lemma {:induction false} NoIntentKeepsParked(c: Core, es: seq<Event>, now: nat)
    requires Parked(c.link.channels) && c.cfg == DEFAULT_CONFIG
    requires forall e :: e in es ==> e.Received? ==> e.f.kind != 0x01 && e.f.kind != 0x15
    ensures Parked(ApplyAll(c, es, now).link.channels) && ApplyAll(c, es, now).cfg == DEFAULT_CONFIG
  {
    if es != [] {
      var n := |es| - 1;
      assert es[n] in es;
      NoIntentKeepsParked(c, es[..n], now);
    }
  }

  /**
   * Heartbeats alone bring the link up, and then the boot channels go out, whatever the key does:
   * slot 0, which the default override reads as throttle, is at 992.
   */
  lemma {:induction false} BootChannelsKept(w: Runs.Wake, ins: seq<Input>)
    requires forall f :: f in Handled(w, ins) ==> f.kind != 0x01 && f.kind != 0x15
    ensures Parked(Run(w, ins).sys.core.link.channels) && Run(w, ins).sys.core.cfg == DEFAULT_CONFIG
    ensures ins != [] ==> Parked(ChannelsOut(w, ins, |ins| - 1))
  {
    if ins != [] {
      var n := |ins| - 1;
      BootChannelsKept(w, ins[..n]);
      var m, i := Run(w, ins[..n]), ins[n];
      forall e | e in TurnOf(m, i).events && e.Received?
        ensures e.f.kind != 0x01 && e.f.kind != 0x15
      {
        ReceivedInTurn(m, i, e);
      }
      NoIntentKeepsParked(m.sys.core, TurnOf(m, i).events, i.now);
      StepChannels(m, i);
    }
  }

  lemma BootChannelsOnTheWire(w: Runs.Wake, ins: seq<Input>)
    requires ins != [] && WireOut(w, ins, |ins| - 1).Some?
    requires forall f :: f in Handled(w, ins) ==> f.kind != 0x01 && f.kind != 0x15
    ensures exists ch: Channels :: Parked(ch) && Carries(WireOut(w, ins, |ins| - 1).value, ch)
  {
    BootChannelsKept(w, ins);
    WireOutCarries(w, ins, |ins| - 1);
    RcFrameCarries(ChannelsOut(w, ins, |ins| - 1));
  }
}
