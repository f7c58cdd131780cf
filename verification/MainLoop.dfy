/** main.c itself: the modules' objects, the loop's own variables, and one iteration. */
module MainLoop {
  import opened Bytes
  import opened Link
  import opened Inputs
  import opened Panel
  import opened Failsafe
  import opened Firmware
  import Ipc
  import CrsfRx
  import CrsfPack
  import CrsfTee

  /** Different buffers, although their element types differ anyway. */
  predicate Apart(a: array<word>, b: array<byte>) { a as object != b }

  class Rp2040 {
    const link: LinkState
    const override: ArmOverride
    const arm: InputArm
    const momentary: InputMomentary
    const ipcRx: Ipc.Receiver
    const crsfRx: CrsfRx.Receiver
    const usb: Ipc.Sender
    var uart: seq<seq<byte>>
    var lastCrsf: nat
    var lastTxHb: nat
    var txSeq: byte
    var hbSeq: byte

    ghost predicate Valid()
      reads this, link, link.channels, ipcRx, ipcRx.rxCobs, ipcRx.rxDecoded,
            crsfRx, crsfRx.buf, crsfRx.crc8, crsfRx.crc8.table, usb
    {
      && CanReceive() && crsfRx.Valid()
      && ipcRx.rxCobs != crsfRx.buf && ipcRx.rxCobs != crsfRx.crc8.table
      && ipcRx.rxDecoded != crsfRx.buf && ipcRx.rxDecoded != crsfRx.crc8.table
      && Apart(link.channels, crsfRx.buf) && Apart(link.channels, crsfRx.crc8.table)
    }

    /** What the receive stage needs. */
    ghost predicate CanReceive()
      reads link, link.channels, ipcRx, ipcRx.rxCobs, ipcRx.rxDecoded
    {
      && link.Valid() && ipcRx.Valid() && usb.bound
      && Apart(link.channels, ipcRx.rxCobs) && Apart(link.channels, ipcRx.rxDecoded)
    }

    ghost function CoreView(): Core
      requires link.Valid()
      reads link, link.channels, override
    {
      Core(link.View(), override.View())
    }

    ghost function Traffic(): Traffic
      requires link.Valid()
      reads this`txSeq, link, link.channels, override, usb`sent
    {
      Firmware.Traffic(CoreView(), usb.sent, txSeq)
    }

    ghost function View(): Machine
      requires Valid()
      reads this, link, link.channels, override, arm, momentary, ipcRx, ipcRx.rxCobs, ipcRx.rxDecoded,
            crsfRx, crsfRx.buf, crsfRx.crc8, crsfRx.crc8.table, usb
    {
      Machine(Sys(CoreView(), lastCrsf), arm.View(), momentary.View(), ipcRx.State(), crsfRx.State(),
              txSeq, hbSeq, lastTxHb)
    }

    /** The init calls at the top of main, up to the hardware set-up they hide. */
    constructor (keyUp: bool, pressed: bool)
      ensures Valid() && View() == Boot(keyUp, pressed) && uart == [] && usb.wire == []
    {
      link := new LinkState();
      override := new ArmOverride();
      arm := new InputArm(keyUp);
      momentary := new InputMomentary(pressed);
      ipcRx := new Ipc.Receiver();
      crsfRx := new CrsfRx.Receiver();
      usb := new Ipc.Sender(true);
      uart, lastCrsf, lastTxHb, txSeq, hbSeq := [], 0, 0, 0, 0;
      new;
      assert CoreView() == BootCore();
      assert arm.View() == ArmInit(keyUp) && momentary.View() == MomentaryInit(pressed);
      assert CanReceive() && ipcRx.State() == Ipc.IDLE;
      assert crsfRx.Valid() && crsfRx.State() == CrsfRx.WaitAddr;
    }

    /** handle_frame */
    method Handle(f: Ipc.Frame, now: nat)
      requires link.Valid() && usb.bound
      modifies link, link.channels, override, usb`wire, usb`sent, this`txSeq
      ensures link.Valid()
      ensures Traffic() == HandleFrame(old(Traffic()), f, now)
      ensures old(usb.InSync()) ==> usb.InSync()
    {
      ghost var t := Traffic().(core := Failsafe.Handle(CoreView(), f, now));
      SayNothing(t);
      if f.kind == MSG_HEARTBEAT {
        link.NoteHeartbeat(now);
      } else if f.kind == MSG_CHANNEL_INTENT {
        if |f.payload| == 2 * CHANNELS {
          var ch := DecodeIntent(f);
          link.SetChannels(ch);
          link.NoteHeartbeat(now);
        }
      } else if f.kind == MSG_HELLO {
        SayOne(t, HelloAck);
        var rc := usb.Send(MSG_HELLO_ACK, txSeq, HelloPayload(4));
        txSeq := Inc8(txSeq);
      } else if f.kind == MSG_ARM_CONFIG {
        if |f.payload| == 6 {
          var ok := override.SetConfig(f.payload[0], f.payload[1],
                                       Word(f.payload[2], f.payload[3]), Word(f.payload[4], f.payload[5]));
        }
      }
    }

    /** One byte into the parser; a frame it completes is handled at once. */
    method ReceiveByte(now: nat, b: byte) returns (ghost frame: Option<Ipc.Frame>)
      requires CanReceive()
      modifies link, link.channels, override, ipcRx, ipcRx.rxCobs, ipcRx.rxDecoded, usb`wire, usb`sent, this`txSeq
      ensures CanReceive()
      ensures ipcRx.State() == Ipc.FeedState(old(ipcRx.State()), b)
      ensures frame == Ipc.FeedFrame(Ipc.Firmware, old(ipcRx.State()), b)
      ensures Traffic() == if frame.Some? then HandleFrame(old(Traffic()), frame.value, now) else old(Traffic())
      ensures old(usb.InSync()) ==> usb.InSync()
    {
      var f := ipcRx.Feed(b);
      if f.Some? {
        Handle(f.value, now);
      }
      frame := f;
    }

    /** Draining USB into the IPC parser: at most 256 bytes, each frame handled as it completes. */
    method Receive(now: nat, ready: seq<byte>)
      requires CanReceive()
      modifies link, link.channels, override, ipcRx, ipcRx.rxCobs, ipcRx.rxDecoded, usb`wire, usb`sent, this`txSeq
      ensures CanReceive()
      ensures ipcRx.State() == Ipc.FeedStates(old(ipcRx.State()), Taken(ready))
      ensures Traffic() ==
              HandleAll(old(Traffic()), Ipc.FeedFrames(Ipc.Firmware, old(ipcRx.State()), Taken(ready)), now)
      ensures old(usb.InSync()) ==> usb.InSync()
    {
      hide HandleAll, HandleFrame;
      ghost var start, t := ipcRx.State(), Traffic();
      assert ready[..0] == [];
      HandleNone(t, now);
      for i := 0 to Min(|ready|, DRAIN_LIMIT)
        invariant CanReceive()
        invariant ipcRx.State() == Ipc.FeedStates(start, ready[..i])
        invariant Traffic() == HandleAll(t, Ipc.FeedFrames(Ipc.Firmware, start, ready[..i]), now)
        invariant old(usb.InSync()) ==> usb.InSync()
      {
        ghost var frame := ReceiveByte(now, ready[i]);
        OneMoreByte(t, start, ready, i, frame, now);
      }
    }

    /** on_crsf_telemetry */
    method OnTelemetry(t: CrsfRx.Telemetry)
      requires link.Valid() && usb.bound
      modifies usb`wire, usb`sent, this`txSeq
      ensures Traffic() == if |t.payload| > CrsfRx.RX_MAX - 2 then old(Traffic()) else Say(old(Traffic()), [Relay(t)])
      ensures old(usb.InSync()) ==> usb.InSync()
    {
      if |t.payload| > CrsfRx.RX_MAX - 2 {
        return;
      }
      SayOne(Traffic(), Relay(t));
      var rc := usb.Send(CrsfTee.MSG_TELEMETRY, txSeq, [t.addr, t.kind] + t.payload);
      txSeq := Inc8(txSeq);
    }

    /** The callbacks of one crsf_rx_poll, in order. */
    method RelayAll(ts: seq<CrsfRx.Telemetry>)
      requires link.Valid() && usb.bound
      requires forall t :: t in ts ==> |t.payload| <= CrsfRx.RX_MAX - 4
      modifies usb`wire, usb`sent, this`txSeq
      ensures Traffic() == Say(old(Traffic()), Relays(ts))
      ensures old(usb.InSync()) ==> usb.InSync()
    {
      ghost var start := Traffic();
      SayNothing(start);
      for i := 0 to |ts|
        invariant Traffic() == Say(start, Relays(ts[..i]))
        invariant old(usb.InSync()) ==> usb.InSync()
      {
        OnTelemetry(ts[i]);
        RelaysSnoc(start, ts, i);
      }
      assert ts[..|ts|] == ts;
    }

    /** Both panel inputs, in the loop's order. */
    method PollPanel(now: nat, keyUp: bool, pressed: bool)
      requires link.Valid() && usb.bound
      modifies arm, momentary, link.channels, usb`wire, usb`sent, this`txSeq
      ensures link.Valid()
      ensures arm.View() == ArmStep(old(arm.View()), Sample(now, keyUp))
      ensures momentary.View() == MomentaryStep(old(momentary.View()), Sample(now, pressed))
      ensures Traffic() == PressStage(KeyStage(old(Traffic()), ArmFires(old(arm.View()), Sample(now, keyUp)),
                                               keyUp, now),
                                      MomentaryFires(old(momentary.View()), Sample(now, pressed)))
      ensures old(usb.InSync()) ==> usb.InSync()
    {
      PollKey(now, keyUp);
      PollButton(now, pressed);
    }

    method PollKey(now: nat, keyUp: bool)
      requires link.Valid() && usb.bound
      modifies arm, link.channels, usb`wire, usb`sent, this`txSeq
      ensures link.Valid()
      ensures arm.View() == ArmStep(old(arm.View()), Sample(now, keyUp))
      ensures Traffic() == KeyStage(old(Traffic()), ArmFires(old(arm.View()), Sample(now, keyUp)), keyUp, now)
      ensures old(usb.InSync()) ==> usb.InSync()
    {
      ghost var t := Traffic();
      SayOne(t.(core := Apply(t.core, KeyEdge(keyUp), now)), Key(keyUp));
      assert t.sent + [] == t.sent;
      txSeq := arm.Poll(now, keyUp, txSeq, override, link, usb);
    }

    method PollButton(now: nat, pressed: bool)
      requires link.Valid() && usb.bound
      modifies momentary, usb`wire, usb`sent, this`txSeq
      ensures momentary.View() == MomentaryStep(old(momentary.View()), Sample(now, pressed))
      ensures Traffic() == PressStage(old(Traffic()), MomentaryFires(old(momentary.View()), Sample(now, pressed)))
      ensures old(usb.InSync()) ==> usb.InSync()
    {
      ghost var t := Traffic();
      SayOne(t, Press);
      assert t.sent + [] == t.sent;
      txSeq := momentary.Poll(now, pressed, txSeq, usb);
    }

    /** The RC frame, every 20 ms while the link state permits. */
    method Emit(now: nat)
      requires link.Valid() && crsfRx.Valid()
      requires Apart(link.channels, crsfRx.crc8.table) && crsfRx.buf != crsfRx.crc8.table
      modifies this`uart, this`lastCrsf, crsfRx.crc8, crsfRx.crc8.table
      ensures crsfRx.Valid() && crsfRx.State() == old(crsfRx.State())
      ensures lastCrsf == LastCrsfAfter(CoreView(), old(lastCrsf), now)
      ensures uart == old(uart) + OptSeq(RcOut(CoreView(), old(lastCrsf), now))
    {
      assert uart + [] == uart;
      var emit := link.ShouldEmit();
      if emit && now - lastCrsf >= CRSF_PERIOD_US {
        var frame := new byte[26];
        CrsfPack.PackRc(link.channels[..], crsfRx.crc8, frame);
        uart := uart + [frame[..]];
        lastCrsf := now;
      }
    }

    /** The heartbeat to the Pi; it has its own sequence numbers. */
    method Beat(now: nat)
      requires usb.bound
      modifies usb`wire, usb`sent, this`hbSeq, this`lastTxHb
      ensures usb.sent == old(usb.sent) + BeatAt(old(hbSeq), old(lastTxHb), now)
      ensures (hbSeq, lastTxHb) == AfterBeat(old(hbSeq), old(lastTxHb), now)
      ensures old(usb.InSync()) ==> usb.InSync()
    {
      assert usb.sent + [] == usb.sent;
      if now - lastTxHb >= HEARTBEAT_PERIOD_US {
        var rc := usb.Send(MSG_HEARTBEAT, hbSeq, [hbSeq]);
        hbSeq := Inc8(hbSeq);
        lastTxHb := now;
      }
    }

    /** The first part of an iteration: USB state, USB bytes, CRSF bytes. */
    method TakeSerial(i: Input)
      requires Valid()
      modifies link, link.channels, override, ipcRx, ipcRx.rxCobs, ipcRx.rxDecoded,
               crsfRx, crsfRx.buf, crsfRx.crc8, crsfRx.crc8.table, usb`wire, usb`sent, this`txSeq
      ensures Valid()
      ensures Traffic() == SerialStage(old(Traffic()), old(ipcRx.State()), old(crsfRx.State()), i)
      ensures ipcRx.State() == Ipc.FeedStates(old(ipcRx.State()), Taken(i.ready))
      ensures crsfRx.State() == CrsfRx.RxRun(old(crsfRx.State()), Taken(i.crsfReady))
      ensures old(usb.InSync()) ==> usb.InSync()
    {
      NoteUsb(i.now, i.usb);
      Receive(i.now, i.ready);
      PollRadio(i.crsfReady);
    }

    method NoteUsb(now: nat, ready: bool)
      requires link.Valid()
      modifies link
      ensures link.Valid()
      ensures Traffic() == UsbStage(old(Traffic()), ready, now)
    {
      if ready {
        link.NoteUsbReady(now);
      }
    }

    method PollRadio(ready: seq<byte>)
      requires link.Valid() && crsfRx.Valid() && usb.bound
      requires Apart(link.channels, crsfRx.buf) && Apart(link.channels, crsfRx.crc8.table)
      modifies crsfRx, crsfRx.buf, crsfRx.crc8, crsfRx.crc8.table, usb`wire, usb`sent, this`txSeq
      ensures crsfRx.Valid()
      ensures crsfRx.State() == CrsfRx.RxRun(old(crsfRx.State()), Taken(ready))
      ensures Traffic() == Say(old(Traffic()), Relays(CrsfRx.RxFrames(old(crsfRx.State()), Taken(ready))))
      ensures old(usb.InSync()) ==> usb.InSync()
    {
      CrsfRx.TelemetryFits(crsfRx.State(), Taken(ready));
      var telemetry, left := crsfRx.Poll(ready);
      RelayAll(telemetry);
    }

    /** state_tick, the emission check and the heartbeat. */
    method Finish(now: nat)
      requires link.Valid() && crsfRx.Valid() && usb.bound
      requires Apart(link.channels, crsfRx.crc8.table) && crsfRx.buf != crsfRx.crc8.table
      modifies link, this`uart, this`lastCrsf, crsfRx.crc8, crsfRx.crc8.table
      modifies usb`wire, usb`sent, this`hbSeq, this`lastTxHb
      ensures link.Valid() && crsfRx.Valid() && crsfRx.State() == old(crsfRx.State())
      ensures CoreView() == Ticked(old(CoreView()), now)
      ensures lastCrsf == LastCrsfAfter(CoreView(), old(lastCrsf), now)
      ensures uart == old(uart) + OptSeq(RcOut(CoreView(), old(lastCrsf), now))
      ensures usb.sent == old(usb.sent) + BeatAt(old(hbSeq), old(lastTxHb), now)
      ensures (hbSeq, lastTxHb) == AfterBeat(old(hbSeq), old(lastTxHb), now)
      ensures old(usb.InSync()) ==> usb.InSync()
    {
      link.Tick(now);
      Emit(now);
      Beat(now);
    }

    /** One iteration of the main loop: one step of the machine, its IPC frames and its RC frame. */
    method Loop(i: Input)
      requires Valid()
      modifies this, link, link.channels, override, arm, momentary, ipcRx, ipcRx.rxCobs, ipcRx.rxDecoded,
               crsfRx, crsfRx.buf, crsfRx.crc8, crsfRx.crc8.table, usb`wire, usb`sent
      ensures Valid()
      ensures View() == Step(old(View()), i)
      ensures uart == old(uart) + OptSeq(UartOut(old(View()), i))
      ensures usb.sent == old(usb.sent) + UsbOut(old(View()), i)
      ensures old(usb.InSync()) ==> usb.InSync()
    {
      StagesMakeStep(View(), i, usb.sent);
      RunStages(i);
    }

    method RunStages(i: Input)
      requires Valid()
      modifies this, link, link.channels, override, arm, momentary, ipcRx, ipcRx.rxCobs, ipcRx.rxDecoded,
               crsfRx, crsfRx.buf, crsfRx.crc8, crsfRx.crc8.table, usb`wire, usb`sent
      ensures Valid()
      ensures var m, t := old(View()), Stages(old(Traffic()), old(View()), i);
              && View() == Assembled(m, i, t)
              && uart == old(uart) + OptSeq(RcOut(Ticked(t.core, i.now), m.sys.lastCrsf, i.now))
              && usb.sent == t.sent + BeatAt(m.hbSeq, m.lastTxHb, i.now)
      ensures old(usb.InSync()) ==> usb.InSync()
    {
      hide PanelStage, SerialStage, ArmStep, MomentaryStep, RcOut, BeatAt, AfterBeat, LastCrsfAfter;
      TakeInputs(i);
      Finish(i.now);
    }

    method TakeInputs(i: Input)
      requires Valid()
      modifies link, link.channels, override, arm, momentary, ipcRx, ipcRx.rxCobs, ipcRx.rxDecoded,
               crsfRx, crsfRx.buf, crsfRx.crc8, crsfRx.crc8.table, usb`wire, usb`sent, this`txSeq
      ensures Valid()
      ensures Traffic() == PanelStage(SerialStage(old(Traffic()), old(ipcRx.State()), old(crsfRx.State()), i),
                                      old(arm.View()), old(momentary.View()), i)
      ensures arm.View() == ArmStep(old(arm.View()), Sample(i.now, i.keyUp))
      ensures momentary.View() == MomentaryStep(old(momentary.View()), Sample(i.now, i.pressed))
      ensures ipcRx.State() == Ipc.FeedStates(old(ipcRx.State()), Taken(i.ready))
      ensures crsfRx.State() == CrsfRx.RxRun(old(crsfRx.State()), Taken(i.crsfReady))
      ensures old(usb.InSync()) ==> usb.InSync()
    {
      TakeSerial(i);
      PollPanel(i.now, i.keyUp, i.pressed);
    }
  }

  /** The sixteen little-endian values of a channel intent. */
  method DecodeIntent(f: Ipc.Frame) returns (ch: Channels)
    requires IsIntent(f)
    ensures ch == IntentOf(f)
  {
    var a := new word[CHANNELS];
    for i := 0 to CHANNELS
      invariant forall k :: 0 <= k < i ==> a[k] == WordAt(f.payload, k)
    {
      a[i] := Word(f.payload[2 * i], f.payload[2 * i + 1]);
    }
    ch := a[..];
  }
}
