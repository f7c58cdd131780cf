/** The stateful input modules: input_arm.c with its override hook, and input_momentary.c. */
module Panel {
  import opened Bytes
  import opened Inputs
  import opened Link
  import Ipc

  const MSG_INPUT_EVENT: byte := 0x05
  const INPUT_ARM_KEY: byte := 0x01
  const INPUT_MOMENTARY: byte := 0x02

  function KeyPayload(up: bool): seq<byte> { [INPUT_ARM_KEY, if up then 1 else 0] }

  const PRESS_PAYLOAD: seq<byte> := [INPUT_MOMENTARY, 1]

  /** What one event sends: one frame. */
  function EventFrames(fires: bool, sn: byte, payload: seq<byte>): seq<Ipc.Frame> {
    if fires then [Ipc.Frame(MSG_INPUT_EVENT, sn, payload)] else []
  }

  class InputArm {
    var rawLast: bool
    var stable: bool
    var changedAt: nat
    var announced: bool

    ghost function View(): Arm
      reads this
    {
      Arm(rawLast, stable, changedAt, announced)
    }

    constructor (level: bool)
      ensures View() == ArmInit(level)
    {
      rawLast, stable, changedAt, announced := level, level, 0, false;
    }

    /** input_arm_poll: the override acts before the event is sent. */
    method Poll(now: nat, rawUp: bool, sn: byte, override: ArmOverride, link: LinkState, sender: Ipc.Sender)
      returns (next: byte)
      requires link.Valid() && sender.bound
      modifies this, link.channels, sender`wire, sender`sent
      ensures link.Valid()
      ensures View() == ArmStep(old(View()), Sample(now, rawUp))
      ensures var fires := ArmFires(old(View()), Sample(now, rawUp));
              && link.View() == old(link.View()).(channels :=
                   if fires then Override(override.View(), old(link.View()).channels, rawUp)
                   else old(link.View()).channels)
              && sender.sent == old(sender.sent) + EventFrames(fires, sn, KeyPayload(rawUp))
              && next == if fires then Inc8(sn) else sn
      ensures old(sender.InSync()) ==> sender.InSync()
    {
      assert sender.sent + [] == sender.sent;
      if rawUp != rawLast {
        rawLast := rawUp;
        changedAt := now;
        return sn;
      }
      if rawUp == stable && announced {
        return sn;
      }
      if now - changedAt < DEBOUNCE_US {
        return sn;
      }
      stable := rawUp;
      override.OnArmKeyEdge(link, rawUp);
      var rc := sender.Send(MSG_INPUT_EVENT, sn, [INPUT_ARM_KEY, if rawUp then 1 else 0]);
      announced := true;
      return Inc8(sn);
    }
  }

  class InputMomentary {
    var rawLast: bool
    var stable: bool
    var changedAt: nat

    ghost function View(): Momentary
      reads this
    {
      Momentary(rawLast, stable, changedAt)
    }

    constructor (level: bool)
      ensures View() == MomentaryInit(level)
    {
      rawLast, stable, changedAt := level, level, 0;
    }

    /** input_momentary_poll: releases settle silently. */
    method Poll(now: nat, rawPressed: bool, sn: byte, sender: Ipc.Sender) returns (next: byte)
      requires sender.bound
      modifies this, sender`wire, sender`sent
      ensures View() == MomentaryStep(old(View()), Sample(now, rawPressed))
      ensures var fires := MomentaryFires(old(View()), Sample(now, rawPressed));
              && sender.sent == old(sender.sent) + EventFrames(fires, sn, PRESS_PAYLOAD)
              && next == if fires then Inc8(sn) else sn
      ensures old(sender.InSync()) ==> sender.InSync()
    {
      assert sender.sent + [] == sender.sent;
      if rawPressed != rawLast {
        rawLast := rawPressed;
        changedAt := now;
        return sn;
      }
      if rawPressed == stable {
        return sn;
      }
      if now - changedAt < DEBOUNCE_US {
        return sn;
      }
      var pressedEdge := !stable && rawPressed;
      stable := rawPressed;
      if !pressedEdge {
        return sn;
      }
      var rc := sender.Send(MSG_INPUT_EVENT, sn, [INPUT_MOMENTARY, 1]);
      return Inc8(sn);
    }
  }
}
