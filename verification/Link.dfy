/**
 * The link and failsafe state machine (firmware/crsf/src/state.c) and the arm override that
 * writes into its channel buffer (firmware/crsf/src/arm_override.c). Times are microseconds
 * since power-on, as unbounded naturals.
 */
module Link {
  import opened Bytes

  const CHANNELS := 16
  const CH_MIN: word := 172
  const CH_MID: word := 992
  const HEARTBEAT_TIMEOUT_US := 200_000
  const HOLD_US := 600_000

  datatype Phase = BOOT | PENDING | OK | HOLD | FAILSAFE

  type Channels = ch: seq<word> | |ch| == 16 witness seq(16, _ => 0)

  datatype Link = Link(phase: Phase, lastBeat: nat, entered: nat, usbReady: bool, channels: Channels)

  /** Sticks centred; slots 2 and 4 low. */
  function BootChannels(): Channels {
    seq(16, i => if i == 2 || i == 4 then CH_MIN else CH_MID)
  }

  function BootLink(): Link { Link(BOOT, 0, 0, false, BootChannels()) }

  function Enter(l: Link, next: Phase, now: nat): Link {
    if l.phase == next then l else l.(phase := next, entered := now)
  }

  function NoteBeat(l: Link, now: nat): Link {
    var l' := l.(lastBeat := now);
    if l.phase in {PENDING, HOLD, FAILSAFE} then Enter(l', OK, now) else l'
  }

  function NoteUsb(l: Link, now: nat): Link {
    var l' := l.(usbReady := true);
    if l.phase == BOOT then Enter(l', PENDING, now) else l'
  }

  /** A heartbeat time of 0 counts as "never": its age is UINT64_MAX. */
  predicate BeatStale(l: Link, now: nat) {
    l.lastBeat == 0 || now - l.lastBeat > HEARTBEAT_TIMEOUT_US
  }

  function TickLink(l: Link, now: nat): Link {
    match l.phase
    case BOOT => if l.usbReady then Enter(l, PENDING, now) else l
    case OK => if BeatStale(l, now) then Enter(l, HOLD, now) else l
    case HOLD => if now - l.entered > HOLD_US then Enter(l, FAILSAFE, now) else l
    case _ => l
  }

  predicate Emitting(p: Phase) { p == OK || p == HOLD }

  /** Out-of-range slots are ignored on write and read as zero. */
  function SetChannel(ch: Channels, idx: byte, v: word): Channels {
    if idx < CHANNELS then ch[idx := v] else ch
  }

  function GetChannel(ch: Channels, idx: byte): word {
    if idx < CHANNELS then ch[idx] else 0
  }

  /** state.c's static variables. */
  class LinkState {
    var phase: Phase
    var lastBeat: nat
    var entered: nat
    var usbReady: bool
    const channels: array<word>

    ghost predicate Valid()
      reads this, channels
    {
      channels.Length == CHANNELS
    }

    ghost function View(): Link
      requires Valid()
      reads this, channels
    {
      Link(phase, lastBeat, entered, usbReady, channels[..])
    }

    constructor ()
      ensures Valid() && fresh(channels) && View() == BootLink()
    {
      phase, lastBeat, entered, usbReady := BOOT, 0, 0, false;
      channels := new word[CHANNELS];
      new;
      for i := 0 to CHANNELS
        invariant forall k :: 0 <= k < i ==> channels[k] == CH_MID
        invariant View().(channels := BootChannels()) == BootLink()
      {
        channels[i] := CH_MID;
      }
      channels[2] := CH_MIN;
      channels[4] := CH_MIN;
      assert channels[..] == BootChannels();
    }

    method EnterPhase(next: Phase, now: nat)
      requires Valid()
      modifies this
      ensures Valid() && View() == Enter(old(View()), next, now)
    {
      if phase == next {
        return;
      }
      phase := next;
      entered := now;
    }

    method SetChannels(ch: Channels)
      requires Valid()
      modifies channels
      ensures Valid() && View() == old(View()).(channels := ch)
    {
      forall i | 0 <= i < CHANNELS {
        channels[i] := ch[i];
      }
      assert channels[..] == ch;
    }

    method Set(idx: byte, v: word)
      requires Valid()
      modifies channels
      ensures Valid() && View() == old(View()).(channels := SetChannel(old(View()).channels, idx, v))
    {
      if idx >= CHANNELS {
        return;
      }
      channels[idx] := v;
    }

    method Get(idx: byte) returns (v: word)
      requires Valid()
      ensures v == GetChannel(View().channels, idx)
    {
      if idx >= CHANNELS {
        return 0;
      }
      return channels[idx];
    }

    method NoteHeartbeat(now: nat)
      requires Valid()
      modifies this
      ensures Valid() && View() == NoteBeat(old(View()), now)
    {
      lastBeat := now;
      if phase == PENDING || phase == HOLD || phase == FAILSAFE {
        EnterPhase(OK, now);
      }
    }

    method NoteUsbReady(now: nat)
      requires Valid()
      modifies this
      ensures Valid() && View() == NoteUsb(old(View()), now)
    {
      usbReady := true;
      if phase == BOOT {
        EnterPhase(PENDING, now);
      }
    }

    method Tick(now: nat)
      requires Valid()
      modifies this
      ensures Valid() && View() == TickLink(old(View()), now)
    {
      if phase == BOOT {
        if usbReady {
          EnterPhase(PENDING, now);
        }
        return;
      }
      var stale := lastBeat == 0 || now - lastBeat > HEARTBEAT_TIMEOUT_US;
      if phase == OK {
        if stale {
          EnterPhase(HOLD, now);
        }
      } else if phase == HOLD {
        if now - entered > HOLD_US {
          EnterPhase(FAILSAFE, now);
        }
      }
    }

    method ShouldEmit() returns (emit: bool)
      requires Valid()
      ensures emit <==> Emitting(View().phase)
    {
      emit := phase == OK || phase == HOLD;
    }
  }

  // ----- arm override -----------------------------------------------------------------

  datatype OverrideConfig = OverrideConfig(thrIdx: byte, armIdx: byte, threshold: word, disarm: word)

  const DEFAULT_CONFIG := OverrideConfig(0, 4, 200, CH_MIN)

  predicate ConfigOk(c: OverrideConfig) { c.thrIdx < CHANNELS && c.armIdx < CHANNELS }

  /** A key-down edge at low throttle is the only thing that fires. */
  predicate Fires(c: OverrideConfig, ch: Channels, up: bool) {
    !up && GetChannel(ch, c.thrIdx) <= c.threshold
  }

  function Override(c: OverrideConfig, ch: Channels, up: bool): Channels {
    if Fires(c, ch, up) then SetChannel(ch, c.armIdx, c.disarm) else ch
  }

  /** arm_override.c's static struct; `configured` only serves its log lines. */
  class ArmOverride {
    var thrIdx: byte
    var armIdx: byte
    var threshold: word
    var disarm: word
    var configured: bool

    ghost function View(): OverrideConfig
      reads this
    {
      OverrideConfig(thrIdx, armIdx, threshold, disarm)
    }

    constructor ()
      ensures View() == DEFAULT_CONFIG && !configured
    {
      thrIdx, armIdx, threshold, disarm, configured := 0, 4, 200, CH_MIN, false;
    }

    /** arm_override_set_config: an out-of-range slot changes nothing. */
    method SetConfig(thr: byte, arm: byte, thrThreshold: word, disarmValue: word) returns (ok: bool)
      modifies this
      ensures ok <==> ConfigOk(OverrideConfig(thr, arm, thrThreshold, disarmValue))
      ensures View() == if ok then OverrideConfig(thr, arm, thrThreshold, disarmValue) else old(View())
      ensures configured == (ok || old(configured))
    {
      if thr >= CHANNELS || arm >= CHANNELS {
        return false;
      }
      thrIdx, armIdx, threshold, disarm, configured := thr, arm, thrThreshold, disarmValue, true;
      return true;
    }

    /** arm_override_on_arm_key_edge */
    method OnArmKeyEdge(link: LinkState, up: bool)
      requires link.Valid()
      modifies link.channels
      ensures link.Valid()
      ensures link.View() == old(link.View()).(channels := Override(View(), old(link.View()).channels, up))
    {
      if up {
        return;
      }
      var throttle := link.Get(thrIdx);
      if throttle > threshold {
        return;
      }
      link.Set(armIdx, disarm);
    }
  }
}
