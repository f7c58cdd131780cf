/**
 * Runs of the RP2040's main loop, seen from the link state machine and the channel buffer:
 * failsafe timing, emission cadence, and where every emitted channel value comes from.
 *
 * A turn is one loop iteration (firmware/crsf/src/main.c): the events its inputs produced, in
 * order, then state_tick, then the emission check, all at one loop time.
 */
module Failsafe {
  import opened Bytes
  import opened Link
  import Ipc

  const MSG_CHANNEL_INTENT: byte := 0x01
  const MSG_HEARTBEAT: byte := 0x03
  const MSG_ARM_CONFIG: byte := 0x15
  const CRSF_PERIOD_US := 20_000

  datatype Event = UsbReady | Received(f: Ipc.Frame) | KeyEdge(up: bool)

  datatype Turn = Turn(now: nat, events: seq<Event>)

  // ----- one event ------------------------------------------------------------------

  predicate IsIntent(f: Ipc.Frame) { f.kind == MSG_CHANNEL_INTENT && |f.payload| == 2 * CHANNELS }

  /** A channel intent is liveness evidence, like a heartbeat. */
  predicate IsBeat(f: Ipc.Frame) { f.kind == MSG_HEARTBEAT || IsIntent(f) }

  function WordAt(p: seq<byte>, i: nat): word
    requires 2 * i + 1 < |p|
  {
    Word(p[2 * i], p[2 * i + 1])
  }

  /** Sixteen little-endian channel values. */
  function IntentOf(f: Ipc.Frame): Channels
    requires IsIntent(f)
  {
    seq(16, i requires 0 <= i < 16 => WordAt(f.payload, i))
  }

  predicate IsConfig(f: Ipc.Frame) { f.kind == MSG_ARM_CONFIG && |f.payload| == 6 }

  function ConfigOf(f: Ipc.Frame): OverrideConfig
    requires IsConfig(f)
  {
    OverrideConfig(f.payload[0], f.payload[1], WordAt(f.payload, 1), WordAt(f.payload, 2))
  }

  datatype Core = Core(link: Link, cfg: OverrideConfig)

  /** The part of handle_frame that touches link, channels and override. */
  function Handle(c: Core, f: Ipc.Frame, now: nat): Core {
    if f.kind == MSG_HEARTBEAT then c.(link := NoteBeat(c.link, now))
    else if IsIntent(f) then c.(link := NoteBeat(c.link.(channels := IntentOf(f)), now))
    else if IsConfig(f) && ConfigOk(ConfigOf(f)) then c.(cfg := ConfigOf(f))
    else c
  }

  function Apply(c: Core, e: Event, now: nat): Core {
    match e
    case UsbReady => c.(link := NoteUsb(c.link, now))
    case Received(f) => Handle(c, f, now)
    case KeyEdge(up) => c.(link := c.link.(channels := Override(c.cfg, c.link.channels, up)))
  }

  function ApplyAll(c: Core, es: seq<Event>, now: nat): Core {
    if es == [] then c else Apply(ApplyAll(c, es[..|es| - 1], now), es[|es| - 1], now)
  }

  // ----- runs ----------------------------------------------------------------------------

  datatype Sys = Sys(core: Core, lastCrsf: nat)

  function BootCore(): Core { Core(BootLink(), DEFAULT_CONFIG) }

  function BootSys(): Sys { Sys(BootCore(), 0) }

  function TurnCore(c: Core, t: Turn): Core {
    var c' := ApplyAll(c, t.events, t.now);
    c'.(link := TickLink(c'.link, t.now))
  }

  /** Whether the turn ends with an RC frame on the UART. */
  predicate Emits(s: Sys, t: Turn) {
    Emitting(TurnCore(s.core, t).link.phase) && t.now - s.lastCrsf >= CRSF_PERIOD_US
  }

  function Next(s: Sys, t: Turn): Sys {
    Sys(TurnCore(s.core, t), if Emits(s, t) then t.now else s.lastCrsf)
  }

  function After(ts: seq<Turn>): Sys {
    if ts == [] then BootSys() else Next(After(ts[..|ts| - 1]), ts[|ts| - 1])
  }

  predicate EmitsAt(ts: seq<Turn>, k: nat)
    requires k < |ts|
  {
    Emits(After(ts[..k]), ts[k])
  }

  function PhaseAfter(ts: seq<Turn>, k: nat): Phase
    requires k <= |ts|
  {
    After(ts[..k]).core.link.phase
  }

  predicate HasBeat(t: Turn) {
    exists i :: 0 <= i < |t.events| && t.events[i].Received? && IsBeat(t.events[i].f)
  }

  predicate HasUsb(t: Turn) { UsbReady in t.events }

  /** The loop clock never runs backwards, and no iteration takes longer than d. */
  predicate Paced(ts: seq<Turn>, d: nat) {
    (forall i, j :: 0 <= i <= j < |ts| ==> ts[i].now <= ts[j].now) &&
    (forall i, j :: 0 <= i < |ts| && j == i + 1 < |ts| ==> ts[j].now - ts[i].now <= d)
  }

  lemma {:induction false} AfterSnoc(ts: seq<Turn>, k: nat)
    requires k < |ts|
    ensures After(ts[..k + 1]) == Next(After(ts[..k]), ts[k])
  {
    assert ts[..k + 1][..k] == ts[..k];
  }

  // ----- what one turn does to the timers ------------------------------------------------

  predicate BeatIn(es: seq<Event>) {
    exists i :: 0 <= i < |es| && es[i].Received? && IsBeat(es[i].f)
  }

  lemma {:induction false} BeatInSnoc(es: seq<Event>)
    requires es != []
    ensures var n := |es| - 1; BeatIn(es) <==> BeatIn(es[..n]) || (es[n].Received? && IsBeat(es[n].f))
  {
    var n := |es| - 1;
    if BeatIn(es[..n]) {
      var i :| 0 <= i < n && es[..n][i].Received? && IsBeat(es[..n][i].f);
      assert es[i].Received? && IsBeat(es[i].f);
    }
    if BeatIn(es) {
      var i :| 0 <= i < |es| && es[i].Received? && IsBeat(es[i].f);
      if i < n {
        assert es[..n][i].Received? && IsBeat(es[..n][i].f);
      }
    }
  }

  /** Events alone: a beat restarts the timer and leaves HOLD and FAILSAFE; without one only BOOT is left. */
  lemma {:induction false} EventsAndTimers(c: Core, es: seq<Event>, now: nat)
    ensures var (l, l') := (c.link, ApplyAll(c, es, now).link);
            && (BeatIn(es) ==> l'.lastBeat == now && l'.phase in {BOOT, PENDING, OK} &&
                               (l.phase != BOOT ==> l'.phase == OK))
            && (!BeatIn(es) ==> l'.lastBeat == l.lastBeat &&
                                ((l'.phase == l.phase && l'.entered == l.entered) ||
                                 (l.phase == BOOT && l'.phase == PENDING)))
            && (l'.entered == l.entered || l'.entered == now)
            && (l.phase !in {BOOT, PENDING} ==> l'.phase !in {BOOT, PENDING})
            && (l'.phase != BOOT ==> l.phase != BOOT || UsbReady in es)
            && (l'.phase !in {BOOT, PENDING} ==> l.phase !in {BOOT, PENDING} || BeatIn(es))
            && (l'.usbReady ==> l.usbReady || UsbReady in es)
  {
    if es != [] {
      var n := |es| - 1;
      EventsAndTimers(c, es[..n], now);
      BeatInSnoc(es);
      assert es == es[..n] + [es[n]];
    }
  }

  /** The same for a whole turn, tick included. */
  lemma {:induction false} TurnAndBeat(c: Core, t: Turn)
    ensures var (l, l') := (c.link, TurnCore(c, t).link);
            && l'.lastBeat == (if HasBeat(t) then t.now else l.lastBeat)
            && (l.phase !in {BOOT, PENDING} ==> l'.phase !in {BOOT, PENDING})
            && (l'.phase !in {BOOT, PENDING} ==> l.phase !in {BOOT, PENDING} || HasBeat(t))
            && (l'.phase != BOOT || l'.usbReady ==> l.phase != BOOT || l.usbReady || HasUsb(t))
            && (l'.phase == FAILSAFE && l.phase != FAILSAFE ==>
                  l.phase == HOLD && !HasBeat(t) && l'.entered == t.now && t.now - l.entered > HOLD_US)
            && (HasBeat(t) && t.now != 0 && l.phase != BOOT ==> l'.phase == OK)
  {
    EventsAndTimers(c, t.events, t.now);
    assert HasBeat(t) <==> BeatIn(t.events);
  }

  /** Where the timers stand at the end of a turn at time `now`, for loop gaps up to d. */
  predicate TimersOk(l: Link, now: nat, d: nat) {
    && l.lastBeat <= now && l.entered <= now
    && (l.phase == OK ==> l.lastBeat != 0 && now - l.lastBeat <= HEARTBEAT_TIMEOUT_US)
    && (l.phase == HOLD ==>
          && now - l.entered <= HOLD_US
          && l.lastBeat <= l.entered <= l.lastBeat + HEARTBEAT_TIMEOUT_US + d
          && (l.lastBeat != 0 ==> l.entered - l.lastBeat > HEARTBEAT_TIMEOUT_US))
  }

  lemma {:induction false} TurnTimers(c: Core, t: Turn, before: nat, d: nat)
    requires TimersOk(c.link, before, d) && before <= t.now
    requires Emitting(c.link.phase) ==> t.now - before <= d
    ensures TimersOk(TurnCore(c, t).link, t.now, d)
  {
    EventsAndTimers(c, t.events, t.now);
  }

  lemma {:induction false} TimersAlways(ts: seq<Turn>, d: nat, k: nat)
    requires Paced(ts, d) && k < |ts|
    ensures TimersOk(After(ts[..k + 1]).core.link, ts[k].now, d)
  {
    AfterSnoc(ts, k);
    if k == 0 {
      assert ts[..0] == [];
      TurnTimers(BootCore(), ts[0], 0, d);
    } else {
      TimersAlways(ts, d, k - 1);
      TurnTimers(After(ts[..k]).core, ts[k], ts[k - 1].now, d);
    }
  }

  /** The last of the first k turns that brought a heartbeat or intent; -1 if none did. */
  function LastBeatTurn(ts: seq<Turn>, k: nat): (j: int)
    requires k <= |ts|
    ensures -1 <= j < k
    ensures j >= 0 ==> HasBeat(ts[j])
  {
    if k == 0 then -1 else if HasBeat(ts[k - 1]) then k - 1 else LastBeatTurn(ts, k - 1)
  }

  /** USB came up in one of the first k turns. */
  predicate UsbBy(ts: seq<Turn>, k: nat)
    requires k <= |ts|
  {
    k > 0 && (HasUsb(ts[k - 1]) || UsbBy(ts, k - 1))
  }

  lemma {:induction false} UsbHistory(ts: seq<Turn>, k: nat)
    requires k <= |ts|
    ensures PhaseAfter(ts, k) != BOOT || After(ts[..k]).core.link.usbReady ==> UsbBy(ts, k)
  {
    if k == 0 {
      assert ts[..0] == [];
    } else {
      UsbHistory(ts, k - 1);
      AfterSnoc(ts, k - 1);
      TurnAndBeat(After(ts[..k - 1]).core, ts[k - 1]);
    }
  }

  /** The recorded heartbeat time is that of a beat which really arrived, no earlier than USB did. */
  lemma {:induction false} BeatHistory(ts: seq<Turn>, k: nat)
    requires k <= |ts| && PhaseAfter(ts, k) !in {BOOT, PENDING}
    ensures var j := LastBeatTurn(ts, k);
            j >= 0 && After(ts[..k]).core.link.lastBeat == ts[j].now && UsbBy(ts, j + 1)
  {
    assert ts[..0] == [];
    if k > 0 {
      AfterSnoc(ts, k - 1);
      TurnAndBeat(After(ts[..k - 1]).core, ts[k - 1]);
      if HasBeat(ts[k - 1]) {
        UsbHistory(ts, k);
      } else {
        BeatHistory(ts, k - 1);
      }
    }
  }

  // ----- failsafe timing over whole runs -----------------------------------------------------

  /**
   * Upper bound: an RC frame leaves only within 800 ms plus one loop gap of the last heartbeat
   * or intent, and only if USB had come up by that beat's turn.
   */
  lemma {:induction false} EmissionIsRecent(ts: seq<Turn>, d: nat, k: nat)
    requires Paced(ts, d) && k < |ts| && EmitsAt(ts, k)
    ensures var j := LastBeatTurn(ts, k + 1);
            j >= 0 && UsbBy(ts, j + 1) && ts[k].now - ts[j].now <= 800_000 + d
  {
    AfterSnoc(ts, k);
    EmittingIsRecent(ts, d, k);
  }

  lemma {:induction false} EmittingIsRecent(ts: seq<Turn>, d: nat, k: nat)
    requires Paced(ts, d) && k < |ts| && Emitting(PhaseAfter(ts, k + 1))
    ensures var j := LastBeatTurn(ts, k + 1);
            j >= 0 && UsbBy(ts, j + 1) && ts[k].now - ts[j].now <= 800_000 + d
  {
    TimersAlways(ts, d, k);
    BeatHistory(ts, k + 1);
  }

  /**
   * FAILSAFE is entered neither early nor late: more than 800 ms after the last beat (unless
   * that beat carried the time 0), and at most 800 ms plus two loop gaps after it.
   */
  lemma {:induction false} FailsafeEntry(ts: seq<Turn>, d: nat, k: nat)
    requires Paced(ts, d) && k < |ts|
    requires PhaseAfter(ts, k) != FAILSAFE && PhaseAfter(ts, k + 1) == FAILSAFE
    ensures var j := LastBeatTurn(ts, k + 1);
            && j >= 0
            && (ts[j].now != 0 ==> ts[k].now - ts[j].now > 800_000)
            && ts[k].now - ts[j].now <= 800_000 + 2 * d
  {
    BeatHistory(ts, k + 1);
    AfterSnoc(ts, k);
    assert ts[..0] == [];
    TurnAndBeat(After(ts[..k]).core, ts[k]);
    TimersAlways(ts, d, k - 1);
    assert ts[k].now - ts[k - 1].now <= d;
  }

  /** OK means a beat within 200 ms; HOLD means that the last one is older than that. */
  lemma PhaseTells(ts: seq<Turn>, d: nat, k: nat)
    requires Paced(ts, d) && k < |ts|
    ensures var j := LastBeatTurn(ts, k + 1);
            && (PhaseAfter(ts, k + 1) == OK ==> j >= 0 && ts[j].now != 0 && ts[k].now - ts[j].now <= 200_000)
            && (PhaseAfter(ts, k + 1) == HOLD ==> j >= 0 && (ts[j].now != 0 ==> ts[k].now - ts[j].now > 200_000))
  {
    TimersAlways(ts, d, k);
    if PhaseAfter(ts, k + 1) !in {BOOT, PENDING} {
      BeatHistory(ts, k + 1);
    }
  }

  /** Once out of PENDING the link never goes back. */
  lemma {:induction false} NeverBack(ts: seq<Turn>, j: nat, k: nat)
    requires j <= k <= |ts| && PhaseAfter(ts, j) !in {BOOT, PENDING}
    ensures PhaseAfter(ts, k) !in {BOOT, PENDING}
  {
    if j < k {
      NeverBack(ts, j, k - 1);
      AfterSnoc(ts, k - 1);
      TurnAndBeat(After(ts[..k - 1]).core, ts[k - 1]);
    }
  }

  /** Silence is noticed: without beats for more than 800 ms plus one loop gap, the link is in FAILSAFE. */
  lemma {:induction false} SilenceReachesFailsafe(ts: seq<Turn>, d: nat, j: nat, k: nat)
    requires Paced(ts, d) && j < k < |ts| && PhaseAfter(ts, j + 1) !in {BOOT, PENDING}
    requires LastBeatTurn(ts, k + 1) == j
    requires ts[k].now - ts[j].now > 800_000 + d
    ensures PhaseAfter(ts, k + 1) == FAILSAFE && !EmitsAt(ts, k)
  {
    NeverBack(ts, j + 1, k + 1);
    if Emitting(PhaseAfter(ts, k + 1)) {
      EmittingIsRecent(ts, d, k);
    }
    AfterSnoc(ts, k);
  }

  /** One beat ends PENDING, HOLD and FAILSAFE alike. */
  lemma {:induction false} BeatRestoresLink(ts: seq<Turn>, k: nat)
    requires k < |ts| && HasBeat(ts[k]) && ts[k].now != 0 && PhaseAfter(ts, k) != BOOT
    ensures PhaseAfter(ts, k + 1) == OK
  {
    AfterSnoc(ts, k);
    TurnAndBeat(After(ts[..k]).core, ts[k]);
  }

  // ----- emission cadence ---------------------------------------------------------------------

  lemma {:induction false} LastCrsfPast(ts: seq<Turn>, d: nat, k: nat)
    requires Paced(ts, d) && k < |ts|
    ensures After(ts[..k + 1]).lastCrsf <= ts[k].now
  {
    AfterSnoc(ts, k);
    if k == 0 {
      assert ts[..0] == [];
    } else {
      LastCrsfPast(ts, d, k - 1);
    }
  }

  lemma {:induction false} LastCrsfSince(ts: seq<Turn>, d: nat, i: nat, k: nat)
    requires Paced(ts, d) && i < k <= |ts| && EmitsAt(ts, i)
    ensures After(ts[..k]).lastCrsf >= ts[i].now
  {
    AfterSnoc(ts, k - 1);
    if i < k - 1 {
      LastCrsfSince(ts, d, i, k - 1);
    }
  }

  lemma {:induction false} LastCrsfUnchanged(ts: seq<Turn>, i: nat, k: nat)
    requires i <= k <= |ts| && forall m :: i <= m < k ==> !EmitsAt(ts, m)
    ensures After(ts[..k]).lastCrsf == After(ts[..i]).lastCrsf
  {
    if i < k {
      LastCrsfUnchanged(ts, i, k - 1);
      AfterSnoc(ts, k - 1);
      assert !EmitsAt(ts, k - 1);
    }
  }

  /** Any two RC frames leave at least 20 ms apart. */
  lemma {:induction false} EmissionsApart(ts: seq<Turn>, d: nat, i: nat, k: nat)
    requires Paced(ts, d) && i < k < |ts| && EmitsAt(ts, i) && EmitsAt(ts, k)
    ensures ts[k].now - ts[i].now >= 20_000
  {
    LastCrsfSince(ts, d, i, k);
  }

  /** While the link stays in OK or HOLD, no 20 ms pass without an RC frame. */
  lemma {:induction false} EmissionsKeepUp(ts: seq<Turn>, d: nat, i: nat, k: nat)
    requires Paced(ts, d) && i < k < |ts| && ts[k].now - ts[i].now >= 20_000
    requires Emitting(PhaseAfter(ts, k + 1))
    ensures exists m :: i < m <= k && EmitsAt(ts, m)
  {
    if m :| i < m < k && EmitsAt(ts, m) {
      assert i < m <= k && EmitsAt(ts, m);
    } else {
      LastCrsfUnchanged(ts, i + 1, k);
      LastCrsfPast(ts, d, i);
      AfterSnoc(ts, k);
      assert i < k <= k && EmitsAt(ts, k);
    }
  }
}
