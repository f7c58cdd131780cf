/**
 * Where every emitted channel value comes from, over whole runs: the boot defaults, the last
 * accepted intent, or an arm override that fired since.
 */
module Provenance {
  import opened Bytes
  import opened Link
  import opened Failsafe
  import opened CrsfPack

  /** All events of a run, in order. */
  function Events(ts: seq<Turn>): seq<Event> {
    if ts == [] then [] else Events(ts[..|ts| - 1]) + ts[|ts| - 1].events
  }

  /** Channels and override configuration after a list of events; time plays no part. */
  datatype Outbound = Outbound(channels: Channels, cfg: OverrideConfig)

  function Outgoing(es: seq<Event>): Outbound {
    if es == [] then Outbound(BootChannels(), DEFAULT_CONFIG)
    else
      var n := |es| - 1;
      var o := Outgoing(es[..n]);
      match es[n]
      case UsbReady => o
      case Received(f) =>
        if IsIntent(f) then o.(channels := IntentOf(f))
        else if IsConfig(f) && ConfigOk(ConfigOf(f)) then o.(cfg := ConfigOf(f))
        else o
      case KeyEdge(up) => o.(channels := Override(o.cfg, o.channels, up))
  }

  /** The override configuration in force before event p: the last valid one received, else the default. */
  function ConfigAt(es: seq<Event>, p: nat): (c: OverrideConfig)
    requires p <= |es|
    ensures ConfigOk(c)
  {
    if p == 0 then DEFAULT_CONFIG
    else if es[p - 1].Received? && IsConfig(es[p - 1].f) && ConfigOk(ConfigOf(es[p - 1].f)) then ConfigOf(es[p - 1].f)
    else ConfigAt(es, p - 1)
  }

  /** Event p is a key-down edge that found the throttle low. */
  predicate FiresAt(es: seq<Event>, p: nat)
    requires p < |es|
  {
    es[p].KeyEdge? && Fires(ConfigAt(es, p), Outgoing(es[..p]).channels, es[p].up)
  }

  /** What event p writes into slot s, if it writes there at all. */
  function WriteAt(es: seq<Event>, p: nat, s: nat): Option<word>
    requires p < |es| && s < CHANNELS
  {
    if es[p].Received? && IsIntent(es[p].f) then Some(IntentOf(es[p].f)[s])
    else if FiresAt(es, p) && ConfigAt(es, p).armIdx == s then Some(ConfigAt(es, p).disarm)
    else None
  }

  /** The last of the first p events that writes slot s; -1 if none does. */
  function LastWrite(es: seq<Event>, p: nat, s: nat): (w: int)
    requires p <= |es| && s < CHANNELS
    ensures -1 <= w < p
    ensures w >= 0 ==> WriteAt(es, w, s).Some?
  {
    if p == 0 then -1 else if WriteAt(es, p - 1, s).Some? then p - 1 else LastWrite(es, p - 1, s)
  }

  lemma OutgoingSnoc(es: seq<Event>, p: nat)
    requires p < |es|
    ensures es[..p + 1][..p] == es[..p] && es[..p + 1][p] == es[p]
  {
  }

  lemma {:induction false} ConfigInForce(es: seq<Event>, p: nat)
    requires p <= |es|
    ensures Outgoing(es[..p]).cfg == ConfigAt(es, p)
  {
    if p > 0 {
      OutgoingSnoc(es, p - 1);
      ConfigInForce(es, p - 1);
    }
  }

  lemma OneMoreEvent(es: seq<Event>, p: nat, s: nat)
    requires p < |es| && s < CHANNELS
    ensures Outgoing(es[..p + 1]).channels[s] ==
            if WriteAt(es, p, s).Some? then WriteAt(es, p, s).value else Outgoing(es[..p]).channels[s]
  {
    OutgoingSnoc(es, p);
    ConfigInForce(es, p);
  }

  /** Each slot holds what the last write to it wrote, or its boot value. */
  lemma {:induction false} SlotProvenance(es: seq<Event>, p: nat, s: nat)
    requires p <= |es| && s < CHANNELS
    ensures var w := LastWrite(es, p, s);
            Outgoing(es[..p]).channels[s] == if w >= 0 then WriteAt(es, w, s).value else BootChannels()[s]
  {
    if p > 0 {
      OneMoreEvent(es, p - 1, s);
      SlotProvenance(es, p - 1, s);
    }
  }

  // ----- the runs of the main loop ---------------------------------------------------------

  lemma {:induction false} CoreFollowsEvents(before: seq<Event>, c: Core, es: seq<Event>, now: nat)
    requires Outbound(c.link.channels, c.cfg) == Outgoing(before)
    ensures var c' := ApplyAll(c, es, now); Outbound(c'.link.channels, c'.cfg) == Outgoing(before + es)
  {
    if es == [] {
      assert before + es == before;
    } else {
      var n := |es| - 1;
      CoreFollowsEvents(before, c, es[..n], now);
      assert (before + es)[..|before| + n] == before + es[..n];
      assert (before + es)[|before| + n] == es[n];
    }
  }

  lemma {:induction false} RunFollowsEvents(ts: seq<Turn>)
    ensures var c := After(ts).core; Outbound(c.link.channels, c.cfg) == Outgoing(Events(ts))
  {
    if ts != [] {
      var n := |ts| - 1;
      RunFollowsEvents(ts[..n]);
      CoreFollowsEvents(Events(ts[..n]), After(ts[..n]).core, ts[n].events, ts[n].now);
    }
  }

  /** The channels packed into the frame that turn k emits. */
  function EmittedChannels(ts: seq<Turn>, k: nat): Channels
    requires k < |ts|
  {
    TurnCore(After(ts[..k]).core, ts[k]).link.channels
  }

  /**
   * Provenance of an emitted frame: each of its sixteen channels, unpacked from the bytes, is
   * the value (masked to 11 bits) of the last intent or fired override that wrote the slot in
   * this turn or before, or the boot value when there was none.
   */
  lemma EmittedProvenance(ts: seq<Turn>, k: nat, s: nat)
    requires k < |ts| && EmitsAt(ts, k) && s < CHANNELS
    ensures var es := Events(ts[..k + 1]);
            var w := LastWrite(es, |es|, s);
            Unpack(Packed(EmittedChannels(ts, k)), s) ==
            Mask(if w >= 0 then WriteAt(es, w, s).value else BootChannels()[s])
  {
    var es := Events(ts[..k + 1]);
    AfterSnoc(ts, k);
    RunFollowsEvents(ts[..k + 1]);
    SlotProvenance(es, |es|, s);
    assert es[..|es|] == es;
    UnpackPacked(EmittedChannels(ts, k), s);
  }

  lemma {:induction false} LastWriteStays(es: seq<Event>, p: nat, q: nat, s: nat)
    requires p < q <= |es| && s < CHANNELS && WriteAt(es, p, s).Some?
    requires forall r :: p < r < q ==> WriteAt(es, r, s).None?
    ensures LastWrite(es, q, s) == p
  {
    if p < q - 1 {
      LastWriteStays(es, p, q - 1, s);
    }
  }

  /**
   * Disarm sticks: once an override has fired, the arm slot of every later frame carries the
   * disarm value until an intent or another override writes that slot.
   */
  lemma DisarmPersists(ts: seq<Turn>, k: nat, p: nat)
    requires k < |ts| && EmitsAt(ts, k)
    requires p < |Events(ts[..k + 1])| && FiresAt(Events(ts[..k + 1]), p)
    requires var es := Events(ts[..k + 1]);
             forall r :: p < r < |es| ==> WriteAt(es, r, ConfigAt(es, p).armIdx).None?
    ensures var c := ConfigAt(Events(ts[..k + 1]), p);
            Unpack(Packed(EmittedChannels(ts, k)), c.armIdx) == Mask(c.disarm)
  {
    var es := Events(ts[..k + 1]);
    var c := ConfigAt(es, p);
    LastWriteStays(es, p, |es|, c.armIdx);
    EmittedProvenance(ts, k, c.armIdx);
  }

  /** What happened up to event p does not depend on what comes later. */
  lemma {:induction false} PastIsFixed(es: seq<Event>, more: seq<Event>, p: nat)
    requires p <= |es|
    ensures ConfigAt(es + more, p) == ConfigAt(es, p)
    ensures (es + more)[..p] == es[..p]
    ensures forall s :: p < |es| && 0 <= s < CHANNELS ==> WriteAt(es + more, p, s) == WriteAt(es, p, s)
    ensures p < |es| ==> FiresAt(es + more, p) == FiresAt(es, p)
  {
    if p > 0 {
      PastIsFixed(es, more, p - 1);
    }
  }

  lemma {:induction false} EventsGrow(ts: seq<Turn>, m: nat, k: nat)
    requires m <= k <= |ts|
    ensures |Events(ts[..m])| <= |Events(ts[..k])| && Events(ts[..k])[..|Events(ts[..m])|] == Events(ts[..m])
  {
    if m < k {
      EventsGrow(ts, m, k - 1);
      assert ts[..k][..k - 1] == ts[..k - 1];
    }
  }

  /**
   * Defence in depth, on the wire: an override that has fired by turn i shows up in an RC frame
   * within 20 ms plus one loop gap, as long as the link is not in failsafe by then and nothing
   * else writes the arm slot.
   */
  lemma DisarmReachesTheWire(ts: seq<Turn>, d: nat, i: nat, k: nat, p: nat)
    requires Paced(ts, d) && i < k < |ts| && ts[k].now - ts[i].now >= 20_000
    requires Emitting(PhaseAfter(ts, k + 1))
    requires p < |Events(ts[..i + 1])| && p < |Events(ts[..k + 1])| && FiresAt(Events(ts[..k + 1]), p)
    requires var es := Events(ts[..k + 1]);
             forall r :: p < r < |es| ==> WriteAt(es, r, ConfigAt(es, p).armIdx).None?
    ensures var c := ConfigAt(Events(ts[..k + 1]), p);
            exists m :: i < m <= k && EmitsAt(ts, m) &&
                        Unpack(Packed(EmittedChannels(ts, m)), c.armIdx) == Mask(c.disarm)
  {
    hide Unpack, Packed, EmittedChannels, FiresAt, WriteAt, Events;
    EmissionsKeepUp(ts, d, i, k);
    var m :| i < m <= k && EmitsAt(ts, m);
    EventsGrow(ts, i + 1, m + 1);
    DisarmInFrame(ts, m, k, p);
    var c := ConfigAt(Events(ts[..k + 1]), p);
    assert i < m <= k && EmitsAt(ts, m) && Unpack(Packed(EmittedChannels(ts, m)), c.armIdx) == Mask(c.disarm);
  }

  lemma DisarmInFrame(ts: seq<Turn>, m: nat, k: nat, p: nat)
    requires m <= k < |ts| && EmitsAt(ts, m) && p < |Events(ts[..m + 1])|
    requires p < |Events(ts[..k + 1])| && FiresAt(Events(ts[..k + 1]), p)
    requires var es := Events(ts[..k + 1]);
             forall r :: p < r < |es| ==> WriteAt(es, r, ConfigAt(es, p).armIdx).None?
    ensures var c := ConfigAt(Events(ts[..k + 1]), p);
            Unpack(Packed(EmittedChannels(ts, m)), c.armIdx) == Mask(c.disarm)
  {
    EventsGrow(ts, m + 1, k + 1);
    var es, all := Events(ts[..m + 1]), Events(ts[..k + 1]);
    var more := all[|es|..];
    assert all == es + more;
    PastIsFixed(es, more, p);
    NoWriteInPrefix(es, more, p, ConfigAt(es, p).armIdx);
    DisarmPersists(ts, m, p);
  }

  lemma NoWriteInPrefix(es: seq<Event>, more: seq<Event>, p: nat, slot: nat)
    requires p < |es| && slot < CHANNELS
    requires forall r :: p < r < |es + more| ==> WriteAt(es + more, r, slot).None?
    ensures forall r :: p < r < |es| ==> WriteAt(es, r, slot).None?
  {
    forall r | p < r < |es|
      ensures WriteAt(es, r, slot).None?
    {
      PastIsFixed(es, more, r);
      assert WriteAt(es + more, r, slot).None?;
    }
  }

  /**
   * The boot buffer parks slot 2 as "throttle", but the default override reads slot 0: until
   * the first intent or configuration arrives, a key-down edge is refused.
   */
  lemma BootOverrideRefused(es: seq<Event>, p: nat)
    requires p < |es|
    requires forall r :: 0 <= r < p ==> !es[r].Received? || !(IsIntent(es[r].f) || IsConfig(es[r].f))
    ensures !FiresAt(es, p)
    ensures Outgoing(es[..p]).channels == BootChannels()
  {
    NothingReceived(es, p);
  }

  lemma {:induction false} NothingReceived(es: seq<Event>, p: nat)
    requires p <= |es|
    requires forall r :: 0 <= r < p ==> !es[r].Received? || !(IsIntent(es[r].f) || IsConfig(es[r].f))
    ensures Outgoing(es[..p]) == Outbound(BootChannels(), DEFAULT_CONFIG) && ConfigAt(es, p) == DEFAULT_CONFIG
  {
    if p > 0 {
      OutgoingSnoc(es, p - 1);
      NothingReceived(es, p - 1);
    }
  }
}
