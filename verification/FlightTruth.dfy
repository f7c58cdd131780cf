/**
 * What the flight log says and when it says it, in numbers and names: every event tells the values
 * of the very snapshot that caused it, and satellites, lock, mode and return-to-home are logged
 * exactly when a session's history calls for it.
 */
module FlightTruth {
  import opened Bytes
  import opened FlightEvents
  import opened FlightLog

  /** The GPS reading of a snapshot, if it counts. */
  function Fix(s: Snapshot): Option<Gps> { if s.gps.Some? && !s.gps.value.stale then s.gps else None }

  /** What each event claims about a snapshot. */
  predicate Truthful(e: Event, s: Snapshot) {
    match e
    case Armed => false
    case Disarmed => false
    case FirstSats(n) => Fix(s).Some? && Fix(s).value.sats == n && n > 0
    case LockAcquired(n) => Fix(s).Some? && Fix(s).value.sats == n && n >= 6
    case LockLost(n) => Fix(s).Some? && Fix(s).value.sats == n && n < 6
    case HomeSet(lat, lon) => s.home.Some? && s.home.value.lat == lat && s.home.value.lon == lon
    case ModeChange(m) => s.mode == Some(m) && m != ""
    case RthActive => s.mode in {Some("RTH"), Some("RTH ")}
    case Failsafe(m) => s.mode == Some(m) && m in {"FS", "!FS", "!ERR"}
    case PeakDistance(m, at) =>
      && s.home.Some? && s.home.value.distance == m
      && at == (if Fix(s).Some? then Some((Fix(s).value.lat, Fix(s).value.lon)) else None)
    case PeakAltitude(m, lat, lon) =>
      Fix(s).Some? && Fix(s).value.alt == m && Fix(s).value.lat == lat && Fix(s).value.lon == lon
    case BatteryLow(cell, volts, percent) => Charge(s, cell, volts, percent) && 3.4 <= cell < 3.6
    case BatteryCritical(cell, volts, percent) => Charge(s, cell, volts, percent) && cell < 3.4
    case LinkDegraded(lq) => Quality(s, lq) && 50 <= lq < 80
    case LinkPoor(lq) => Quality(s, lq) && lq < 50
    case LinkRecovered(lq) => Quality(s, lq) && lq >= 90
  }

  predicate Charge(s: Snapshot, cell: real, volts: real, percent: int) {
    && s.battery.Some? && !s.battery.value.stale && s.battery.value.cells != 0 && cell != 0.0
    && s.battery.value.cellVolts == cell && s.battery.value.volts == volts && s.battery.value.percent == percent
  }

  predicate Quality(s: Snapshot, lq: nat) { s.link.Some? && !s.link.value.stale && s.link.value.lq == lq }

  lemma PartTruthful(f: Flight, s: Snapshot, k: nat, e: Event)
    requires k < 10 && e in Part(f, s, k)
    ensures Truthful(e, s)
  {
  }

  lemma {:induction false} StrungFrom<T>(ps: seq<seq<T>>, n: nat, x: T) returns (k: nat)
    requires n <= |ps| && x in Strung(ps, n)
    ensures k < n && x in ps[k]
  {
    if x in ps[n - 1] {
      k := n - 1;
    } else {
      k := StrungFrom(ps, n - 1, x);
    }
  }

  /** Every event of a tick is true of that tick's snapshot. */
  lemma TickTruthful(f: Flight, s: Snapshot, e: Event)
    requires e in Logs(f, s)
    ensures Truthful(e, s)
  {
    var k := StrungFrom(Parts(f, s), 10, e);
    assert Parts(f, s)[k] == Part(f, s, k);
    PartTruthful(f, s, k, e);
  }

  /** Over every session: whatever is logged was true of one of its snapshots. */
  lemma {:induction false} LogTruthful(ss: seq<Snapshot>, e: Event)
    requires e in Log(ss)
    ensures exists s :: s in ss && Truthful(e, s)
  {
    var n := |ss| - 1;
    assert ss[n] in ss;
    if e in Logs(After(ss[..n]), ss[n]) {
      TickTruthful(After(ss[..n]), ss[n], e);
    } else {
      LogTruthful(ss[..n], e);
      var s :| s in ss[..n] && Truthful(e, s);
      assert s in ss;
    }
  }

  // ----- satellites and lock --------------------------------------------------------------------

  /** The satellite count of the first reading of a session that counts; -1 before it. */
  function FirstCount(ss: seq<Snapshot>): int {
    if ss == [] then -1
    else if FirstCount(ss[..|ss| - 1]) >= 0 then FirstCount(ss[..|ss| - 1])
    else if Fix(ss[|ss| - 1]).Some? then Fix(ss[|ss| - 1]).value.sats
    else -1
  }

  /** And of the last one. */
  function LastCount(ss: seq<Snapshot>): int {
    if ss == [] then -1
    else if Fix(ss[|ss| - 1]).Some? then Fix(ss[|ss| - 1]).value.sats
    else LastCount(ss[..|ss| - 1])
  }

  /** The detector is locked exactly if the last count was 6 or more. */
  lemma {:induction false} LockTold(ss: seq<Snapshot>)
    ensures After(ss).gps == GpsState(LastCount(ss), LastCount(ss) >= 6)
    ensures LastCount(ss) >= 0 <==> FirstCount(ss) >= 0
  {
    if ss != [] {
      LockTold(ss[..|ss| - 1]);
    }
  }

  /** Satellites are logged once, with the first count of the session, and never if that was 0. */
  lemma {:induction false} SatsOnce(ss: seq<Snapshot>)
    ensures On(ss, SATS) == if FirstCount(ss) > 0 then [FirstSats(FirstCount(ss))] else []
  {
    if ss != [] {
      var n := |ss| - 1;
      SatsOnce(ss[..n]);
      LockTold(ss[..n]);
      OnSnoc(ss, SATS);
      MoreTicks(After(ss[..n]), ss[n]);
    }
  }

  lemma MoreTicks(f: Flight, s: Snapshot)
    ensures TickOn(f, s, SATS) == SatsEvent(f.gps, s)
    ensures TickOn(f, s, MODE) == ChangeEvent(f.mode, s) && TickOn(f, s, RTH) == RthEvent(f.mode, s)
  {
  }

  /** Lock events: gained or lost exactly when the last count crosses 6. */
  lemma LockOnCrossing(ss: seq<Snapshot>)
    requires ss != []
    ensures var before := ss[..|ss| - 1];
            On(ss, LOCK) == On(before, LOCK) +
            if LastCount(ss) >= 6 && LastCount(before) < 6 then [LockAcquired(LastCount(ss))]
            else if LastCount(ss) < 6 && LastCount(before) >= 6 then [LockLost(LastCount(ss))]
            else []
  {
    LockTold(ss[..|ss| - 1]);
    OnSnoc(ss, LOCK);
    TickOnIs(After(ss[..|ss| - 1]), ss[|ss| - 1]);
  }

  // ----- modes -----------------------------------------------------------------------------------

  /** A mode is logged exactly when it differs from the last one. */
  lemma ModeOnChange(ss: seq<Snapshot>)
    requires ss != []
    ensures var before := ss[..|ss| - 1];
            On(ss, MODE) == On(before, MODE) +
            if LastMode(ss) != LastMode(before) then [ModeChange(LastMode(ss))] else []
  {
    OnSnoc(ss, MODE);
    MoreTicks(After(ss[..|ss| - 1]), ss[|ss| - 1]);
    ModeTold(ss[..|ss| - 1]);
  }

  /** Return-to-home is announced exactly on entering it, under either of its names. */
  lemma RthOnEntry(ss: seq<Snapshot>)
    requires ss != []
    ensures var before := ss[..|ss| - 1];
            On(ss, RTH) == On(before, RTH) +
            if LastMode(ss) in {"RTH", "RTH "} && LastMode(before) !in {"RTH", "RTH "} then [RthActive] else []
  {
    OnSnoc(ss, RTH);
    MoreTicks(After(ss[..|ss| - 1]), ss[|ss| - 1]);
    ModeTold(ss[..|ss| - 1]);
  }

  // ----- the order within a tick --------------------------------------------------------------------

  /** Satellites, lock, home, mode, return-to-home, failsafe, distance, altitude, battery, link. */
  function Rank(e: Event): nat {
    match e
    case Armed => 10
    case Disarmed => 10
    case FirstSats(_) => 0
    case LockAcquired(_) => 1
    case LockLost(_) => 1
    case HomeSet(_, _) => 2
    case ModeChange(_) => 3
    case RthActive => 4
    case Failsafe(_) => 5
    case PeakDistance(_, _) => 6
    case PeakAltitude(_, _, _) => 7
    case BatteryLow(_, _, _) => 8
    case BatteryCritical(_, _, _) => 8
    case LinkDegraded(_) => 9
    case LinkPoor(_) => 9
    case LinkRecovered(_) => 9
  }

  predicate InOrder(es: seq<Event>) { forall i, j :: 0 <= i < j < |es| ==> Rank(es[i]) < Rank(es[j]) }

  lemma PartRank(f: Flight, s: Snapshot, k: nat)
    requires k < 10
    ensures |Parts(f, s)[k]| <= 1 && forall e :: e in Parts(f, s)[k] ==> Rank(e) == k
  {
    assert Parts(f, s)[k] == Part(f, s, k);
  }

  lemma {:induction false} PartsInOrder(f: Flight, s: Snapshot, n: nat)
    requires n <= 10
    ensures InOrder(Strung(Parts(f, s), n)) && forall e :: e in Strung(Parts(f, s), n) ==> Rank(e) < n
  {
    if n > 0 {
      PartsInOrder(f, s, n - 1);
      PartRank(f, s, n - 1);
      hide Parts;
      NextInOrder(Strung(Parts(f, s), n - 1), Parts(f, s)[n - 1], n - 1);
    }
  }

  lemma NextInOrder(es: seq<Event>, part: seq<Event>, k: nat)
    requires InOrder(es) && (forall e :: e in es ==> Rank(e) < k)
    requires |part| <= 1 && forall e :: e in part ==> Rank(e) == k
    ensures InOrder(es + part) && forall e :: e in es + part ==> Rank(e) < k + 1
  {
    hide Rank;
    var all := es + part;
    forall i, j | 0 <= i < j < |all|
      ensures Rank(all[i]) < Rank(all[j])
    {
      assert all[i] in es;
      if j >= |es| {
        assert all[j] in part;
      }
    }
  }

  /** A tick logs at most one event of each kind, in that order. */
  lemma TickInOrder(f: Flight, s: Snapshot)
    ensures InOrder(Logs(f, s))
  {
    PartsInOrder(f, s, 10);
  }
}
