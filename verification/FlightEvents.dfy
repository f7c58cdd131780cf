/**
 * The flight-event detector (pi/daemon/cmd/zerotxd/flight_events.go): edge-triggered events from
 * telemetry snapshots, and what the log of an armed session always looks like. Volts and
 * coordinates are reals.
 */
module FlightEvents {
  import opened Bytes

  // ----- snapshots and events ---------------------------------------------------------------

  datatype Gps = Gps(stale: bool, sats: nat, lat: real, lon: real, alt: int, kmh: real, heading: real)
  datatype Home = Home(lat: real, lon: real, distance: int)
  datatype Battery = Battery(stale: bool, cells: nat, cellVolts: real, volts: real, percent: int)
  datatype Link = Link(stale: bool, lq: nat)
  datatype Snapshot = Snapshot(gps: Option<Gps>, home: Option<Home>, mode: Option<string>,
                               battery: Option<Battery>, link: Option<Link>)

  datatype Event =
    | Armed
    | Disarmed
    | FirstSats(sats: nat)
    | LockAcquired(sats: nat)
    | LockLost(sats: nat)
    | HomeSet(lat: real, lon: real)
    | ModeChange(mode: string)
    | RthActive
    | Failsafe(mode: string)
    | PeakDistance(meters: int, at: Option<(real, real)>)
    | PeakAltitude(meters: int, lat: real, lon: real)
    | BatteryLow(cellVolts: real, volts: real, percent: int)
    | BatteryCritical(cellVolts: real, volts: real, percent: int)
    | LinkDegraded(lq: nat)
    | LinkPoor(lq: nat)
    | LinkRecovered(lq: nat)

  const LOCK_SATS := 6

  /** Bands, worse ones higher. */
  type Band = b: int | 0 <= b <= 2

  /** Per-flight state, one part a check; a missing satellite count is -1. */
  datatype GpsState = GpsState(lastSats: int, locked: bool)
  datatype ModeState = ModeState(last: string, rth: bool, failsafe: bool)
  datatype Peaks = Peaks(distance: int, altitude: int)
  datatype Flight = Flight(gps: GpsState, home: bool, mode: ModeState, peaks: Peaks, battery: Band, link: Band)

  /** The state on arming. */
  function Fresh(): Flight { Flight(GpsState(-1, false), false, ModeState("", false, false), Peaks(0, 0), 0, 0) }

  function FreshGps(s: Snapshot): Option<Gps> {
    if s.gps.Some? && !s.gps.value.stale then s.gps else None
  }

  predicate IsRth(m: string) { m == "RTH" || m == "RTH " }

  predicate IsFailsafe(m: string) { m == "FS" || m == "!FS" || m == "!ERR" }

  function BatteryBand(v: real): Band { if v < 3.4 then 2 else if v < 3.6 then 1 else 0 }

  function LinkBand(lq: nat): Band { if lq < 50 then 2 else if lq < 80 then 1 else 0 }

  // ----- the checks, as functions -----------------------------------------------------------

  function AfterGps(g: GpsState, s: Snapshot): GpsState {
    match FreshGps(s)
    case None => g
    case Some(v) => GpsState(v.sats, v.sats >= LOCK_SATS)
  }

  function SatsEvent(g: GpsState, s: Snapshot): seq<Event> {
    match FreshGps(s)
    case None => []
    case Some(v) => if g.lastSats < 0 && v.sats > 0 then [FirstSats(v.sats)] else []
  }

  function LockEvent(g: GpsState, s: Snapshot): seq<Event> {
    match FreshGps(s)
    case None => []
    case Some(v) =>
      if v.sats >= LOCK_SATS && !g.locked then [LockAcquired(v.sats)]
      else if v.sats < LOCK_SATS && g.locked then [LockLost(v.sats)]
      else []
  }

  function HomeEvent(home: bool, s: Snapshot): seq<Event> {
    if home || s.home.None? then [] else [HomeSet(s.home.value.lat, s.home.value.lon)]
  }

  predicate NewMode(m: ModeState, s: Snapshot) { s.mode.Some? && s.mode.value != "" && s.mode.value != m.last }

  function AfterMode(m: ModeState, s: Snapshot): ModeState {
    if !NewMode(m, s) then m else ModeState(s.mode.value, IsRth(s.mode.value), IsFailsafe(s.mode.value))
  }

  function ChangeEvent(m: ModeState, s: Snapshot): seq<Event> {
    if NewMode(m, s) then [ModeChange(s.mode.value)] else []
  }

  function RthEvent(m: ModeState, s: Snapshot): seq<Event> {
    if NewMode(m, s) && IsRth(s.mode.value) && !m.rth then [RthActive] else []
  }

  function FailsafeEvent(m: ModeState, s: Snapshot): seq<Event> {
    if NewMode(m, s) && IsFailsafe(s.mode.value) && !m.failsafe then [Failsafe(s.mode.value)] else []
  }

  /** The aircraft as it was when failsafe began, for the recovery view. */
  datatype Frozen = Frozen(mode: string, lat: real, lon: real, alt: int, kmh: real, heading: real, hasGps: bool)

  /** A stale position is left out. */
  function FrozenAt(mode: string, s: Snapshot): Frozen {
    match FreshGps(s)
    case None => Frozen(mode, 0.0, 0.0, 0, 0.0, 0.0, false)
    case Some(g) =>
      Frozen(mode, g.lat, g.lon, g.alt, g.kmh, g.heading, g.sats >= 4 && (g.lat != 0.0 || g.lon != 0.0))
  }

  /** What the recovery manager, if there is one, is triggered with. */
  function Recovery(wired: bool, m: ModeState, s: Snapshot): seq<Frozen> {
    if wired && FailsafeEvent(m, s) != [] then [FrozenAt(s.mode.value, s)] else []
  }

  function Max(a: int, b: int): int { if a < b then b else a }

  function AfterPosition(p: Peaks, s: Snapshot): Peaks {
    Peaks(if s.home.Some? then Max(p.distance, s.home.value.distance) else p.distance,
          if FreshGps(s).Some? then Max(p.altitude, FreshGps(s).value.alt) else p.altitude)
  }

  function Position(s: Snapshot): Option<(real, real)> {
    match FreshGps(s)
    case None => None
    case Some(g) => Some((g.lat, g.lon))
  }

  /** A new peak is logged when it enters a new bucket of 50 m. */
  function DistanceEvent(p: Peaks, s: Snapshot): seq<Event> {
    if s.home.Some? && s.home.value.distance > p.distance && s.home.value.distance / 50 > p.distance / 50
    then [PeakDistance(s.home.value.distance, Position(s))] else []
  }

  /** Likewise with 25 m of altitude. */
  function AltitudeEvent(p: Peaks, s: Snapshot): seq<Event> {
    match FreshGps(s)
    case None => []
    case Some(g) =>
      if g.alt > p.altitude && g.alt / 25 > p.altitude / 25 then [PeakAltitude(g.alt, g.lat, g.lon)] else []
  }

  /** A battery reading that counts. */
  function Reading(s: Snapshot): Option<Battery> {
    if s.battery.Some? && !s.battery.value.stale && s.battery.value.cells != 0 && s.battery.value.cellVolts != 0.0
    then s.battery else None
  }

  function AfterBattery(b: Band, s: Snapshot): Band {
    if Reading(s).Some? then BatteryBand(Reading(s).value.cellVolts) else b
  }

  function BatteryEvent(b: Band, s: Snapshot): seq<Event> {
    match Reading(s)
    case None => []
    case Some(r) =>
      if BatteryBand(r.cellVolts) <= b then []
      else if BatteryBand(r.cellVolts) == 1 then [BatteryLow(r.cellVolts, r.volts, r.percent)]
      else [BatteryCritical(r.cellVolts, r.volts, r.percent)]
  }

  function FreshLq(s: Snapshot): Option<nat> {
    if s.link.Some? && !s.link.value.stale then Some(s.link.value.lq) else None
  }

  /** Down at once, back up only at 90. */
  function AfterLink(l: Band, s: Snapshot): Band {
    match FreshLq(s)
    case None => l
    case Some(lq) => if LinkBand(lq) > l || (LinkBand(lq) < l && lq >= 90) then LinkBand(lq) else l
  }

  function LinkEvent(l: Band, s: Snapshot): seq<Event> {
    match FreshLq(s)
    case None => []
    case Some(lq) =>
      if LinkBand(lq) > l then (if LinkBand(lq) == 1 then [LinkDegraded(lq)] else [LinkPoor(lq)])
      else if LinkBand(lq) < l && lq >= 90 then [LinkRecovered(lq)]
      else []
  }

  /** One tick while armed. */
  function Step(f: Flight, s: Snapshot): Flight {
    Flight(AfterGps(f.gps, s), f.home || s.home.Some?, AfterMode(f.mode, s), AfterPosition(f.peaks, s),
           AfterBattery(f.battery, s), AfterLink(f.link, s))
  }

  /** Its events, check by check, at most one each. */
  function Part(f: Flight, s: Snapshot, k: nat): seq<Event>
    requires k < 10
  {
    match k
    case 0 => SatsEvent(f.gps, s)
    case 1 => LockEvent(f.gps, s)
    case 2 => HomeEvent(f.home, s)
    case 3 => ChangeEvent(f.mode, s)
    case 4 => RthEvent(f.mode, s)
    case 5 => FailsafeEvent(f.mode, s)
    case 6 => DistanceEvent(f.peaks, s)
    case 7 => AltitudeEvent(f.peaks, s)
    case 8 => BatteryEvent(f.battery, s)
    case _ => LinkEvent(f.link, s)
  }

  function Parts(f: Flight, s: Snapshot): seq<seq<Event>> {
    seq(10, k requires 0 <= k < 10 => Part(f, s, k))
  }

  /** The first n parts, one after the other. */
  function Strung<T>(ps: seq<seq<T>>, n: nat): seq<T>
    requires n <= |ps|
  {
    if n == 0 then [] else Strung(ps, n - 1) + ps[n - 1]
  }

  /** What a tick logs, in the order of the checks. */
  function Logs(f: Flight, s: Snapshot): seq<Event> { Strung(Parts(f, s), 10) }

  // ----- the detector ---------------------------------------------------------------------------

  class Detector {
    var armed: bool
    var lastMode: string
    var lastSats: int
    var gpsLocked: bool
    var homeSet: bool
    var peakDistanceM: int
    var peakAltitudeM: int
    var batteryThreshold: Band
    var linkQuality: Band
    var rthActive: bool
    var failsafeActive: bool
    /** What the recorder has been given. */
    var log: seq<Event>
    /** Whether a recovery manager is wired, and what it has been triggered with. */
    var wired: bool
    var recoveries: seq<Frozen>

    ghost function View(): Flight
      reads this
    {
      Flight(GpsState(lastSats, gpsLocked), homeSet, ModeState(lastMode, rthActive, failsafeActive),
             Peaks(peakDistanceM, peakAltitudeM), batteryThreshold, linkQuality)
    }

    constructor ()
      ensures !armed && View() == Fresh() && log == [] && !wired && recoveries == []
    {
      armed, log, wired, recoveries := false, [], false, [];
      lastMode, lastSats, gpsLocked, homeSet := "", -1, false, false;
      peakDistanceM, peakAltitudeM, batteryThreshold, linkQuality := 0, 0, 0, 0;
      rthActive, failsafeActive := false, false;
    }

    method LogEvent(e: Event)
      modifies this`log
      ensures log == old(log) + [e]
    {
      log := log + [e];
    }

    /** The manager is stored, or nil, which unwires it. */
    method SetRecoveryManager(present: bool)
      modifies this`wired
      ensures wired == present
    {
      wired := present;
    }

    method ResetFlightState()
      modifies this`lastMode, this`lastSats, this`gpsLocked, this`homeSet, this`peakDistanceM, this`peakAltitudeM
      modifies this`batteryThreshold, this`linkQuality, this`rthActive, this`failsafeActive
      ensures View() == Fresh()
    {
      lastMode, lastSats, gpsLocked, homeSet := "", -1, false, false;
      peakDistanceM, peakAltitudeM, batteryThreshold, linkQuality := 0, 0, 0, 0;
      rthActive, failsafeActive := false, false;
    }

    method SetArmed(on: bool)
      modifies this
      ensures armed == on && wired == old(wired) && recoveries == old(recoveries)
      ensures on == old(armed) ==> View() == old(View()) && log == old(log)
      ensures on && !old(armed) ==> View() == Fresh() && log == old(log) + [Armed]
      ensures !on && old(armed) ==> View() == old(View()) && log == old(log) + [Disarmed]
    {
      if on == armed {
        return;
      }
      armed := on;
      if on {
        ResetFlightState();
        LogEvent(Armed);
      } else {
        LogEvent(Disarmed);
      }
    }

    method Tick(s: Snapshot)
      modifies this
      ensures armed == old(armed) && wired == old(wired)
      ensures !armed ==> View() == old(View()) && log == old(log) && recoveries == old(recoveries)
      ensures armed ==> View() == Step(old(View()), s) && log == old(log) + Logs(old(View()), s)
      ensures armed ==> recoveries == old(recoveries) + Recovery(wired, old(View()).mode, s)
    {
      if !armed {
        return;
      }
      ghost var f := View();
      CheckNavigation(s);
      CheckRest(s);
      StrungOnto(old(log), Parts(f, s));
    }

    /** The first three checks. */
    method CheckNavigation(s: Snapshot)
      modifies this`lastSats, this`gpsLocked, this`homeSet, this`lastMode, this`rthActive, this`failsafeActive
      modifies this`recoveries, this`log
      ensures recoveries == old(recoveries) + Recovery(wired, old(View()).mode, s)
      ensures View() == old(View()).(gps := AfterGps(old(View()).gps, s), home := old(homeSet) || s.home.Some?,
                                     mode := AfterMode(old(View()).mode, s))
      ensures var f := old(View());
              log == old(log) + SatsEvent(f.gps, s) + LockEvent(f.gps, s) + HomeEvent(f.home, s) +
                     ChangeEvent(f.mode, s) + RthEvent(f.mode, s) + FailsafeEvent(f.mode, s)
    {
      CheckGps(s);
      CheckHome(s);
      CheckMode(s);
    }

    /** The last three. */
    method CheckRest(s: Snapshot)
      modifies this`peakDistanceM, this`peakAltitudeM, this`batteryThreshold, this`linkQuality, this`log
      ensures View() == old(View()).(peaks := AfterPosition(old(View()).peaks, s),
                                     battery := AfterBattery(old(batteryThreshold), s),
                                     link := AfterLink(old(linkQuality), s))
      ensures var f := old(View());
              log == old(log) + DistanceEvent(f.peaks, s) + AltitudeEvent(f.peaks, s) + BatteryEvent(f.battery, s) +
                     LinkEvent(f.link, s)
    {
      CheckPosition(s);
      CheckBattery(s);
      CheckLink(s);
    }

    method CheckGps(s: Snapshot)
      modifies this`lastSats, this`gpsLocked, this`log
      ensures GpsState(lastSats, gpsLocked) == AfterGps(old(View()).gps, s)
      ensures log == old(log) + SatsEvent(old(View()).gps, s) + LockEvent(old(View()).gps, s)
    {
      assert log + [] == log;
      if s.gps.None? || s.gps.value.stale {
        return;
      }
      var sats := s.gps.value.sats;
      if lastSats < 0 && sats > 0 {
        LogEvent(FirstSats(sats));
      }
      lastSats := sats;
      var locked := sats >= LOCK_SATS;
      if locked && !gpsLocked {
        LogEvent(LockAcquired(sats));
        gpsLocked := true;
      } else if !locked && gpsLocked {
        LogEvent(LockLost(sats));
        gpsLocked := false;
      }
    }

    method CheckHome(s: Snapshot)
      modifies this`homeSet, this`log
      ensures homeSet == (old(homeSet) || s.home.Some?) && log == old(log) + HomeEvent(old(homeSet), s)
    {
      assert log + [] == log;
      if homeSet || s.home.None? {
        return;
      }
      LogEvent(HomeSet(s.home.value.lat, s.home.value.lon));
      homeSet := true;
    }

    method CheckMode(s: Snapshot)
      modifies this`lastMode, this`rthActive, this`failsafeActive, this`recoveries, this`log
      ensures recoveries == old(recoveries) + Recovery(wired, old(View()).mode, s)
      ensures ModeState(lastMode, rthActive, failsafeActive) == AfterMode(old(View()).mode, s)
      ensures log == old(log) + ChangeEvent(old(View()).mode, s) + RthEvent(old(View()).mode, s) +
                     FailsafeEvent(old(View()).mode, s)
    {
      assert log + [] == log;
      if s.mode.None? {
        return;
      }
      var m := s.mode.value;
      if m == "" || m == lastMode {
        return;
      }
      lastMode := m;
      LogEvent(ModeChange(m));
      var rth := m == "RTH" || m == "RTH ";
      if rth && !rthActive {
        LogEvent(RthActive);
        rthActive := true;
      } else if !rth && rthActive {
        rthActive := false;
      }
      var failsafe := m == "FS" || m == "!FS" || m == "!ERR";
      if failsafe && !failsafeActive {
        LogEvent(Failsafe(m));
        failsafeActive := true;
        if wired {
          var frozen := BuildFrozenSnapshot(m, s);
          recoveries := recoveries + [frozen];
        }
      } else if !failsafe && failsafeActive {
        failsafeActive := false;
      }
    }

    static method BuildFrozenSnapshot(mode: string, s: Snapshot) returns (out: Frozen)
      ensures out == FrozenAt(mode, s)
    {
      out := Frozen(mode, 0.0, 0.0, 0, 0.0, 0.0, false);
      if s.gps.Some? && !s.gps.value.stale {
        var g := s.gps.value;
        out := out.(lat := g.lat, lon := g.lon, alt := g.alt, kmh := g.kmh, heading := g.heading);
        out := out.(hasGps := g.sats >= 4 && (g.lat != 0.0 || g.lon != 0.0));
      }
    }

    method CheckPosition(s: Snapshot)
      modifies this`peakDistanceM, this`peakAltitudeM, this`log
      ensures Peaks(peakDistanceM, peakAltitudeM) == AfterPosition(old(View()).peaks, s)
      ensures log == old(log) + DistanceEvent(old(View()).peaks, s) + AltitudeEvent(old(View()).peaks, s)
    {
      assert log + [] == log;
      var current := s.gps.Some? && !s.gps.value.stale;
      if s.home.Some? {
        var dist := s.home.value.distance;
        if dist > peakDistanceM {
          var oldBucket, newBucket := peakDistanceM / 50, dist / 50;
          peakDistanceM := dist;
          if newBucket > oldBucket {
            LogEvent(PeakDistance(dist, if current then Some((s.gps.value.lat, s.gps.value.lon)) else None));
          }
        }
      }
      if current {
        var alt := s.gps.value.alt;
        if alt > peakAltitudeM {
          var oldBucket, newBucket := peakAltitudeM / 25, alt / 25;
          peakAltitudeM := alt;
          if newBucket > oldBucket {
            LogEvent(PeakAltitude(alt, s.gps.value.lat, s.gps.value.lon));
          }
        }
      }
    }

    method CheckBattery(s: Snapshot)
      modifies this`batteryThreshold, this`log
      ensures batteryThreshold == AfterBattery(old(batteryThreshold), s)
      ensures log == old(log) + BatteryEvent(old(batteryThreshold), s)
    {
      assert log + [] == log;
      if s.battery.None? || s.battery.value.stale {
        return;
      }
      var b := s.battery.value;
      if b.cells == 0 || b.cellVolts == 0.0 {
        return;
      }
      var th: Band := if b.cellVolts < 3.4 then 2 else if b.cellVolts < 3.6 then 1 else 0;
      if th == batteryThreshold {
        return;
      }
      if th > batteryThreshold {
        if th == 1 {
          LogEvent(BatteryLow(b.cellVolts, b.volts, b.percent));
        } else {
          LogEvent(BatteryCritical(b.cellVolts, b.volts, b.percent));
        }
      }
      batteryThreshold := th;
    }

    method CheckLink(s: Snapshot)
      modifies this`linkQuality, this`log
      ensures linkQuality == AfterLink(old(linkQuality), s) && log == old(log) + LinkEvent(old(linkQuality), s)
    {
      assert log + [] == log;
      if s.link.None? || s.link.value.stale {
        return;
      }
      var lq := s.link.value.lq;
      var q: Band := if lq < 50 then 2 else if lq < 80 then 1 else 0;
      if q > linkQuality {
        if q == 1 {
          LogEvent(LinkDegraded(lq));
        } else {
          LogEvent(LinkPoor(lq));
        }
        linkQuality := q;
      } else if q < linkQuality && lq >= 90 {
        LogEvent(LinkRecovered(lq));
        linkQuality := q;
      }
    }
  }

  lemma StrungOnto<T>(l: seq<T>, ps: seq<seq<T>>)
    requires |ps| == 10
    ensures l + ps[0] + ps[1] + ps[2] + ps[3] + ps[4] + ps[5] + ps[6] + ps[7] + ps[8] + ps[9] == l + Strung(ps, 10)
  {
    assert l + Strung(ps, 0) == l;
    StrungNext(l, ps, 0);
    StrungNext(l, ps, 1);
    StrungNext(l, ps, 2);
    StrungNext(l, ps, 3);
    StrungNext(l, ps, 4);
    StrungNext(l, ps, 5);
    StrungNext(l, ps, 6);
    StrungNext(l, ps, 7);
    StrungNext(l, ps, 8);
    StrungNext(l, ps, 9);
  }

  lemma StrungNext<T>(l: seq<T>, ps: seq<seq<T>>, n: nat)
    requires n < |ps|
    ensures l + Strung(ps, n + 1) == l + Strung(ps, n) + ps[n]
  {
  }
}
