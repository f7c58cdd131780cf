/** What the log of an armed session looks like, topic by topic, for every sequence of snapshots. */
module FlightLog {
  import opened Bytes
  import opened FlightEvents

  /** The state after the snapshots of a session, from arming on. */
  function After(ss: seq<Snapshot>): Flight {
    if ss == [] then Fresh() else Step(After(ss[..|ss| - 1]), ss[|ss| - 1])
  }

  /** Everything logged by those ticks. */
  function Log(ss: seq<Snapshot>): seq<Event> {
    if ss == [] then []
    else
      var n := |ss| - 1;
      Log(ss[..n]) + Logs(After(ss[..n]), ss[n])
  }

  // ----- sessions -----------------------------------------------------------------------

  datatype Call = SetArmed(on: bool) | Tick(s: Snapshot)

  datatype State = State(armed: bool, flight: Flight, log: seq<Event>)

  function Do(st: State, c: Call): State {
    match c
    case SetArmed(on) =>
      if on == st.armed then st
      else if on then State(true, Fresh(), st.log + [Armed])
      else State(false, st.flight, st.log + [Disarmed])
    case Tick(s) => if st.armed then State(true, Step(st.flight, s), st.log + Logs(st.flight, s)) else st
  }

  function DoAll(st: State, cs: seq<Call>): State {
    if cs == [] then st else Do(DoAll(st, cs[..|cs| - 1]), cs[|cs| - 1])
  }

  function Ticks(ss: seq<Snapshot>): seq<Call> { seq(|ss|, k requires 0 <= k < |ss| => Tick(ss[k])) }

  lemma {:induction false} TicksWhileArmed(st: State, ss: seq<Snapshot>)
    requires st.armed && st.flight == Fresh()
    ensures DoAll(st, Ticks(ss)) == State(true, After(ss), st.log + Log(ss))
  {
    if ss == [] {
      assert st.log + [] == st.log;
    } else {
      var n := |ss| - 1;
      assert Ticks(ss)[..n] == Ticks(ss[..n]);
      TicksWhileArmed(st, ss[..n]);
      Regroup(st.log, Log(ss[..n]), Logs(After(ss[..n]), ss[n]));
      assert Do(State(true, After(ss[..n]), st.log + Log(ss[..n])), Tick(ss[n])) ==
             State(true, After(ss), st.log + Log(ss[..n]) + Logs(After(ss[..n]), ss[n]));
    }
  }

  /** A session logs the same whatever happened in earlier ones: armed, the ticks' events, disarmed. */
  lemma SessionLog(st: State, ss: seq<Snapshot>)
    requires !st.armed
    ensures var armed := Do(st, SetArmed(true));
            Do(DoAll(armed, Ticks(ss)), SetArmed(false)) ==
            State(false, After(ss), st.log + [Armed] + Log(ss) + [Disarmed])
  {
    TicksWhileArmed(Do(st, SetArmed(true)), ss);
  }

  /** Calls, read as a history: the snapshots of each flight that has ended, and of the one in progress. */
  datatype History = History(ended: seq<seq<Snapshot>>, current: Option<seq<Snapshot>>)

  function HistoryOf(cs: seq<Call>): History {
    if cs == [] then History([], None) else Extended(HistoryOf(cs[..|cs| - 1]), cs[|cs| - 1])
  }

  /** Arming begins a flight, disarming ends it; a repeated call, or a tick between flights, counts for nothing. */
  function Extended(h: History, c: Call): History {
    match h.current
    case None => if c == SetArmed(true) then h.(current := Some([])) else h
    case Some(ss) =>
      match c
      case Tick(s) => h.(current := Some(ss + [s]))
      case SetArmed(on) => if on then h else History(h.ended + [ss], None)
  }

  function EndedLog(flights: seq<seq<Snapshot>>): seq<Event> {
    if flights == [] then []
    else EndedLog(flights[..|flights| - 1]) + [Armed] + Log(flights[|flights| - 1]) + [Disarmed]
  }

  function HistoryLog(h: History): seq<Event> {
    EndedLog(h.ended) + if h.current.Some? then [Armed] + Log(h.current.value) else []
  }

  /**
   * Whatever calls the detector gets, in whatever order: it logs flight by flight, each as if it
   * were the first, and nothing in between.
   */
  lemma {:induction false} WholeLog(st: State, cs: seq<Call>)
    requires !st.armed
    ensures var r, h := DoAll(st, cs), HistoryOf(cs);
            && r.log == st.log + HistoryLog(h) && (r.armed <==> h.current.Some?)
            && (h.current.Some? ==> r.flight == After(h.current.value))
  {
    if cs == [] {
      assert st.log + HistoryLog(History([], None)) == st.log;
    } else {
      var n := |cs| - 1;
      WholeLog(st, cs[..n]);
      OneMoreCall(st.log, HistoryOf(cs[..n]), cs[n], DoAll(st, cs[..n]));
    }
  }

  lemma OneMoreCall(log: seq<Event>, h: History, c: Call, r: State)
    requires r.log == log + HistoryLog(h) && (r.armed <==> h.current.Some?)
    requires h.current.Some? ==> r.flight == After(h.current.value)
    ensures var r', h' := Do(r, c), Extended(h, c);
            && r'.log == log + HistoryLog(h') && (r'.armed <==> h'.current.Some?)
            && (h'.current.Some? ==> r'.flight == After(h'.current.value))
  {
    hide Step, Logs, Fresh, HistoryLog, After;
    match h.current
    case None =>
      FlightBegins(h);
    case Some(ss) =>
      match c
      case Tick(s) => FlightTicks(h, s);
      case SetArmed(on) => FlightEnds(h);
  }

  lemma FlightBegins(h: History)
    requires h.current.None?
    ensures HistoryLog(h.(current := Some([]))) == HistoryLog(h) + [Armed] && After([]) == Fresh()
  {
    assert Log([]) == [];
  }

  lemma FlightTicks(h: History, s: Snapshot)
    requires h.current.Some?
    ensures var ss := h.current.value;
            && After(ss + [s]) == Step(After(ss), s)
            && HistoryLog(h.(current := Some(ss + [s]))) == HistoryLog(h) + Logs(After(ss), s)
  {
    hide Step, Logs, Fresh;
    var ss := h.current.value;
    assert (ss + [s])[..|ss|] == ss;
    assert Log(ss + [s]) == Log(ss) + Logs(After(ss), s);
  }

  lemma FlightEnds(h: History)
    requires h.current.Some?
    ensures HistoryLog(History(h.ended + [h.current.value], None)) == HistoryLog(h) + [Disarmed]
  {
    hide Log;
    assert (h.ended + [h.current.value])[..|h.ended|] == h.ended;
  }

  // ----- topics ---------------------------------------------------------------------------

  datatype Topic = SESSION | SATS | LOCK | HOME | MODE | RTH | FAILSAFE | DISTANCE | ALTITUDE | BATTERY | LINK

  function TopicOf(e: Event): Topic {
    match e
    case Armed => SESSION
    case Disarmed => SESSION
    case FirstSats(_) => SATS
    case LockAcquired(_) => LOCK
    case LockLost(_) => LOCK
    case HomeSet(_, _) => HOME
    case ModeChange(_) => MODE
    case RthActive => RTH
    case Failsafe(_) => FAILSAFE
    case PeakDistance(_, _) => DISTANCE
    case PeakAltitude(_, _, _) => ALTITUDE
    case BatteryLow(_, _, _) => BATTERY
    case BatteryCritical(_, _, _) => BATTERY
    case LinkDegraded(_) => LINK
    case LinkPoor(_) => LINK
    case LinkRecovered(_) => LINK
  }

  function Concerns(t: Topic): Event -> bool { (e: Event) => TopicOf(e) == t }

  function Select(es: seq<Event>, t: Topic): seq<Event> { Kept(es, Concerns(t)) }

  /** At most one event, on the given topic. */
  predicate Single(es: seq<Event>, own: Topic) { es == [] || (|es| == 1 && TopicOf(es[0]) == own) }

  /** The topic of each part of a tick's log, and the part of each topic. */
  function Own(k: nat): Topic
    requires k < 10
  {
    match k
    case 0 => SATS
    case 1 => LOCK
    case 2 => HOME
    case 3 => MODE
    case 4 => RTH
    case 5 => FAILSAFE
    case 6 => DISTANCE
    case 7 => ALTITUDE
    case 8 => BATTERY
    case _ => LINK
  }

  function PartOf(t: Topic): nat {
    match t
    case SATS => 0
    case LOCK => 1
    case HOME => 2
    case MODE => 3
    case RTH => 4
    case FAILSAFE => 5
    case DISTANCE => 6
    case ALTITUDE => 7
    case BATTERY => 8
    case LINK => 9
    case SESSION => 10
  }

  /** One more part. */
  lemma AddPart(acc: seq<Event>, part: seq<Event>, own: Topic, t: Topic)
    requires Single(part, own)
    ensures t != own ==> Select(acc + part, t) == Select(acc, t)
    ensures t == own && Select(acc, t) == [] ==> Select(acc + part, t) == part
  {
    KeptAppend(acc, part, Concerns(t));
    assert part != [] ==> part[..0] == [];
    assert Select(acc, t) + [] == Select(acc, t) && [] + part == part;
  }

  lemma OwnInverse(k: nat, t: Topic)
    requires k < 10
    ensures t == Own(k) <==> PartOf(t) == k
  {
  }

  lemma {:induction false} SelectStrung(ps: seq<seq<Event>>, n: nat, t: Topic)
    requires n <= |ps| == 10 && forall k :: 0 <= k < 10 ==> Single(ps[k], Own(k))
    ensures Select(Strung(ps, n), t) == if PartOf(t) < n then ps[PartOf(t)] else []
  {
    if n > 0 {
      SelectStrung(ps, n - 1, t);
      OwnInverse(n - 1, t);
      AddPart(Strung(ps, n - 1), ps[n - 1], Own(n - 1), t);
    }
  }

  /** What a tick logs on a topic. */
  function TickOn(f: Flight, s: Snapshot, t: Topic): seq<Event> {
    if t == SESSION then [] else Parts(f, s)[PartOf(t)]
  }

  lemma PartsSingle(f: Flight, s: Snapshot, k: nat)
    requires k < 10
    ensures Single(Parts(f, s)[k], Own(k))
  {
    assert Parts(f, s)[k] == Part(f, s, k);
  }

  lemma TickSelects(f: Flight, s: Snapshot, t: Topic)
    ensures Select(Logs(f, s), t) == TickOn(f, s, t)
  {
    forall k | 0 <= k < 10
      ensures Single(Parts(f, s)[k], Own(k))
    {
      PartsSingle(f, s, k);
    }
    SelectStrung(Parts(f, s), 10, t);
  }

  /** The same, topic by topic. */
  lemma TickOnIs(f: Flight, s: Snapshot)
    ensures TickOn(f, s, LOCK) == LockEvent(f.gps, s) && TickOn(f, s, HOME) == HomeEvent(f.home, s)
    ensures TickOn(f, s, FAILSAFE) == FailsafeEvent(f.mode, s) && TickOn(f, s, DISTANCE) == DistanceEvent(f.peaks, s)
    ensures TickOn(f, s, ALTITUDE) == AltitudeEvent(f.peaks, s) && TickOn(f, s, BATTERY) == BatteryEvent(f.battery, s)
    ensures TickOn(f, s, LINK) == LinkEvent(f.link, s)
  {
  }

  /** A session's log on one topic. */
  function On(ss: seq<Snapshot>, t: Topic): seq<Event> { Select(Log(ss), t) }

  lemma OnSnoc(ss: seq<Snapshot>, t: Topic)
    requires ss != []
    ensures var n := |ss| - 1; On(ss, t) == On(ss[..n], t) + TickOn(After(ss[..n]), ss[n], t)
  {
    var n := |ss| - 1;
    KeptAppend(Log(ss[..n]), Logs(After(ss[..n]), ss[n]), Concerns(t));
    TickSelects(After(ss[..n]), ss[n], t);
  }

  // ----- link -----------------------------------------------------------------------------

  /** Link qualities seen fresh since the last one of 90 or more. */
  function SinceGood(ss: seq<Snapshot>): seq<nat> {
    if ss == [] then []
    else
      var lq := FreshLq(ss[|ss| - 1]);
      var before := SinceGood(ss[..|ss| - 1]);
      if lq.None? then before else if lq.value >= 90 then [] else before + [lq.value]
  }

  /** The worst band of a list of qualities. */
  function Worst(lqs: seq<nat>): Band {
    if exists lq :: lq in lqs && lq < 50 then 2 else if exists lq :: lq in lqs && lq < 80 then 1 else 0
  }

  lemma WorstSnoc(lqs: seq<nat>, lq: nat)
    ensures Worst(lqs + [lq]) == Max(Worst(lqs), LinkBand(lq))
  {
    assert lq in lqs + [lq];
    assert forall x :: x in lqs ==> x in lqs + [lq];
  }

  /** The band is always the worst since arming or since the last good sample. */
  lemma {:induction false} LinkIsWorst(ss: seq<Snapshot>)
    ensures After(ss).link == Worst(SinceGood(ss))
  {
    if ss != [] {
      var n := |ss| - 1;
      LinkIsWorst(ss[..n]);
      var lq := FreshLq(ss[n]);
      if lq.Some? {
        WorstSnoc(SinceGood(ss[..n]), lq.value);
      }
    }
  }

  /** Which link event may follow which; a session starts with a degradation. */
  predicate LinkFollows(a: Event, b: Event) {
    match a
    case LinkDegraded(_) => b.LinkPoor? || b.LinkRecovered?
    case LinkPoor(_) => b.LinkRecovered?
    case LinkRecovered(_) => b.LinkDegraded? || b.LinkPoor?
    case _ => false
  }

  /** ((D|DP|P)R)* with an optional unfinished group. */
  predicate LinkGroups(es: seq<Event>) {
    && (es != [] ==> es[0].LinkDegraded? || es[0].LinkPoor?)
    && (forall i, j :: 0 <= i && j == i + 1 < |es| ==> LinkFollows(es[i], es[j]))
  }

  /** The band the last link event tells. */
  function Told(es: seq<Event>): Band {
    if es == [] then 0
    else
      match es[|es| - 1]
      case LinkDegraded(_) => 1
      case LinkPoor(_) => 2
      case _ => 0
  }

  /** Link events come in groups, and the last one always tells the current band. */
  lemma {:induction false} LinkLogShape(ss: seq<Snapshot>)
    ensures LinkGroups(On(ss, LINK)) && Told(On(ss, LINK)) == After(ss).link
  {
    if ss != [] {
      var n := |ss| - 1;
      LinkLogShape(ss[..n]);
      OnSnoc(ss, LINK);
      TickOnIs(After(ss[..n]), ss[n]);
      LinkStep(On(ss[..n], LINK), After(ss[..n]).link, ss[n]);
    }
  }

  lemma OneMoreLink(es: seq<Event>, e: Event)
    requires LinkGroups(es) && TopicOf(e) == LINK
    requires Told(es) == 0 ==> e.LinkDegraded? || e.LinkPoor?
    requires Told(es) == 1 ==> e.LinkPoor? || e.LinkRecovered?
    requires Told(es) == 2 ==> e.LinkRecovered?
    ensures LinkGroups(es + [e])
  {
    if |es| > 1 {
      assert LinkFollows(es[|es| - 2], es[|es| - 1]);
    }
  }

  lemma LinkStep(es: seq<Event>, l: Band, s: Snapshot)
    requires LinkGroups(es) && Told(es) == l
    ensures LinkGroups(es + LinkEvent(l, s)) && Told(es + LinkEvent(l, s)) == AfterLink(l, s)
  {
    if LinkEvent(l, s) == [] {
      assert es + [] == es;
    } else {
      var e := LinkEvent(l, s)[0];
      assert LinkEvent(l, s) == [e];
      OneMoreLink(es, e);
    }
  }

  // ----- GPS lock ---------------------------------------------------------------------------

  /** Acquired and lost by turns. */
  predicate Alternating(es: seq<Event>) {
    forall i :: 0 <= i < |es| ==> if i % 2 == 0 then es[i].LockAcquired? else es[i].LockLost?
  }

  /** Lock events alternate, starting with an acquisition, and the last one tells the current state. */
  lemma {:induction false} LockAlternates(ss: seq<Snapshot>)
    ensures Alternating(On(ss, LOCK)) && (After(ss).gps.locked <==> |On(ss, LOCK)| % 2 == 1)
  {
    if ss != [] {
      var n := |ss| - 1;
      LockAlternates(ss[..n]);
      OnSnoc(ss, LOCK);
      TickOnIs(After(ss[..n]), ss[n]);
      LockStep(On(ss[..n], LOCK), After(ss[..n]).gps, ss[n]);
    }
  }

  lemma LockStep(es: seq<Event>, g: GpsState, s: Snapshot)
    requires Alternating(es) && (g.locked <==> |es| % 2 == 1)
    ensures Alternating(es + LockEvent(g, s)) && (AfterGps(g, s).locked <==> |es + LockEvent(g, s)| % 2 == 1)
  {
  }

  // ----- home and mode ------------------------------------------------------------------------

  predicate HomeSeen(ss: seq<Snapshot>) { exists k :: 0 <= k < |ss| && ss[k].home.Some? }

  lemma HomeSeenSnoc(ss: seq<Snapshot>)
    requires ss != []
    ensures HomeSeen(ss) <==> HomeSeen(ss[..|ss| - 1]) || ss[|ss| - 1].home.Some?
  {
    var before := ss[..|ss| - 1];
    assert forall k :: 0 <= k < |before| ==> before[k] == ss[k];
  }

  /** Home is logged at most once a session: as soon as a snapshot has it. */
  lemma {:induction false} HomeOnce(ss: seq<Snapshot>)
    ensures After(ss).home <==> HomeSeen(ss)
    ensures |On(ss, HOME)| == if HomeSeen(ss) then 1 else 0
  {
    if ss != [] {
      var n := |ss| - 1;
      HomeOnce(ss[..n]);
      HomeSeenSnoc(ss);
      OnSnoc(ss, HOME);
      TickOnIs(After(ss[..n]), ss[n]);
    }
  }

  /** The last non-empty mode of a session. */
  function LastMode(ss: seq<Snapshot>): string {
    if ss == [] then ""
    else
      var m := ss[|ss| - 1].mode;
      if m.Some? && m.value != "" then m.value else LastMode(ss[..|ss| - 1])
  }

  /** The derived flags are functions of the last mode seen. */
  lemma {:induction false} ModeTold(ss: seq<Snapshot>)
    ensures After(ss).mode == ModeState(LastMode(ss), IsRth(LastMode(ss)), IsFailsafe(LastMode(ss)))
  {
    if ss != [] {
      ModeTold(ss[..|ss| - 1]);
    }
  }

  /**
   * Failsafe is announced exactly when the mode enters the failsafe family from outside it:
   * going from one failsafe mode to another stays silent.
   */
  lemma FailsafeOnEntry(ss: seq<Snapshot>)
    requires ss != []
    ensures var before := ss[..|ss| - 1];
            On(ss, FAILSAFE) == On(before, FAILSAFE) +
            if LastMode(ss) in {"FS", "!FS", "!ERR"} && LastMode(before) !in {"FS", "!FS", "!ERR"}
            then [Failsafe(LastMode(ss))] else []
  {
    OnSnoc(ss, FAILSAFE);
    TickOnIs(After(ss[..|ss| - 1]), ss[|ss| - 1]);
    ModeTold(ss);
    ModeTold(ss[..|ss| - 1]);
  }

  /** What a wired recovery manager is triggered with during a session. */
  function Recoveries(ss: seq<Snapshot>): seq<Frozen> {
    if ss == [] then []
    else
      var n := |ss| - 1;
      Recoveries(ss[..n]) + Recovery(true, After(ss[..n]).mode, ss[n])
  }

  /** The failsafe events that announce these modes. */
  function Announcing(rs: seq<Frozen>): seq<Event> { seq(|rs|, k requires 0 <= k < |rs| => Failsafe(rs[k].mode)) }

  lemma AnnouncingAppend(a: seq<Frozen>, b: seq<Frozen>)
    ensures Announcing(a + b) == Announcing(a) + Announcing(b)
  {
  }

  /** The recovery view opens once for every failsafe event, in order and with the mode announced. */
  lemma {:induction false} RecoveriesFollowFailsafe(ss: seq<Snapshot>)
    ensures On(ss, FAILSAFE) == Announcing(Recoveries(ss))
  {
    if ss == [] {
      return;
    }
    hide Step, Fresh, Log, On, TickOn, Recovery, FailsafeEvent, Announcing;
    var n := |ss| - 1;
    RecoveriesFollowFailsafe(ss[..n]);
    OnSnoc(ss, FAILSAFE);
    TickOnIs(After(ss[..n]), ss[n]);
    TriggerPerEvent(After(ss[..n]).mode, ss[n]);
    AnnouncingAppend(Recoveries(ss[..n]), Recovery(true, After(ss[..n]).mode, ss[n]));
  }

  lemma TriggerPerEvent(m: ModeState, s: Snapshot)
    ensures FailsafeEvent(m, s) == Announcing(Recovery(true, m, s))
  {
  }

  /** A snapshot that gives the aircraft's place and motion, and vouches for them. */
  predicate Locates(s: Snapshot, r: Frozen) {
    && s.mode == Some(r.mode) && s.gps.Some? && !s.gps.value.stale && s.gps.value.sats >= 4
    && s.gps.value.lat == r.lat && s.gps.value.lon == r.lon && s.gps.value.alt == r.alt
    && s.gps.value.kmh == r.kmh && s.gps.value.heading == r.heading
  }

  /** A position shown for recovery is a fresh one, of 4 satellites or more, from the very snapshot of the failsafe. */
  lemma {:induction false} RecoveryPositionIsFresh(ss: seq<Snapshot>)
    ensures forall r :: r in Recoveries(ss) && r.hasGps ==> IsFailsafe(r.mode) && exists s :: s in ss && Locates(s, r)
  {
    if ss != [] {
      var n := |ss| - 1;
      RecoveryPositionIsFresh(ss[..n]);
      forall r | r in Recoveries(ss) && r.hasGps
        ensures IsFailsafe(r.mode) && exists s :: s in ss && Locates(s, r)
      {
        if r in Recoveries(ss[..n]) {
          var s :| s in ss[..n] && Locates(s, r);
          assert s in ss;
        } else {
          assert Locates(ss[n], r) && ss[n] in ss;
        }
      }
    }
  }

  // ----- peaks -----------------------------------------------------------------------------------

  /** The largest home distance seen, from 0. */
  function Farthest(ss: seq<Snapshot>): nat {
    if ss == [] then 0
    else
      var h := ss[|ss| - 1].home;
      if h.Some? then Max(Farthest(ss[..|ss| - 1]), h.value.distance) else Farthest(ss[..|ss| - 1])
  }

  function Highest(ss: seq<Snapshot>): nat {
    if ss == [] then 0
    else
      var g := FreshGps(ss[|ss| - 1]);
      if g.Some? then Max(Highest(ss[..|ss| - 1]), g.value.alt) else Highest(ss[..|ss| - 1])
  }

  lemma {:induction false} FarthestIsMax(ss: seq<Snapshot>)
    ensures forall s :: s in ss && s.home.Some? ==> s.home.value.distance <= Farthest(ss)
    ensures Farthest(ss) == 0 || exists s :: s in ss && s.home.Some? && s.home.value.distance == Farthest(ss)
  {
    if ss != [] {
      var n := |ss| - 1;
      FarthestIsMax(ss[..n]);
      assert ss == ss[..n] + [ss[n]];
      assert ss[n] in ss;
      if Farthest(ss) != 0 && Farthest(ss) == Farthest(ss[..n]) {
        var s :| s in ss[..n] && s.home.Some? && s.home.value.distance == Farthest(ss[..n]);
        assert s in ss;
      }
    }
  }

  lemma {:induction false} PeaksTold(ss: seq<Snapshot>)
    ensures After(ss).peaks == Peaks(Farthest(ss), Highest(ss))
  {
    if ss != [] {
      PeaksTold(ss[..|ss| - 1]);
    }
  }

  /** The metres of a peak event. */
  function Meters(e: Event): int {
    match e
    case PeakDistance(m, _) => m
    case PeakAltitude(m, _, _) => m
    case _ => 0
  }

  /** Logged peaks climb through ever higher buckets, and the last one lies in the bucket of the peak. */
  predicate Climbs(es: seq<Event>, size: nat, peak: nat)
    requires size > 0
  {
    && (forall i, j :: 0 <= i < j < |es| ==> Meters(es[i]) / size < Meters(es[j]) / size)
    && (forall i :: 0 <= i < |es| ==> 0 < Meters(es[i]) / size <= peak / size)
    && (if es == [] then peak / size == 0 else Meters(es[|es| - 1]) / size == peak / size)
  }

  lemma ClimbOn(es: seq<Event>, size: nat, peak: nat, e: Event)
    requires size > 0 && Climbs(es, size, peak) && Meters(e) / size > peak / size
    ensures Meters(e) > 0 && Climbs(es + [e], size, Meters(e))
  {
    if Meters(e) <= 0 {
      NegativeBucket(Meters(e), size);
    }
  }

  lemma NegativeBucket(m: int, size: nat)
    requires m <= 0 < size
    ensures m / size <= 0
  {
  }

  lemma SameBucket(es: seq<Event>, size: nat, peak: nat, peak': nat)
    requires size > 0 && Climbs(es, size, peak) && peak / size == peak' / size
    ensures Climbs(es, size, peak')
  {
  }

  lemma PeakStep(es: seq<Event>, size: nat, peak: nat, peak': nat, more: seq<Event>)
    requires size > 0 && Climbs(es, size, peak)
    requires if more == [] then peak / size == peak' / size
             else |more| == 1 && Meters(more[0]) == peak' && peak' / size > peak / size
    ensures Climbs(es + more, size, peak')
  {
    if more == [] {
      assert es + more == es;
      SameBucket(es, size, peak, peak');
    } else {
      assert more == [more[0]];
      ClimbOn(es, size, peak, more[0]);
    }
  }

  /** Distances: buckets of 50 m. */
  lemma {:induction false} DistancesClimb(ss: seq<Snapshot>)
    ensures Climbs(On(ss, DISTANCE), 50, Farthest(ss))
  {
    if ss != [] {
      var n := |ss| - 1;
      DistancesClimb(ss[..n]);
      PeaksTold(ss[..n]);
      OnSnoc(ss, DISTANCE);
      TickOnIs(After(ss[..n]), ss[n]);
      PeakStep(On(ss[..n], DISTANCE), 50, Farthest(ss[..n]), Farthest(ss), DistanceEvent(After(ss[..n]).peaks, ss[n]));
    }
  }

  /** Altitudes: buckets of 25 m. */
  lemma {:induction false} AltitudesClimb(ss: seq<Snapshot>)
    ensures Climbs(On(ss, ALTITUDE), 25, Highest(ss))
  {
    if ss != [] {
      var n := |ss| - 1;
      AltitudesClimb(ss[..n]);
      PeaksTold(ss[..n]);
      OnSnoc(ss, ALTITUDE);
      TickOnIs(After(ss[..n]), ss[n]);
      PeakStep(On(ss[..n], ALTITUDE), 25, Highest(ss[..n]), Highest(ss), AltitudeEvent(After(ss[..n]).peaks, ss[n]));
    }
  }

  // ----- battery -----------------------------------------------------------------------------------

  /** The band of the last reading that counts. */
  function LastBattery(ss: seq<Snapshot>): Band {
    if ss == [] then 0
    else
      var r := Reading(ss[|ss| - 1]);
      if r.None? then LastBattery(ss[..|ss| - 1])
      else if r.value.cellVolts < 3.4 then 2
      else if r.value.cellVolts < 3.6 then 1
      else 0
  }

  lemma {:induction false} BatteryTold(ss: seq<Snapshot>)
    ensures After(ss).battery == LastBattery(ss)
  {
    if ss != [] {
      BatteryTold(ss[..|ss| - 1]);
    }
  }

  /** A battery event is logged exactly when the band gets worse, and names the new band; recoveries are silent. */
  lemma BatteryOnDrop(ss: seq<Snapshot>)
    requires ss != []
    ensures var before := ss[..|ss| - 1];
            var more := BatteryEvent(LastBattery(before), ss[|ss| - 1]);
            && On(ss, BATTERY) == On(before, BATTERY) + more
            && (more != [] <==> LastBattery(ss) > LastBattery(before))
            && (more != [] ==> (more[0].BatteryCritical? <==> LastBattery(ss) == 2))
  {
    OnSnoc(ss, BATTERY);
    TickOnIs(After(ss[..|ss| - 1]), ss[|ss| - 1]);
    BatteryTold(ss);
    BatteryTold(ss[..|ss| - 1]);
  }
}
