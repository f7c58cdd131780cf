/**
 * The two debounced panel inputs (firmware/crsf/src/input_arm.c, input_momentary.c): what
 * every run of polls guarantees about the events they emit.
 */
module Inputs {
  const DEBOUNCE_US := 20_000

  /** One poll: the loop's time and the logical level read from the pin. */
  datatype Sample = Sample(now: nat, level: bool)

  datatype Arm = Arm(rawLast: bool, stable: bool, changedAt: nat, announced: bool)

  function ArmInit(level: bool): Arm { Arm(level, level, 0, false) }

  predicate ArmFires(a: Arm, s: Sample) {
    && s.level == a.rawLast
    && !(s.level == a.stable && a.announced)
    && s.now - a.changedAt >= DEBOUNCE_US
  }

  function ArmStep(a: Arm, s: Sample): Arm {
    if s.level != a.rawLast then a.(rawLast := s.level, changedAt := s.now)
    else if ArmFires(a, s) then a.(stable := s.level, announced := true)
    else a
  }

  datatype Momentary = Momentary(rawLast: bool, stable: bool, changedAt: nat)

  function MomentaryInit(level: bool): Momentary { Momentary(level, level, 0) }

  predicate MomentarySettles(m: Momentary, s: Sample) {
    s.level == m.rawLast && s.level != m.stable && s.now - m.changedAt >= DEBOUNCE_US
  }

  /** Only settling into "pressed" is an event. */
  predicate MomentaryFires(m: Momentary, s: Sample) {
    MomentarySettles(m, s) && s.level
  }

  function MomentaryStep(m: Momentary, s: Sample): Momentary {
    if s.level != m.rawLast then m.(rawLast := s.level, changedAt := s.now)
    else if MomentarySettles(m, s) then m.(stable := s.level)
    else m
  }

  // ----- runs -------------------------------------------------------------------------

  predicate Timed(ss: seq<Sample>) {
    forall i, j :: 0 <= i <= j < |ss| ==> ss[i].now <= ss[j].now
  }

  function ArmAfter(level: bool, ss: seq<Sample>): Arm {
    if ss == [] then ArmInit(level) else ArmStep(ArmAfter(level, ss[..|ss| - 1]), ss[|ss| - 1])
  }

  predicate ArmEvent(level: bool, ss: seq<Sample>, k: nat)
    requires k < |ss|
  {
    ArmFires(ArmAfter(level, ss[..k]), ss[k])
  }

  lemma ArmAfterSnoc(level: bool, ss: seq<Sample>, k: nat)
    requires k < |ss|
    ensures ArmAfter(level, ss[..k + 1]) == ArmStep(ArmAfter(level, ss[..k]), ss[k])
  {
    assert ss[..k + 1][..k] == ss[..k];
  }

  /** Every poll from i up to, but not including, k read `v`. */
  predicate Steady(ss: seq<Sample>, i: nat, k: nat, v: bool) {
    k <= |ss| && forall j :: i <= j < k ==> ss[j].level == v
  }

  /** The debounce timer, told from the history: it was armed by the poll that began the current steady run. */
  predicate TimerTells(level: bool, ss: seq<Sample>, a: Arm, k: nat)
    requires k <= |ss|
  {
    (a.changedAt == 0 && a.rawLast == level && Steady(ss, 0, k, level)) ||
    (exists i :: 0 <= i < k && ss[i].now == a.changedAt && Steady(ss, i, k, a.rawLast))
  }

  lemma {:induction false} ArmTimer(level: bool, ss: seq<Sample>, k: nat)
    requires k <= |ss|
    ensures TimerTells(level, ss, ArmAfter(level, ss[..k]), k)
  {
    if k > 0 {
      ArmTimer(level, ss, k - 1);
      ArmAfterSnoc(level, ss, k - 1);
      var a, a' := ArmAfter(level, ss[..k - 1]), ArmAfter(level, ss[..k]);
      if ss[k - 1].level != a.rawLast {
        assert ss[k - 1].now == a'.changedAt && Steady(ss, k - 1, k, a'.rawLast);
      } else if !(a.changedAt == 0 && a.rawLast == level && Steady(ss, 0, k - 1, level)) {
        var i :| 0 <= i < k - 1 && ss[i].now == a.changedAt && Steady(ss, i, k - 1, a.rawLast);
        assert ss[i].now == a'.changedAt && Steady(ss, i, k, a'.rawLast);
      }
    }
  }

  /** The level of an event was read by every poll of a window of at least 20 ms that ends with it. */
  predicate HeldFor20ms(ss: seq<Sample>, k: nat)
    requires k < |ss|
  {
    exists i :: 0 <= i < k && Steady(ss, i, k + 1, ss[k].level) && ss[k].now - ss[i].now >= 20_000
  }

  /**
   * Every arm-key event is held for 20 ms, unless the key has not moved at all since boot:
   * then it only tells that 20 ms have passed since power-on.
   */
  lemma ArmEventHeld(level: bool, ss: seq<Sample>, k: nat)
    requires k < |ss| && ArmEvent(level, ss, k)
    ensures HeldFor20ms(ss, k) ||
            (ss[k].level == level && Steady(ss, 0, k + 1, level) && ss[k].now >= 20_000)
  {
    ArmTimer(level, ss, k);
    var a := ArmAfter(level, ss[..k]);
    if !(a.changedAt == 0 && a.rawLast == level && Steady(ss, 0, k, level)) {
      var i :| 0 <= i < k && ss[i].now == a.changedAt && Steady(ss, i, k, a.rawLast);
      assert Steady(ss, i, k + 1, ss[k].level);
    }
  }

  /**
   * Exactly which events were read throughout 20 ms: all but those of a key that has read as at
   * power-on ever since and was first polled less than 20 ms before.
   */
  lemma HeldExactly(level: bool, ss: seq<Sample>, k: nat)
    requires Timed(ss) && k < |ss| && ArmEvent(level, ss, k)
    ensures HeldFor20ms(ss, k) <==> !Steady(ss, 0, k + 1, level) || ss[k].now - ss[0].now >= 20_000
  {
    ArmEventHeld(level, ss, k);
  }

  /** Such an event exists: one poll, 20 ms or later after power-on, is enough for the boot event. */
  lemma BootEventNeedsNoWindow(level: bool, now: nat)
    ensures ArmEvent(level, [Sample(now, level)], 0) <==> now >= 20_000
    ensures !HeldFor20ms([Sample(now, level)], 0)
  {
    assert [Sample(now, level)][..0] == [];
  }

  /** Until the key moves, the debouncer only waits until 20 ms after power-on. */
  lemma {:induction false} UnmovedArm(level: bool, ss: seq<Sample>, k: nat)
    requires k <= |ss| && Steady(ss, 0, k, level)
    ensures ArmAfter(level, ss[..k]) ==
            Arm(level, level, 0, exists j :: 0 <= j < k && ss[j].now >= 20_000)
  {
    if k > 0 {
      UnmovedArm(level, ss, k - 1);
      ArmAfterSnoc(level, ss, k - 1);
    }
  }

  /** A key that has not moved is announced by the first poll 20 ms or more after power-on, and by no other. */
  lemma UnmovedEvent(level: bool, ss: seq<Sample>, k: nat)
    requires k < |ss| && Steady(ss, 0, k + 1, level)
    ensures ArmEvent(level, ss, k) <==>
            ss[k].now >= 20_000 && forall j :: 0 <= j < k ==> ss[j].now < 20_000
  {
    UnmovedArm(level, ss, k);
  }

  lemma {:induction false} BeforeFirstEvent(level: bool, ss: seq<Sample>, k: nat)
    requires k <= |ss|
    ensures var a := ArmAfter(level, ss[..k]);
            && (a.announced <==> exists j :: 0 <= j < k && ArmEvent(level, ss, j))
            && (!a.announced ==> a.stable == level)
  {
    if k > 0 {
      BeforeFirstEvent(level, ss, k - 1);
      ArmAfterSnoc(level, ss, k - 1);
      assert ArmEvent(level, ss, k - 1) <==> ArmFires(ArmAfter(level, ss[..k - 1]), ss[k - 1]);
    }
  }

  /** Exactly which events are edges of the settled level: all but a first one that tells the level of power-on. */
  lemma EdgeExactly(level: bool, ss: seq<Sample>, k: nat)
    requires k < |ss| && ArmEvent(level, ss, k)
    ensures ss[k].level != ArmAfter(level, ss[..k]).stable <==>
            ss[k].level != level || exists j :: 0 <= j < k && ArmEvent(level, ss, j)
  {
    BeforeFirstEvent(level, ss, k);
  }

  predicate NoArmEvent(level: bool, ss: seq<Sample>, from: nat, to: nat)
    requires to <= |ss|
  {
    forall j :: from <= j < to ==> !ArmEvent(level, ss, j)
  }

  lemma {:induction false} AfterArmEvent(level: bool, ss: seq<Sample>, i: nat, k: nat)
    requires Timed(ss) && i < k <= |ss| && ArmEvent(level, ss, i) && NoArmEvent(level, ss, i + 1, k)
    ensures var a := ArmAfter(level, ss[..k]);
            a.announced && a.stable == ss[i].level && (a.rawLast == a.stable || a.changedAt >= ss[i].now)
  {
    ArmAfterSnoc(level, ss, k - 1);
    if i < k - 1 {
      AfterArmEvent(level, ss, i, k - 1);
      assert !ArmEvent(level, ss, k - 1);
    }
  }

  /** Consecutive arm-key events alternate and lie at least 20 ms apart; the later one was held for 20 ms. */
  lemma ArmEventsAlternate(level: bool, ss: seq<Sample>, i: nat, k: nat)
    requires Timed(ss) && i < k < |ss| && ArmEvent(level, ss, i) && ArmEvent(level, ss, k)
    requires NoArmEvent(level, ss, i + 1, k)
    ensures ss[k].level != ss[i].level
    ensures ss[k].now - ss[i].now >= 20_000
    ensures HeldFor20ms(ss, k)
  {
    AfterArmEvent(level, ss, i, k);
    ArmEventHeld(level, ss, k);
  }

  /** Any two arm-key events, consecutive or not. */
  lemma {:induction false} ArmEventsApart(level: bool, ss: seq<Sample>, i: nat, k: nat)
    requires Timed(ss) && i < k < |ss| && ArmEvent(level, ss, i) && ArmEvent(level, ss, k)
    ensures ss[k].now - ss[i].now >= 20_000
    decreases k - i
  {
    if NoArmEvent(level, ss, i + 1, k) {
      ArmEventsAlternate(level, ss, i, k);
    } else {
      var j :| i + 1 <= j < k && ArmEvent(level, ss, j);
      ArmEventsApart(level, ss, i, j);
    }
  }

  lemma {:induction false} WhileSteady(level: bool, ss: seq<Sample>, i: nat, k: nat)
    requires Timed(ss) && i < k <= |ss| && Steady(ss, i, k, ss[i].level)
    ensures var a := ArmAfter(level, ss[..k]);
            a.rawLast == ss[i].level && a.changedAt <= ss[i].now
  {
    ArmAfterSnoc(level, ss, k - 1);
    if i < k - 1 {
      WhileSteady(level, ss, i, k - 1);
    } else {
      ArmTimer(level, ss, i);
    }
  }

  /** Nothing held is missed: a level read throughout 20 ms is the announced one at the end. */
  lemma HeldIsAnnounced(level: bool, ss: seq<Sample>, k: nat)
    requires Timed(ss) && k < |ss| && HeldFor20ms(ss, k)
    ensures var a := ArmAfter(level, ss[..k + 1]); a.announced && a.stable == ss[k].level
  {
    var i :| 0 <= i < k && Steady(ss, i, k + 1, ss[k].level) && ss[k].now - ss[i].now >= 20_000;
    assert ss[i].level == ss[k].level;
    WhileSteady(level, ss, i, k);
    ArmAfterSnoc(level, ss, k);
  }

  // ----- the momentary button ------------------------------------------------------------

  function MomentaryAfter(level: bool, ss: seq<Sample>): Momentary {
    if ss == [] then MomentaryInit(level)
    else MomentaryStep(MomentaryAfter(level, ss[..|ss| - 1]), ss[|ss| - 1])
  }

  predicate PressEvent(level: bool, ss: seq<Sample>, k: nat)
    requires k < |ss|
  {
    MomentaryFires(MomentaryAfter(level, ss[..k]), ss[k])
  }

  lemma MomentaryAfterSnoc(level: bool, ss: seq<Sample>, k: nat)
    requires k < |ss|
    ensures MomentaryAfter(level, ss[..k + 1]) == MomentaryStep(MomentaryAfter(level, ss[..k]), ss[k])
  {
    assert ss[..k + 1][..k] == ss[..k];
  }

  /** While raw and settled level differ, the raw level has been steady since the timer was armed. */
  lemma {:induction false} MomentaryTimer(level: bool, ss: seq<Sample>, k: nat)
    requires k <= |ss|
    ensures var m := MomentaryAfter(level, ss[..k]);
            m.rawLast != m.stable ==>
              exists i :: 0 <= i < k && ss[i].now == m.changedAt && Steady(ss, i, k, m.rawLast)
  {
    if k > 0 {
      MomentaryTimer(level, ss, k - 1);
      MomentaryAfterSnoc(level, ss, k - 1);
      var m, m' := MomentaryAfter(level, ss[..k - 1]), MomentaryAfter(level, ss[..k]);
      if ss[k - 1].level != m.rawLast {
        assert ss[k - 1].now == m'.changedAt && Steady(ss, k - 1, k, m'.rawLast);
      } else if m.rawLast != m.stable && m'.rawLast != m'.stable {
        var i :| 0 <= i < k - 1 && ss[i].now == m.changedAt && Steady(ss, i, k - 1, m.rawLast);
        assert ss[i].now == m'.changedAt && Steady(ss, i, k, m'.rawLast);
      }
    }
  }

  /** A press is reported only after every poll of at least 20 ms has read "pressed". */
  lemma PressEventHeld(level: bool, ss: seq<Sample>, k: nat)
    requires k < |ss| && PressEvent(level, ss, k)
    ensures ss[k].level && HeldFor20ms(ss, k)
  {
    MomentaryTimer(level, ss, k);
    var m := MomentaryAfter(level, ss[..k]);
    var i :| 0 <= i < k && ss[i].now == m.changedAt && Steady(ss, i, k, m.rawLast);
    assert Steady(ss, i, k + 1, ss[k].level);
  }

  lemma {:induction false} AfterPress(level: bool, ss: seq<Sample>, i: nat, k: nat)
    requires Timed(ss) && i < k <= |ss| && PressEvent(level, ss, i)
    requires forall j :: i < j < k ==> !PressEvent(level, ss, j)
    ensures var m, t := MomentaryAfter(level, ss[..k]), ss[i].now;
            && (m.stable ==> m.rawLast || m.changedAt >= t)
            && (!m.stable ==> ss[k - 1].now >= t + DEBOUNCE_US && (!m.rawLast || m.changedAt >= t + DEBOUNCE_US))
  {
    MomentaryAfterSnoc(level, ss, k - 1);
    if i < k - 1 {
      AfterPress(level, ss, i, k - 1);
      assert !PressEvent(level, ss, k - 1);
    }
  }

  /** A release has to settle between two presses, so they lie at least 40 ms apart. */
  lemma {:induction false} PressesApart(level: bool, ss: seq<Sample>, i: nat, k: nat)
    requires Timed(ss) && i < k < |ss| && PressEvent(level, ss, i) && PressEvent(level, ss, k)
    ensures ss[k].now - ss[i].now >= 40_000
    decreases k - i
  {
    if forall j :: i < j < k ==> !PressEvent(level, ss, j) {
      AfterPress(level, ss, i, k);
    } else {
      var j :| i < j < k && PressEvent(level, ss, j);
      PressesApart(level, ss, i, j);
    }
  }
}
