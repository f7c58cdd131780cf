/**
 * The antenna tracker's pointing control (firmware/tracker/src/main.cpp): smoothing of the
 * azimuth on the circle, the front/rear flip with its hysteresis, pulse widths, and the slew
 * limiter. Angles are reals in degrees; pulses are whole microseconds.
 */
module Pointing {
  import opened Bytes

  function Abs(x: real): real { if x < 0.0 then -x else x }

  // ----- the circle ---------------------------------------------------------------------

  function Laps(d: real): int { ((Abs(d) + 180.0) / 360.0).Floor }

  /** d turned by full circles into -180..180. */
  function Wrap(d: real): (r: real)
    ensures -180.0 <= r <= 180.0
    decreases Laps(d)
  {
    if d > 180.0 then
      LapLess(d);
      Wrap(d - 360.0)
    else if d < -180.0 then
      LapLess(-d);
      Wrap(d + 360.0)
    else d
  }

  lemma LapLess(d: real)
    requires d > 180.0
    ensures 0 <= Laps(d - 360.0) < Laps(d)
    ensures 0 <= Laps(360.0 - d) < Laps(-d)
  {
    var x := (d + 180.0) / 360.0;
    assert x > 1.0 && x.Floor >= 1;
    if d - 360.0 >= 0.0 {
      assert (Abs(d - 360.0) + 180.0) / 360.0 == x - 1.0;
    } else {
      assert (Abs(d - 360.0) + 180.0) / 360.0 < 1.0;
    }
    assert Abs(360.0 - d) == Abs(d - 360.0) && Abs(-d) == Abs(d);
  }

  /** Full circles make no difference. */
  lemma {:induction false} WrapTurn(d: real, e: real, r: real)
    requires -180.0 < r < 180.0 && (d == r || d == r + 360.0 || d == r - 360.0)
    ensures Wrap(d) == r
  {
  }

  /** The distance of two directions on the circle. */
  function Distance(a: real, b: real): real { Abs(Wrap(a - b)) }

  /** The normalising loops. */
  method WrapHalf(d: real) returns (r: real)
    ensures r == Wrap(d)
  {
    r := d;
    while r > 180.0
      invariant Wrap(r) == Wrap(d)
      decreases Laps(r)
    {
      LapLess(r);
      r := r - 360.0;
    }
    while r < -180.0
      invariant r <= 180.0 && Wrap(r) == Wrap(d)
      decreases Laps(r)
    {
      LapLess(-r);
      r := r + 360.0;
    }
  }

  // ----- smoothing ------------------------------------------------------------------------

  datatype Ema = Ema(on: bool, az: real, el: real)

  predicate Azimuth(a: real) { 0.0 <= a < 360.0 }

  function Corrected(a: real): real { if a < 0.0 then a + 360.0 else if a >= 360.0 then a - 360.0 else a }

  /** apply_ema, with alpha 0.3 and the azimuth along the shorter arc. */
  function Smooth(e: Ema, az: real, el: real): Ema {
    if !e.on then Ema(true, az, el)
    else Ema(true, Corrected(e.az + 0.3 * Wrap(az - e.az)), 0.3 * el + 0.7 * e.el)
  }

  /** The filtered azimuth is an azimuth, and its distance to the sample shrinks by exactly 0.7. */
  lemma SmoothShrinks(e: Ema, az: real, el: real)
    requires e.on && Azimuth(e.az) && Azimuth(az)
    ensures Azimuth(Smooth(e, az, el).az)
    ensures Distance(az, Smooth(e, az, el).az) == 0.7 * Distance(az, e.az)
  {
    var d := Wrap(az - e.az);
    OneTurn(az - e.az);
    WrapTurn(az - Smooth(e, az, el).az, 0.0, 0.7 * d);
  }

  /** The difference of two azimuths needs at most one turn. */
  lemma OneTurn(d: real)
    requires -360.0 < d < 360.0
    ensures Wrap(d) == d || Wrap(d) == d - 360.0 || Wrap(d) == d + 360.0
  {
  }

  function SmoothAll(e: Ema, samples: seq<(real, real)>): Ema {
    if samples == [] then e
    else
      var n := |samples| - 1;
      Smooth(SmoothAll(e, samples[..n]), samples[n].0, samples[n].1)
  }

  predicate Samples(samples: seq<(real, real)>) { forall s :: s in samples ==> Azimuth(s.0) }

  /** x, multiplied n times by 0.7. */
  function Decay(x: real, n: nat): real { if n == 0 then x else 0.7 * Decay(x, n - 1) }

  lemma {:induction false} SmoothedIsAzimuth(e: Ema, samples: seq<(real, real)>)
    requires (e.on ==> Azimuth(e.az)) && Samples(samples)
    ensures var r := SmoothAll(e, samples); (r.on <==> e.on || samples != []) && (r.on ==> Azimuth(r.az))
  {
    if samples != [] {
      var n := |samples| - 1;
      SmoothedIsAzimuth(e, samples[..n]);
      assert samples[n] in samples;
      var before := SmoothAll(e, samples[..n]);
      if before.on {
        SmoothShrinks(before, samples[n].0, samples[n].1);
      }
    }
  }

  /** Towards a target that stays put, the error shrinks by 0.7 with every sample. */
  lemma {:induction false} Converges(e: Ema, az: real, samples: seq<(real, real)>)
    requires e.on && Azimuth(e.az) && Azimuth(az) && forall s :: s in samples ==> s.0 == az
    ensures Distance(az, SmoothAll(e, samples).az) == Decay(Distance(az, e.az), |samples|)
  {
    if samples != [] {
      var n := |samples| - 1;
      assert samples[n] in samples;
      Converges(e, az, samples[..n]);
      SmoothedIsAzimuth(e, samples[..n]);
      SmoothShrinks(SmoothAll(e, samples[..n]), az, samples[n].1);
    }
  }

  /** The filtered elevation stays within the bounds of what was fed in. */
  lemma {:induction false} ElevationBounded(e: Ema, samples: seq<(real, real)>, lo: real, hi: real)
    requires (e.on ==> lo <= e.el <= hi) && forall s :: s in samples ==> lo <= s.1 <= hi
    ensures SmoothAll(e, samples).on ==> lo <= SmoothAll(e, samples).el <= hi
  {
    if samples != [] {
      var n := |samples| - 1;
      assert samples[n] in samples;
      ElevationBounded(e, samples[..n], lo, hi);
    }
  }

  // ----- the flip ------------------------------------------------------------------------------

  /** Hysteresis of 5 degrees either side of 90. */
  function Flip(flipped: bool, azRel: real): bool { Abs(azRel) > if flipped then 85.0 else 95.0 }

  datatype Pose = Pose(pan: real, tilt: real)

  function PoseFor(flipped: bool, azRel: real, el: real): Pose {
    if !flipped then Pose(azRel, el)
    else Pose(if azRel > 0.0 then azRel - 180.0 else azRel + 180.0, 180.0 - el)
  }

  /** Where a pose points: past the zenith the pan angle is opposite. */
  function PointsTo(p: Pose): (real, real) {
    if p.tilt <= 90.0 then (p.pan, p.tilt) else (Wrap(p.pan + 180.0), 180.0 - p.tilt)
  }

  /** Both poses point where they should: at every elevation below the zenith, where azimuth means something. */
  lemma PosePoints(flipped: bool, azRel: real, el: real)
    requires -180.0 <= azRel <= 180.0 && el < 90.0
    ensures var p := PoseFor(Flip(flipped, azRel), azRel, el);
            && Distance(PointsTo(p).0, azRel) == 0.0 && PointsTo(p).1 == el
            && (0.0 <= p.tilt <= 180.0 <==> 0.0 <= el)
  {
    var p := PoseFor(Flip(flipped, azRel), azRel, el);
    if p.tilt > 90.0 && -180.0 < azRel {
      OneTurn(p.pan + 180.0);
    }
    WrapTurn(PointsTo(p).0 - azRel, 0.0, 0.0);
  }

  /** With the flip enabled pan never leaves 95 degrees either side, whatever the elevation. */
  lemma PanBounded(flipped: bool, azRel: real, el: real)
    requires -180.0 <= azRel <= 180.0
    ensures -95.0 <= PoseFor(Flip(flipped, azRel), azRel, el).pan <= 95.0
  {
  }

  // ----- pulses --------------------------------------------------------------------------------

  datatype Axis = Axis(range: real, minUs: int, centerUs: int, maxUs: int, invert: bool)

  /** What the operator has to configure: a range that is not zero, and ordered pulse bounds. */
  predicate AxisOk(a: Axis) { a.range > 0.0 && a.minUs <= a.centerUs <= a.maxUs }

  /** The C cast from float to int. */
  function Truncate(x: real): int { if x >= 0.0 then x.Floor else -((-x).Floor) }

  /** Two tests in a row: with crossed bounds the upper one wins. */
  function Clamp(us: int, a: Axis): int {
    var raised := if us < a.minUs then a.minUs else us;
    if raised > a.maxUs then a.maxUs else raised
  }

  lemma ClampTwice(us: int, a: Axis)
    ensures Clamp(Clamp(us, a), a) == Clamp(us, a)
    ensures a.minUs <= a.maxUs ==> a.minUs <= Clamp(us, a) <= a.maxUs
  {
  }

  function UsPerDegree(a: Axis): real
    requires a.range != 0.0
  {
    (a.maxUs - a.minUs) as real / a.range
  }

  /** Microseconds of travel for an angle. */
  function Travel(a: Axis, angle: real): real
    requires a.range != 0.0
  {
    angle * UsPerDegree(a)
  }

  function PanUs(a: Axis, pan: real): int
    requires a.range != 0.0
  {
    Clamp(a.centerUs + Truncate(Travel(a, if a.invert then -pan else pan)), a)
  }

  function TiltUs(a: Axis, tilt: real): int
    requires a.range != 0.0
  {
    var t := if tilt < 0.0 then 0.0 else if tilt > 180.0 then 180.0 else tilt;
    Clamp(a.minUs + Truncate(Travel(a, if a.invert then a.range - t else t)), a)
  }

  lemma PanClamped(a: Axis, pan: real)
    requires a.range != 0.0
    ensures Clamp(PanUs(a, pan), a) == PanUs(a, pan)
    ensures a.minUs <= a.maxUs ==> a.minUs <= PanUs(a, pan) <= a.maxUs
  {
    ClampTwice(a.centerUs + Truncate(Travel(a, if a.invert then -pan else pan)), a);
  }

  lemma TiltClamped(a: Axis, tilt: real)
    requires a.range != 0.0
    ensures Clamp(TiltUs(a, tilt), a) == TiltUs(a, tilt)
    ensures a.minUs <= a.maxUs ==> a.minUs <= TiltUs(a, tilt) <= a.maxUs
  {
    var t := if tilt < 0.0 then 0.0 else if tilt > 180.0 then 180.0 else tilt;
    ClampTwice(a.minUs + Truncate(Travel(a, if a.invert then a.range - t else t)), a);
  }

  // ----- the slew limiter -------------------------------------------------------------------------

  const SLEW_STEP_US := 30

  datatype Servo = Servo(current: int, target: int)

  function Gap(s: Servo): nat { if s.target < s.current then s.current - s.target else s.target - s.current }

  function Slew(s: Servo): Servo {
    var delta := s.target - s.current;
    s.(current := s.current + if delta > SLEW_STEP_US then SLEW_STEP_US
                              else if delta < -SLEW_STEP_US then -SLEW_STEP_US
                              else delta)
  }

  /** A tick moves by at most 30 us, never past the target, and by 30 us unless it arrives. */
  lemma SlewStep(s: Servo)
    ensures var r := Slew(s);
            && -30 <= r.current - s.current <= 30
            && (s.current <= r.current <= s.target || s.target <= r.current <= s.current)
            && Gap(r) == if Gap(s) <= 30 then 0 else Gap(s) - 30
  {
  }

  function SlewFor(s: Servo, n: nat): Servo { if n == 0 then s else Slew(SlewFor(s, n - 1)) }

  function TicksNeeded(s: Servo): nat { (Gap(s) + 29) / 30 }

  /** A fixed target is reached after exactly the distance over 30 us, rounded up, and then kept. */
  lemma {:induction false} ReachesInTime(s: Servo, n: nat)
    ensures SlewFor(s, n).target == s.target
    ensures Gap(SlewFor(s, n)) == if 30 * n >= Gap(s) then 0 else Gap(s) - 30 * n
    ensures SlewFor(s, n).current == s.target <==> n >= TicksNeeded(s)
  {
    if n > 0 {
      ReachesInTime(s, n - 1);
      SlewStep(SlewFor(s, n - 1));
    }
  }

  // ----- the tracker's globals ---------------------------------------------------------------------

  datatype Config = Config(panRef: real, pan: Axis, tilt: Axis, flipEnabled: bool)

  datatype Track = Track(ema: Ema, flipped: bool, pan: Servo, tilt: Servo)

  /** aim_at: what it leaves of flip state and targets. */
  function Aim(c: Config, t: Track, az: real, el: real): Track
    requires c.pan.range != 0.0 && c.tilt.range != 0.0
  {
    var azRel := Wrap(az - c.panRef);
    var f := c.flipEnabled && Flip(t.flipped, azRel);
    var p := PoseFor(f, azRel, el);
    t.(flipped := f, pan := t.pan.(target := PanUs(c.pan, p.pan)), tilt := t.tilt.(target := TiltUs(c.tilt, p.tilt)))
  }

  class Tracker {
    const cfg: Config
    var emaInitialized: bool
    var azFiltered: real
    var elFiltered: real
    var flipActive: bool
    var panCurrent: int
    var panTarget: int
    var tiltCurrent: int
    var tiltTarget: int

    ghost function View(): Track
      reads this
    {
      Track(Ema(emaInitialized, azFiltered, elFiltered), flipActive, Servo(panCurrent, panTarget),
            Servo(tiltCurrent, tiltTarget))
    }

    /** servo_init: both axes at their centre pulse. */
    constructor (cfg: Config)
      ensures this.cfg == cfg
      ensures View() == Track(Ema(false, 0.0, 0.0), false, Servo(cfg.pan.centerUs, cfg.pan.centerUs),
                              Servo(cfg.tilt.centerUs, cfg.tilt.centerUs))
    {
      this.cfg := cfg;
      emaInitialized, azFiltered, elFiltered, flipActive := false, 0.0, 0.0, false;
      panCurrent, panTarget := cfg.pan.centerUs, cfg.pan.centerUs;
      tiltCurrent, tiltTarget := cfg.tilt.centerUs, cfg.tilt.centerUs;
    }

    method ApplyEma(azIn: real, elIn: real)
      modifies this
      ensures View() == old(View()).(ema := Smooth(old(View()).ema, azIn, elIn))
    {
      if !emaInitialized {
        azFiltered, elFiltered, emaInitialized := azIn, elIn, true;
        return;
      }
      elFiltered := 0.3 * elIn + (1.0 - 0.3) * elFiltered;
      var delta := WrapHalf(azIn - azFiltered);
      azFiltered := azFiltered + 0.3 * delta;
      if azFiltered < 0.0 {
        azFiltered := azFiltered + 360.0;
      }
      if azFiltered >= 360.0 {
        azFiltered := azFiltered - 360.0;
      }
    }

    method AimAt(az: real, el: real)
      requires cfg.pan.range != 0.0 && cfg.tilt.range != 0.0
      modifies this
      ensures View() == Aim(cfg, old(View()), az, el)
    {
      var azRel := WrapHalf(az - cfg.panRef);
      var pan, tilt := azRel, el;
      if !cfg.flipEnabled {
        flipActive := false;
      } else {
        var absAzRel := Abs(azRel);
        if flipActive {
          flipActive := absAzRel > 90.0 - 5.0;
        } else {
          flipActive := absAzRel > 90.0 + 5.0;
        }
        if flipActive {
          pan := if azRel > 0.0 then azRel - 180.0 else azRel + 180.0;
          tilt := 180.0 - el;
        }
      }
      panTarget := SetUs(PanUs(cfg.pan, pan), cfg.pan);
      tiltTarget := SetUs(TiltUs(cfg.tilt, tilt), cfg.tilt);
      PanClamped(cfg.pan, pan);
      TiltClamped(cfg.tilt, tilt);
    }

    /** servo_set_pan_us and servo_set_tilt_us: clamped once more. */
    static method SetUs(us: int, a: Axis) returns (target: int)
      ensures target == Clamp(us, a)
    {
      target := us;
      if target < a.minUs {
        target := a.minUs;
      }
      if target > a.maxUs {
        target := a.maxUs;
      }
    }

    /** One pass of servo_task. */
    method SlewBoth()
      modifies this
      ensures View() == old(View()).(pan := Slew(old(View()).pan), tilt := Slew(old(View()).tilt))
    {
      panCurrent := SlewOne(panCurrent, panTarget);
      tiltCurrent := SlewOne(tiltCurrent, tiltTarget);
    }

    static method SlewOne(current: int, target: int) returns (next: int)
      ensures next == Slew(Servo(current, target)).current
    {
      var delta := target - current;
      if delta > SLEW_STEP_US {
        delta := SLEW_STEP_US;
      }
      if delta < -SLEW_STEP_US {
        delta := -SLEW_STEP_US;
      }
      next := current;
      if delta != 0 {
        next := current + delta;
      }
    }
  }

  // ----- runs ---------------------------------------------------------------------------------------

  /** A GPS fix, an operator's aim command, or a pass of the slew task, in any order. */
  datatype Op = Fix(az: real, el: real) | AimCommand(az: real, el: real) | SlewTick

  function Do(c: Config, t: Track, op: Op): Track
    requires AxisOk(c.pan) && AxisOk(c.tilt)
  {
    match op
    case Fix(az, el) =>
      var e := Smooth(t.ema, az, el);
      Aim(c, t.(ema := e), e.az, e.el)
    case AimCommand(az, el) => Aim(c, t, az, el)
    case SlewTick => t.(pan := Slew(t.pan), tilt := Slew(t.tilt))
  }

  function Run(c: Config, ops: seq<Op>): Track
    requires AxisOk(c.pan) && AxisOk(c.tilt)
  {
    if ops == []
    then Track(Ema(false, 0.0, 0.0), false, Servo(c.pan.centerUs, c.pan.centerUs),
               Servo(c.tilt.centerUs, c.tilt.centerUs))
    else Do(c, Run(c, ops[..|ops| - 1]), ops[|ops| - 1])
  }

  predicate InRange(s: Servo, a: Axis) { a.minUs <= s.current <= a.maxUs && a.minUs <= s.target <= a.maxUs }

  lemma AimInRange(c: Config, t: Track, az: real, el: real)
    requires AxisOk(c.pan) && AxisOk(c.tilt) && InRange(t.pan, c.pan) && InRange(t.tilt, c.tilt)
    ensures var r := Aim(c, t, az, el);
            && InRange(r.pan, c.pan) && InRange(r.tilt, c.tilt)
            && r.pan.current == t.pan.current && r.tilt.current == t.tilt.current
  {
    var azRel := Wrap(az - c.panRef);
    var p := PoseFor(c.flipEnabled && Flip(t.flipped, azRel), azRel, el);
    PanClamped(c.pan, p.pan);
    TiltClamped(c.tilt, p.tilt);
  }

  lemma DoInRange(c: Config, t: Track, op: Op)
    requires AxisOk(c.pan) && AxisOk(c.tilt) && InRange(t.pan, c.pan) && InRange(t.tilt, c.tilt)
    ensures var r := Do(c, t, op);
            && InRange(r.pan, c.pan) && InRange(r.tilt, c.tilt)
            && -30 <= r.pan.current - t.pan.current <= 30
            && -30 <= r.tilt.current - t.tilt.current <= 30
  {
    match op
    case Fix(az, el) =>
      var e := Smooth(t.ema, az, el);
      AimInRange(c, t.(ema := e), e.az, e.el);
    case AimCommand(az, el) => AimInRange(c, t, az, el);
    case SlewTick =>
      SlewStep(t.pan);
      SlewStep(t.tilt);
  }

  /**
   * Whatever fixes and commands arrive, no pulse ever leaves its configured bounds, and none jumps
   * by more than 30 us.
   */
  lemma {:induction false} PulsesBounded(c: Config, ops: seq<Op>)
    requires AxisOk(c.pan) && AxisOk(c.tilt)
    ensures InRange(Run(c, ops).pan, c.pan) && InRange(Run(c, ops).tilt, c.tilt)
    ensures ops != [] ==>
              var before := Run(c, ops[..|ops| - 1]);
              && -30 <= Run(c, ops).pan.current - before.pan.current <= 30
              && -30 <= Run(c, ops).tilt.current - before.tilt.current <= 30
  {
    if ops != [] {
      var n := |ops| - 1;
      PulsesBounded(c, ops[..n]);
      DoInRange(c, Run(c, ops[..n]), ops[n]);
    }
  }

  /** The angle off the pan reference that an operation aims at. */
  function AimedAt(c: Config, t: Track, op: Op): Option<real> {
    match op
    case Fix(az, el) => Some(Wrap(Smooth(t.ema, az, el).az - c.panRef))
    case AimCommand(az, _) => Some(Wrap(az - c.panRef))
    case SlewTick => None
  }

  /** Operation k of a run turns the antenna over. */
  predicate Reverses(c: Config, ops: seq<Op>, k: nat)
    requires AxisOk(c.pan) && AxisOk(c.tilt) && k < |ops|
  {
    Run(c, ops[..k + 1]).flipped != Run(c, ops[..k]).flipped
  }

  lemma FlipFollows(c: Config, ops: seq<Op>, k: nat)
    requires AxisOk(c.pan) && AxisOk(c.tilt) && k < |ops|
    ensures var t := Run(c, ops[..k]);
            Run(c, ops[..k + 1]).flipped ==
            match AimedAt(c, t, ops[k])
            case None => t.flipped
            case Some(azRel) => c.flipEnabled && Flip(t.flipped, azRel)
  {
    assert ops[..k + 1][..k] == ops[..k];
  }

  lemma {:induction false} SteadyBetween(c: Config, ops: seq<Op>, i: nat, k: nat)
    requires AxisOk(c.pan) && AxisOk(c.tilt) && i <= k <= |ops|
    requires forall j :: i <= j < k ==> !Reverses(c, ops, j)
    ensures Run(c, ops[..k]).flipped == Run(c, ops[..i]).flipped
  {
    if i < k {
      SteadyBetween(c, ops, i, k - 1);
      assert !Reverses(c, ops, k - 1);
    }
  }

  /**
   * No chatter, over every run of fixes, commands and ticks: between two successive reversals the
   * angle off the pan centre moves by more than 10 degrees.
   */
  lemma ReversalsApart(c: Config, ops: seq<Op>, i: nat, k: nat)
    requires AxisOk(c.pan) && AxisOk(c.tilt) && i < k < |ops| && Reverses(c, ops, i) && Reverses(c, ops, k)
    requires forall j :: i < j < k ==> !Reverses(c, ops, j)
    ensures var a, b := AimedAt(c, Run(c, ops[..i]), ops[i]), AimedAt(c, Run(c, ops[..k]), ops[k]);
            a.Some? && b.Some? && Abs(Abs(a.value) - Abs(b.value)) > 10.0
  {
    FlipFollows(c, ops, i);
    FlipFollows(c, ops, k);
    SteadyBetween(c, ops, i + 1, k);
  }
}
