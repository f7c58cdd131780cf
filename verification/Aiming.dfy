/**
 * From an azimuth and elevation to two servo pulses and back (firmware/tracker/src/main.cpp):
 * what the pulses that aim_at sets mean in degrees, and where the antenna then points.
 */
module Aiming {
  import opened Pointing

  /** A product; named, so that most proofs need not look into it. */
  function Times(x: real, y: real): real { x * y }

  // ----- what a pulse means -------------------------------------------------------------------

  /** Degrees of one microsecond of travel. */
  function Degree(a: Axis): real
    requires a.maxUs > a.minUs
  {
    a.range / (a.maxUs - a.minUs) as real
  }

  /** The angle of a pulse, counted from the pulse `base`. */
  function Turned(a: Axis, base: int, us: int): real
    requires a.maxUs > a.minUs
  {
    Times((us - base) as real, Degree(a))
  }

  /** The pan angle at a pulse: zero at the centre, mirrored if inverted. */
  function PanAt(a: Axis, us: int): real
    requires a.maxUs > a.minUs
  {
    if a.invert then -Turned(a, a.centerUs, us) else Turned(a, a.centerUs, us)
  }

  /** The tilt angle at a pulse: zero at the lower bound, or the full range there if inverted. */
  function TiltAt(a: Axis, us: int): real
    requires a.maxUs > a.minUs
  {
    if a.invert then a.range - Turned(a, a.minUs, us) else Turned(a, a.minUs, us)
  }

  /** Two angles less than one microsecond of travel apart. */
  predicate Near(a: Axis, x: real, y: real)
    requires a.maxUs > a.minUs
  {
    -Degree(a) < x - y < Degree(a)
  }

  /** A pan angle that the pulse bounds leave room for. */
  predicate PanReachable(a: Axis, pan: real)
    requires a.maxUs > a.minUs
  {
    if a.invert then PanAt(a, a.maxUs) <= pan <= PanAt(a, a.minUs) else PanAt(a, a.minUs) <= pan <= PanAt(a, a.maxUs)
  }

  predicate TiltReachable(a: Axis, tilt: real) { 0.0 <= tilt <= a.range }

  // ----- products and truncation ----------------------------------------------------------------

  lemma Scaled(d: real, x: real, k: real)
    requires k > 0.0 && -1.0 < d - x < 1.0
    ensures -k < Times(d, k) - Times(x, k) < k
  {
    hide Times;
    var e := d - x;
    Shrunk(e, k);
    Spread(d, x, e, k);
  }

  lemma Spread(d: real, x: real, e: real, k: real)
    requires e == d - x
    ensures Times(d, k) - Times(x, k) == Times(e, k)
  {
  }

  lemma Shrunk(e: real, k: real)
    requires k > 0.0 && -1.0 < e < 1.0
    ensures -k < Times(e, k) < k
  {
    assert (1.0 - e) * k > 0.0 && (1.0 + e) * k > 0.0;
  }

  lemma Ordered(u: real, v: real, k: real)
    requires k > 0.0
    ensures Times(u, k) <= Times(v, k) <==> u <= v
  {
    if u <= v {
      assert (v - u) * k >= 0.0;
    } else {
      assert (u - v) * k > 0.0;
    }
  }

  lemma Reciprocal(span: real, range: real)
    requires span > 0.0 && range > 0.0
    ensures (span / range) * (range / span) == 1.0 && range / span > 0.0 && span * (range / span) == range
  {
  }

  lemma Undone(angle: real, up: real, down: real)
    requires up * down == 1.0
    ensures Times(angle * up, down) == angle
  {
    assert angle * up * down == angle * (up * down);
  }

  lemma TruncateNear(x: real)
    ensures -1.0 < Truncate(x) as real - x < 1.0
    ensures x >= 0.0 ==> 0 <= Truncate(x) && Truncate(x) as real <= x
    ensures x <= 0.0 ==> Truncate(x) <= 0 && x <= Truncate(x) as real
  {
  }

  /** Inside the bounds, x microseconds from `base`, truncated and clamped, are x to within one. */
  lemma InMicros(a: Axis, base: int, x: real)
    requires a.minUs as real <= base as real + x <= a.maxUs as real
    ensures var us := Clamp(base + Truncate(x), a); -1.0 < (us - base) as real - x < 1.0
  {
    TruncateNear(x);
    hide Truncate;
  }

  lemma Units(a: Axis, angle: real)
    requires AxisOk(a) && a.maxUs > a.minUs
    ensures Times(Travel(a, angle), Degree(a)) == angle && Degree(a) > 0.0
    ensures Times((a.maxUs - a.minUs) as real, Degree(a)) == a.range
  {
    Reciprocal((a.maxUs - a.minUs) as real, a.range);
    Undone(angle, UsPerDegree(a), Degree(a));
  }

  /** From the requested angle to the pulse and back to an angle, by any base. */
  lemma ThereAndBack(a: Axis, base: int, angle: real, us: int)
    requires AxisOk(a) && a.maxUs > a.minUs && us == Clamp(base + Truncate(Travel(a, angle)), a)
    requires Turned(a, base, a.minUs) <= angle <= Turned(a, base, a.maxUs)
    ensures Near(a, Turned(a, base, us), angle)
  {
    Units(a, angle);
    hide Times, Degree, Travel, Truncate, Clamp;
    var x, k := Travel(a, angle), Degree(a);
    Ordered((a.minUs - base) as real, x, k);
    Ordered(x, (a.maxUs - base) as real, k);
    InMicros(a, base, x);
    Scaled((us - base) as real, x, k);
  }

  // ----- each axis ------------------------------------------------------------------------------

  /** The pulse set for a pan angle within reach reads back as that angle, to within a microsecond of travel. */
  lemma PanReadsBack(a: Axis, pan: real)
    requires AxisOk(a) && a.maxUs > a.minUs && PanReachable(a, pan)
    ensures Near(a, PanAt(a, PanUs(a, pan)), pan)
  {
    hide Turned, Degree, Travel, Truncate, Clamp;
    ThereAndBack(a, a.centerUs, if a.invert then -pan else pan, PanUs(a, pan));
  }

  /** Likewise for a tilt angle within the servo's range. */
  lemma TiltReadsBack(a: Axis, tilt: real)
    requires AxisOk(a) && a.maxUs > a.minUs && TiltReachable(a, tilt) && tilt <= 180.0
    ensures Near(a, TiltAt(a, TiltUs(a, tilt)), tilt)
  {
    Units(a, tilt);
    assert Turned(a, a.minUs, a.minUs) == 0.0 && Turned(a, a.minUs, a.maxUs) == a.range;
    hide Turned, Degree, Travel, Truncate, Clamp;
    ThereAndBack(a, a.minUs, if a.invert then a.range - tilt else tilt, TiltUs(a, tilt));
  }

  // ----- both axes together ---------------------------------------------------------------------

  /** A pose within the reach of both servos. */
  predicate Reachable(c: Config, p: Pose)
    requires c.pan.maxUs > c.pan.minUs
  {
    PanReachable(c.pan, p.pan) && TiltReachable(c.tilt, p.tilt) && p.tilt <= 180.0
  }

  /** The pose that the pulses targeted now amount to, to within a microsecond of travel on each axis. */
  predicate Targets(c: Config, t: Track, p: Pose)
    requires c.pan.maxUs > c.pan.minUs && c.tilt.maxUs > c.tilt.minUs
  {
    Near(c.pan, PanAt(c.pan, t.pan.target), p.pan) && Near(c.tilt, TiltAt(c.tilt, t.tilt.target), p.tilt)
  }

  function FullTurns(n: int): real { 360.0 * n as real }

  /** Some whole number of turns apart. */
  ghost predicate SameDirection(a: real, b: real) { exists n: int :: a - b == FullTurns(n) }

  lemma TurnsApart(a: real, b: real, n: int)
    requires a - b == FullTurns(n)
    ensures SameDirection(a, b)
  {
  }

  /** The normalising loops only take off whole turns. */
  lemma {:induction false} WrapIsTurns(d: real) returns (n: int)
    ensures Wrap(d) - d == FullTurns(n)
    decreases Laps(d)
  {
    if d > 180.0 {
      LapLess(d);
      n := WrapIsTurns(d - 360.0);
      n := n - 1;
    } else if d < -180.0 {
      LapLess(-d);
      n := WrapIsTurns(d + 360.0);
      n := n + 1;
    } else {
      n := 0;
    }
  }

  /** Where a pose for an angle off the reference points, the reference added back, is that angle. */
  lemma PosePointsAt(c: Config, f: bool, az: real, el: real)
    requires el < 90.0
    ensures var p := PoseFor(f, Wrap(az - c.panRef), el);
            SameDirection(PointsTo(p).0 + c.panRef, az) && PointsTo(p).1 == el
  {
    var azRel := Wrap(az - c.panRef);
    var p := PoseFor(f, azRel, el);
    var n := WrapIsTurns(az - c.panRef);
    if f {
      var m := WrapIsTurns(p.pan + 180.0);
      if azRel > 0.0 {
        TurnsApart(PointsTo(p).0 + c.panRef, az, n + m);
      } else {
        TurnsApart(PointsTo(p).0 + c.panRef, az, n + m + 1);
      }
    } else {
      TurnsApart(PointsTo(p).0 + c.panRef, az, n);
    }
  }

  /**
   * aim_at, end to end: the two pulses it sets amount to a pose that points at the azimuth and
   * elevation it was given, front or rear, whenever the servos reach that pose.
   */
  lemma AimPoints(c: Config, t: Track, az: real, el: real)
    requires AxisOk(c.pan) && AxisOk(c.tilt) && c.pan.maxUs > c.pan.minUs && c.tilt.maxUs > c.tilt.minUs
    requires 0.0 <= el < 90.0
    ensures var t' := Aim(c, t, az, el);
            var p := PoseFor(t'.flipped, Wrap(az - c.panRef), el);
            && SameDirection(PointsTo(p).0 + c.panRef, az) && PointsTo(p).1 == el
            && (Reachable(c, p) ==> Targets(c, t', p))
  {
    var f := Aim(c, t, az, el).flipped;
    var p := PoseFor(f, Wrap(az - c.panRef), el);
    PosePointsAt(c, f, az, el);
    if Reachable(c, p) {
      PanReadsBack(c.pan, p.pan);
      TiltReadsBack(c.tilt, p.tilt);
    }
  }

  /** Out of reach, a pan pulse stays at the bound on that side. */
  lemma PanSaturates(a: Axis, pan: real)
    requires AxisOk(a) && a.maxUs > a.minUs
    ensures pan > PanAt(a, a.minUs) && pan > PanAt(a, a.maxUs) ==>
              PanUs(a, pan) == if a.invert then a.minUs else a.maxUs
    ensures pan < PanAt(a, a.minUs) && pan < PanAt(a, a.maxUs) ==>
              PanUs(a, pan) == if a.invert then a.maxUs else a.minUs
  {
    var angle := if a.invert then -pan else pan;
    Units(a, angle);
    var x, k := Travel(a, angle), Degree(a);
    hide Times, Degree, Travel;
    Ordered((a.minUs - a.centerUs) as real, x, k);
    Ordered((a.maxUs - a.centerUs) as real, x, k);
    Ordered(x, (a.minUs - a.centerUs) as real, k);
    Ordered(x, (a.maxUs - a.centerUs) as real, k);
    TruncateNear(x);
  }

  // ----- the rules in numbers ----------------------------------------------------------------------

  /** With the flip enabled: the rear pose beyond 95 degrees, the front pose up to 85, else the last one kept. */
  lemma FlipExactly(c: Config, t: Track, az: real, el: real)
    requires AxisOk(c.pan) && AxisOk(c.tilt)
    ensures var off, f := Abs(Wrap(az - c.panRef)), Aim(c, t, az, el).flipped;
            f == (c.flipEnabled && (off > 95.0 || (off > 85.0 && t.flipped)))
  {
  }

  /** The filtered elevation, too, closes 0.3 of the gap with every sample. */
  lemma ElevationShrinks(e: Ema, az: real, el: real)
    requires e.on
    ensures Smooth(e, az, el).el - el == 0.7 * (e.el - el)
  {
  }
}
