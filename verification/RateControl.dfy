/**
 * The downloader's adaptive request rate (tools/maps/sat-download/main.go): halved on a throttle
 * response, raised step by step after a pause. Rates are reals, times whole seconds; a
 * controller that never backed off has no time of last backoff.
 */
module RateControl {
  import opened Bytes

  datatype Rate = Rate(target: real, current: real, lastBackoff: Option<int>)

  function NewRate(target: real): Rate { Rate(target, target, None) }

  /** Seconds since the last backoff reach n; always so before the first one. */
  predicate QuietFor(r: Rate, now: int, n: int) { r.lastBackoff.None? || now - r.lastBackoff.value >= n }

  function Max(a: real, b: real): real { if a < b then b else a }

  function Min(a: real, b: real): real { if b < a then b else a }

  function Throttled(r: Rate, now: int): Rate {
    if !QuietFor(r, now, 10) then r else r.(current := Max(r.current / 2.0, 1.0), lastBackoff := Some(now))
  }

  function StepSize(r: Rate): real { Max(r.target / 300.0, 0.01) }

  function Succeeded(r: Rate, now: int): Rate {
    if r.current >= r.target || !QuietFor(r, now, 30) then r
    else r.(current := Min(r.current + StepSize(r), r.target))
  }

  class RateController {
    const target: real
    var current: real
    var lastBackoff: Option<int>

    ghost function View(): Rate
      reads this
    {
      Rate(target, current, lastBackoff)
    }

    constructor (target: real)
      ensures View() == NewRate(target)
    {
      this.target := target;
      current := target;
      lastBackoff := None;
    }

    method OnThrottle(now: int)
      modifies this
      ensures View() == Throttled(old(View()), now)
    {
      if lastBackoff.Some? && now - lastBackoff.value < 10 {
        return;
      }
      current := current / 2.0;
      if current < 1.0 {
        current := 1.0;
      }
      lastBackoff := Some(now);
    }

    method OnSuccess(now: int)
      modifies this
      ensures View() == Succeeded(old(View()), now)
    {
      if current >= target {
        return;
      }
      if lastBackoff.Some? && now - lastBackoff.value < 30 {
        return;
      }
      var step := target / 300.0;
      if step < 0.01 {
        step := 0.01;
      }
      current := current + step;
      if current > target {
        current := target;
      }
    }
  }

  // ----- runs ---------------------------------------------------------------------------------

  datatype Response = Throttle(now: int) | Success(now: int)

  function After(target: real, rs: seq<Response>): Rate {
    if rs == [] then NewRate(target)
    else
      var r := After(target, rs[..|rs| - 1]);
      match rs[|rs| - 1]
      case Throttle(now) => Throttled(r, now)
      case Success(now) => Succeeded(r, now)
  }

  /**
   * The rate keeps to its target over every run exactly if the target is at least one request a
   * second, or no throttle response was ever seen: the floor of 1 is applied even when the target
   * lies below it, and then backing off raises the rate.
   */
  lemma {:induction false} RateKeepsTarget(target: real, rs: seq<Response>)
    requires target > 0.0
    ensures After(target, rs).target == target && After(target, rs).current > 0.0
    ensures After(target, rs).current <= target <==> target >= 1.0 || forall r :: r in rs ==> r.Success?
    ensures target < 1.0 && (exists r :: r in rs && r.Throttle?) ==> After(target, rs).current == 1.0
    ensures After(target, rs).lastBackoff.None? <==> forall r :: r in rs ==> r.Success?
  {
    if rs != [] {
      var n := |rs| - 1;
      RateKeepsTarget(target, rs[..n]);
      assert rs == rs[..n] + [rs[n]];
      assert rs[n] in rs && forall r :: r in rs[..n] ==> r in rs;
    }
  }

  /** Successes one after the other, at the given times. */
  function Recovered(r: Rate, times: seq<int>): Rate {
    if times == [] then r else Succeeded(Recovered(r, times[..|times| - 1]), times[|times| - 1])
  }

  /** None of these times is within 30 s of the last backoff. */
  predicate AllQuiet(r: Rate, times: seq<int>) { forall t :: t in times ==> QuietFor(r, t, 30) }

  predicate Rising(times: seq<int>) { forall i, j :: 0 <= i <= j < |times| ==> times[i] <= times[j] }

  /** On a clock that never runs back the first one decides. */
  lemma ClockKeepsQuiet(r: Rate, times: seq<int>)
    requires Rising(times)
    ensures AllQuiet(r, times) <==> times == [] || QuietFor(r, times[0], 30)
  {
    if times != [] {
      assert times[0] in times;
      assert forall t :: t in times ==> t >= times[0];
    }
  }

  lemma QuietPrefix(r: Rate, times: seq<int>)
    requires times != [] && AllQuiet(r, times)
    ensures AllQuiet(r, times[..|times| - 1]) && QuietFor(r, times[|times| - 1], 30)
  {
    assert times[|times| - 1] in times;
  }

  /** The rate n steps up, or the target. */
  function Raised(r: Rate, n: nat): real { Min(r.current + n as real * StepSize(r), r.target) }

  lemma {:induction false} RecoveryIsLinear(r: Rate, times: seq<int>)
    requires 0.0 < r.current <= r.target && AllQuiet(r, times)
    ensures Recovered(r, times).target == r.target && Recovered(r, times).lastBackoff == r.lastBackoff
    ensures Recovered(r, times).current == Raised(r, |times|)
  {
    if times == [] {
      assert 0 as real * StepSize(r) == 0.0;
      return;
    }
    hide AllQuiet, Succeeded, Raised;
    var n := |times| - 1;
    QuietPrefix(r, times);
    RecoveryIsLinear(r, times[..n]);
    NextSuccess(r, Recovered(r, times[..n]), times[n], n);
  }

  lemma NextSuccess(r: Rate, b: Rate, now: int, n: nat)
    requires b.target == r.target && b.lastBackoff == r.lastBackoff && QuietFor(r, now, 30)
    requires b.current == Raised(r, n)
    ensures Succeeded(b, now).target == r.target && Succeeded(b, now).lastBackoff == r.lastBackoff
    ensures Succeeded(b, now).current == Raised(r, n + 1)
  {
    OneMoreStep((n + 1) as real, n as real, StepSize(r));
    OneSuccess(b, now, r.current, n as real * StepSize(r), (n + 1) as real * StepSize(r));
  }

  lemma OneSuccess(b: Rate, now: int, base: real, x: real, y: real)
    requires b.current == Min(base + x, b.target) && y == x + StepSize(b) && QuietFor(b, now, 30)
    ensures Succeeded(b, now).current == Min(base + y, b.target)
  {
    assert StepSize(b) > 0.0;
  }

  lemma OneMoreStep(n: real, m: real, step: real)
    requires n == m + 1.0
    ensures n * step == m * step + step
  {
  }

  /**
   * Whatever the target and however deep the backoff, 300 undisturbed successes after the pause
   * restore the full rate.
   */
  lemma RecoversIn300(r: Rate, times: seq<int>)
    requires 0.0 < r.current <= r.target && AllQuiet(r, times) && |times| >= 300
    ensures Recovered(r, times).current == r.target
  {
    RecoveryIsLinear(r, times);
    Enough(|times| as real, StepSize(r), r.target);
  }

  function Successes(times: seq<int>): seq<Response> {
    seq(|times|, k requires 0 <= k < |times| => Success(times[k]))
  }

  lemma {:induction false} RunContinues(target: real, rs: seq<Response>, times: seq<int>)
    ensures After(target, rs + Successes(times)) == Recovered(After(target, rs), times)
  {
    if times == [] {
      assert rs + Successes(times) == rs;
    } else {
      var n := |times| - 1;
      RunContinues(target, rs, times[..n]);
      assert (rs + Successes(times))[..|rs| + n] == rs + Successes(times[..n]);
    }
  }

  /**
   * Behind any run, 300 successes that begin 30 s or more after the last backoff end at the target
   * exactly if the target is at least 1 or no throttle response was seen: below 1 the floor, once
   * reached, is never left.
   */
  lemma RunRecovers(target: real, rs: seq<Response>, times: seq<int>)
    requires target > 0.0 && Rising(times) && |times| >= 300 && QuietFor(After(target, rs), times[0], 30)
    ensures After(target, rs + Successes(times)).current == target <==>
            target >= 1.0 || forall r :: r in rs ==> r.Success?
  {
    RateKeepsTarget(target, rs);
    RunContinues(target, rs, times);
    ClockKeepsQuiet(After(target, rs), times);
    if target >= 1.0 || forall r :: r in rs ==> r.Success? {
      RecoversIn300(After(target, rs), times);
    } else {
      RateKeepsTarget(target, rs + Successes(times));
      var r :| r in rs && r.Throttle?;
      assert r in rs + Successes(times);
    }
  }

  lemma Enough(n: real, step: real, target: real)
    requires n >= 300.0 && step >= target / 300.0 && target > 0.0
    ensures n * step >= target
  {
    assert n * step >= 300.0 * step;
  }

  // ----- backing off ---------------------------------------------------------------------------

  /** x halved n times, but not below 1. */
  function Halved(x: real, n: nat): real { if n == 0 then x else Max(Halved(x, n - 1) / 2.0, 1.0) }

  function Throttles(times: seq<int>): seq<Response> {
    seq(|times|, k requires 0 <= k < |times| => Throttle(times[k]))
  }

  /** Throttle responses one after the other that each count. */
  predicate TenApart(r: Rate, times: seq<int>) {
    && (times != [] && r.lastBackoff.Some? ==> times[0] - r.lastBackoff.value >= 10)
    && forall i, j :: 0 <= i && j == i + 1 < |times| ==> times[j] - times[i] >= 10
  }

  function Backed(r: Rate, times: seq<int>): Rate {
    if times == [] then r else Throttled(Backed(r, times[..|times| - 1]), times[|times| - 1])
  }

  /** Throttle responses at least 10 s apart halve the rate each, down to 1; others in between count for nothing. */
  lemma {:induction false} BackoffHalves(r: Rate, times: seq<int>)
    requires TenApart(r, times)
    ensures Backed(r, times) ==
            if times == [] then r
            else Rate(r.target, Halved(r.current, |times|), Some(times[|times| - 1]))
  {
    if times != [] {
      BackoffHalves(r, times[..|times| - 1]);
    }
  }

  lemma SoonAgainIgnored(r: Rate, now: int)
    requires r.lastBackoff.Some? && now - r.lastBackoff.value < 10
    ensures Throttled(r, now) == r
  {
  }

  lemma {:induction false} RunBacksOff(target: real, rs: seq<Response>, times: seq<int>)
    ensures After(target, rs + Throttles(times)) == Backed(After(target, rs), times)
  {
    if times == [] {
      assert rs + Throttles(times) == rs;
    } else {
      var n := |times| - 1;
      RunBacksOff(target, rs, times[..n]);
      assert (rs + Throttles(times))[..|rs| + n] == rs + Throttles(times[..n]);
    }
  }

  // ----- the pace of recovery ---------------------------------------------------------------------

  /**
   * The recovery in numbers: n successes, each 30 s or more after the last backoff, raise the rate
   * by n three-hundredths of the target, or by n hundredths of a request if that is more, and no
   * further than the target; within the 30 s nothing is raised.
   */
  lemma RecoveryPace(r: Rate, times: seq<int>)
    requires 0.0 < r.current <= r.target && AllQuiet(r, times)
    ensures var step := if r.target / 300.0 < 0.01 then 0.01 else r.target / 300.0;
            var raised := r.current + |times| as real * step;
            Recovered(r, times).current == if raised > r.target then r.target else raised
  {
    hide Recovered, AllQuiet, Raised;
    RecoveryIsLinear(r, times);
    RaisedIs(r, |times|, if r.target / 300.0 < 0.01 then 0.01 else r.target / 300.0);
  }

  lemma RaisedIs(r: Rate, n: nat, step: real)
    requires step == if r.target / 300.0 < 0.01 then 0.01 else r.target / 300.0
    ensures var raised := r.current + n as real * step; Raised(r, n) == if raised > r.target then r.target else raised
  {
    assert StepSize(r) == step;
  }

  lemma NotYetRaised(r: Rate, now: int)
    requires r.lastBackoff.Some? && now - r.lastBackoff.value < 30
    ensures Succeeded(r, now) == r
  {
  }
}
