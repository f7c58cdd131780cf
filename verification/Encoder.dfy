/**
 * The rotary encoder (quadrature half of firmware/io/src/subsystems/encoder.cpp): a transition
 * table, an accumulator, and one event per four net transitions.
 */
module Encoder {

  /** (A << 1) | B */
  type State = s: int | 0 <= s < 4

  const PER_DETENT := 4

  datatype Event = CW | CCW

  /** kQuadTable at (previous << 2) | current. */
  function Table(previous: State, current: State): int {
    match 4 * previous + current
    case 1 => -1
    case 2 => 1
    case 4 => 1
    case 7 => -1
    case 8 => -1
    case 11 => 1
    case 13 => 1
    case 14 => -1
    case _ => 0
  }

  datatype Quad = Quad(previous: State, accum: int)

  predicate Settled(q: Quad) { -PER_DETENT < q.accum < PER_DETENT }

  /** One sample; a settled accumulator emits at most one event. */
  function Step(q: Quad, s: State): Quad {
    var a := q.accum + Table(q.previous, s);
    Quad(s, if a >= PER_DETENT then a - PER_DETENT else if a <= -PER_DETENT then a + PER_DETENT else a)
  }

  function Emits(q: Quad, s: State): seq<Event> {
    var a := q.accum + Table(q.previous, s);
    if a >= PER_DETENT then [CW] else if a <= -PER_DETENT then [CCW] else []
  }

  class QuadDecoder {
    var previous: State
    var accum: int
    var out: seq<Event>

    ghost function View(): Quad
      reads this
    {
      Quad(previous, accum)
    }

    constructor (first: State)
      ensures View() == Quad(first, 0) && out == []
    {
      previous, accum, out := first, 0, [];
    }

    /** tick: the int8_t accumulator never leaves -4..4, and both draining loops run at most once. */
    method Tick(curr: State)
      requires Settled(View())
      modifies this
      ensures Settled(View())
      ensures View() == Step(old(View()), curr)
      ensures out == old(out) + Emits(old(View()), curr)
    {
      assert out + [] == out && Table(curr, curr) == 0;
      if curr != previous {
        var step := Table(previous, curr);
        accum := accum + step;
        previous := curr;
        ghost var a := accum;
        while accum >= PER_DETENT
          invariant accum <= PER_DETENT && previous == curr
          invariant (accum == a && out == old(out)) ||
                    (a >= PER_DETENT && accum == a - PER_DETENT && out == old(out) + [CW])
        {
          out := out + [CW];
          accum := accum - PER_DETENT;
        }
        while accum <= -PER_DETENT
          invariant -PER_DETENT <= accum < PER_DETENT && previous == curr
          invariant (a < PER_DETENT && accum == a && out == old(out)) ||
                    (a >= PER_DETENT && accum == a - PER_DETENT && out == old(out) + [CW]) ||
                    (a <= -PER_DETENT && accum == a + PER_DETENT && out == old(out) + [CCW])
        {
          out := out + [CCW];
          accum := accum + PER_DETENT;
        }
      }
    }
  }

  // ----- runs -------------------------------------------------------------------------

  function After(first: State, ss: seq<State>): Quad {
    if ss == [] then Quad(first, 0) else Step(After(first, ss[..|ss| - 1]), ss[|ss| - 1])
  }

  function Events(first: State, ss: seq<State>): seq<Event> {
    if ss == [] then []
    else
      var n := |ss| - 1;
      Events(first, ss[..n]) + Emits(After(first, ss[..n]), ss[n])
  }

  /** Clockwise events less counter-clockwise ones. */
  function Net(es: seq<Event>): int {
    if es == [] then 0 else Net(es[..|es| - 1]) + if es[|es| - 1] == CW then 1 else -1
  }

  /** The position of a state on the wheel: clockwise is 0, 2, 3, 1. */
  function Phase(s: State): int {
    if s == 0 then 0 else if s == 2 then 1 else if s == 3 then 2 else 3
  }

  /** Both inputs changed between two samples. */
  predicate Jump(p: State, s: State) { Phase(s) - Phase(p) == 2 || Phase(p) - Phase(s) == 2 }

  function Last(first: State, ss: seq<State>): State {
    if ss == [] then first else ss[|ss| - 1]
  }

  function Hidden(p: State, s: State): nat { if Jump(p, s) then 1 else 0 }

  /** Phase change of one sample that neither the table nor the jump rule accounts for. */
  function Missed(p: State, s: State): int { Phase(s) - Phase(p) - Table(p, s) - 2 * Hidden(p, s) }

  function Jumps(first: State, ss: seq<State>): nat {
    if ss == [] then 0
    else
      var n := |ss| - 1;
      Jumps(first, ss[..n]) + Hidden(Last(first, ss[..n]), ss[n])
  }

  /** The table moves by the phase difference, except for a jump, which it ignores. */
  lemma TableIsPhaseStep(p: State, s: State)
    ensures Missed(p, s) == 0 || Missed(p, s) == 4 || Missed(p, s) == -4
  {
  }

  lemma TableBound(p: State, s: State)
    ensures -1 <= Table(p, s) <= 1
  {
  }

  lemma NetOne(es: seq<Event>, e: Event)
    ensures Net(es + [e]) == Net(es) + if e == CW then 1 else -1
  {
    assert (es + [e])[..|es|] == es;
  }

  lemma NetAppend(es: seq<Event>, q: Quad, s: State)
    requires Settled(q)
    ensures Settled(Step(q, s))
    ensures 4 * Net(es + Emits(q, s)) + Step(q, s).accum == 4 * Net(es) + q.accum + Table(q.previous, s)
  {
    TableBound(q.previous, s);
    var a := q.accum + Table(q.previous, s);
    if a >= PER_DETENT {
      NetOne(es, CW);
    } else if a <= -PER_DETENT {
      NetOne(es, CCW);
    } else {
      assert es + [] == es;
    }
  }

  /** Phase change that neither events nor remainder nor jumps account for. */
  function Unaccounted(first: State, ss: seq<State>): int {
    Phase(Last(first, ss)) - Phase(first) - 4 * Net(Events(first, ss)) - After(first, ss).accum - 2 * Jumps(first, ss)
  }

  /**
   * Conservation over every run of samples: events and remainder account for the whole motion,
   * except that each jump hides half a turn.
   */
  lemma {:induction false} Conservation(first: State, ss: seq<State>)
    ensures Settled(After(first, ss)) && After(first, ss).previous == Last(first, ss)
    ensures Unaccounted(first, ss) % 4 == 0
  {
    if ss != [] {
      var n := |ss| - 1;
      var p := Last(first, ss[..n]);
      Conservation(first, ss[..n]);
      OneSample(first, ss);
      TableIsPhaseStep(p, ss[n]);
      MultiplesAdd(Unaccounted(first, ss), Unaccounted(first, ss[..n]), Missed(p, ss[n]));
    }
  }

  lemma OneSample(first: State, ss: seq<State>)
    requires ss != []
    requires var q := After(first, ss[..|ss| - 1]); Settled(q) && q.previous == Last(first, ss[..|ss| - 1])
    ensures Settled(After(first, ss)) && After(first, ss).previous == Last(first, ss)
    ensures var p, s := Last(first, ss[..|ss| - 1]), ss[|ss| - 1];
            Unaccounted(first, ss) ==
            Unaccounted(first, ss[..|ss| - 1]) + Missed(p, s)
  {
    var n := |ss| - 1;
    NetAppend(Events(first, ss[..n]), After(first, ss[..n]), ss[n]);
  }

  lemma MultiplesAdd(u: int, a: int, b: int)
    requires u == a + b && a % 4 == 0 && b % 4 == 0
    ensures u % 4 == 0
  {
  }

  lemma HalfTurns(u: int, x: int, j: int)
    requires u == -x - 2 * j && u % 4 == 0
    ensures x % 4 == 0 <==> j % 2 == 0
  {
  }

  /** The phase told by events and remainder, less the true one. */
  function Drift(first: State, ss: seq<State>): int {
    Phase(first) + 4 * Net(Events(first, ss)) + After(first, ss).accum - Phase(Last(first, ss))
  }

  /** Phase bookkeeping is exact just when the number of jumps is even. */
  lemma PhaseKept(first: State, ss: seq<State>)
    ensures Drift(first, ss) % 4 == 0 <==> Jumps(first, ss) % 2 == 0
  {
    Conservation(first, ss);
    HalfTurns(Unaccounted(first, ss), Drift(first, ss), Jumps(first, ss));
  }

  /**
   * Back at the first state, nothing is left over exactly if the number of jumps is even: without
   * jumps any bouncing nets to zero.
   */
  lemma ReturnLeavesNothing(first: State, ss: seq<State>)
    requires Last(first, ss) == first
    ensures After(first, ss).accum == 0 <==> Jumps(first, ss) % 2 == 0
  {
    Conservation(first, ss);
    SmallMultiple(Unaccounted(first, ss), Net(Events(first, ss)), After(first, ss).accum, Jumps(first, ss));
  }

  lemma SmallMultiple(u: int, n: int, a: int, j: int)
    requires u == -4 * n - a - 2 * j && u % 4 == 0 && -4 < a < 4
    ensures a == 0 <==> j % 2 == 0
  {
  }

  /** The motion the table sees in a run. */
  function Travel(first: State, ss: seq<State>): int {
    if ss == [] then 0
    else
      var n := |ss| - 1;
      Travel(first, ss[..n]) + Table(Last(first, ss[..n]), ss[n])
  }

  /** The events never lag or lead the motion by a whole detent. */
  lemma {:induction false} EventsFollowTravel(first: State, ss: seq<State>)
    ensures -4 < Travel(first, ss) - 4 * Net(Events(first, ss)) < 4
    ensures Travel(first, ss) - 4 * Net(Events(first, ss)) == After(first, ss).accum
  {
    Conservation(first, ss);
    if ss != [] {
      var n := |ss| - 1;
      EventsFollowTravel(first, ss[..n]);
      Conservation(first, ss[..n]);
      NetAppend(Events(first, ss[..n]), After(first, ss[..n]), ss[n]);
    }
  }
}
