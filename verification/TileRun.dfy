/**
 * The concurrent part of the tile downloader (tools/maps/sat-download/main.go): a producer, W
 * workers and a writer over two channels of 4 W places. Every interleaving is a sequence of
 * steps; the theorems hold for all of them.
 */
module TileRun {
  import opened TileGrid

  /** How a fetch ends: a body, status 404, or any other error. */
  datatype Outcome = Body | NotFound | Failure

  datatype Result = Result(job: Tile, outcome: Outcome)

  /** A worker ranges over the jobs channel, waits for the limiter and fetches, then sends. */
  datatype Worker = Idle | Busy(job: Tile) | Sending(r: Result) | Gone

  /** runZoom: enqueueing, wg.Wait with jobs closed, draining with results closed, done. */
  datatype Phase = PRODUCING | JOINING | DRAINING | RETURNED

  datatype Counters = Counters(done: nat, downloaded: nat, skipped: nat, notFound: nat, errs: nat)

  /** The last three fields are history: what was written, processed, and dropped on cancellation. */
  datatype State = State(phase: Phase, todo: seq<Tile>, jobs: seq<Tile>, ws: seq<Worker>, results: seq<Result>,
                         cancelled: bool, c: Counters,
                         written: set<Tile>, processed: multiset<Tile>, lost: multiset<Tile>)

  datatype Step =
    | Enqueue | StopProducing | FinishProducing
    | Take(w: nat) | Leave(w: nat) | LimiterStops(w: nat) | FetchEnds(w: nat, o: Outcome)
    | Send(w: nat) | SendStops(w: nat)
    | CloseResults | Write(ok: bool) | Return
    | Cancel

  function Start(workers: nat, missing: seq<Tile>, existing: nat): State {
    State(PRODUCING, missing, [], seq(workers, _ => Idle), [], false, Counters(existing, 0, existing, 0, 0),
          {}, multiset{}, multiset{})
  }

  function Capacity(s: State): nat { 4 * |s.ws| }

  predicate AllGone(s: State) { forall w :: 0 <= w < |s.ws| ==> s.ws[w].Gone? }

  /** Where a select offers a send and ctx.Done, either may be taken once both are ready. */
  predicate Enabled(s: State, step: Step) {
    match step
    case Enqueue => s.phase == PRODUCING && s.todo != [] && |s.jobs| < Capacity(s)
    case StopProducing => s.phase == PRODUCING && s.todo != [] && s.cancelled
    case FinishProducing => s.phase == PRODUCING && s.todo == []
    case Take(w) => w < |s.ws| && s.ws[w].Idle? && s.jobs != []
    case Leave(w) => w < |s.ws| && s.ws[w].Idle? && s.jobs == [] && s.phase != PRODUCING
    case LimiterStops(w) => w < |s.ws| && s.ws[w].Busy? && s.cancelled
    case FetchEnds(w, _) => w < |s.ws| && s.ws[w].Busy?
    case Send(w) => w < |s.ws| && s.ws[w].Sending? && |s.results| < Capacity(s)
    case SendStops(w) => w < |s.ws| && s.ws[w].Sending? && s.cancelled
    case CloseResults => s.phase == JOINING && AllGone(s)
    case Write(_) => s.results != []
    case Return => s.phase == DRAINING && s.results == []
    case Cancel => !s.cancelled
  }

  /** What the writer adds for one result; `ok` is whether the insert succeeded. */
  function Count(c: Counters, o: Outcome, ok: bool): Counters {
    var d := c.(done := c.done + 1);
    match o
    case Body => if ok then d.(downloaded := c.downloaded + 1) else d.(errs := c.errs + 1)
    case NotFound => d.(notFound := c.notFound + 1)
    case Failure => d.(errs := c.errs + 1)
  }

  function Apply(s: State, step: Step): State
    requires Enabled(s, step)
  {
    match step
    case Enqueue => s.(jobs := s.jobs + [s.todo[0]], todo := s.todo[1..])
    case StopProducing => s.(phase := JOINING, todo := [], lost := s.lost + multiset(s.todo))
    case FinishProducing => s.(phase := JOINING)
    case Take(w) => s.(ws := s.ws[w := Busy(s.jobs[0])], jobs := s.jobs[1..])
    case Leave(w) => s.(ws := s.ws[w := Gone])
    case LimiterStops(w) => s.(ws := s.ws[w := Gone], lost := s.lost + multiset{s.ws[w].job})
    case FetchEnds(w, o) => s.(ws := s.ws[w := Sending(Result(s.ws[w].job, o))])
    case Send(w) => s.(ws := s.ws[w := Idle], results := s.results + [s.ws[w].r])
    case SendStops(w) => s.(ws := s.ws[w := Gone], lost := s.lost + multiset{s.ws[w].r.job})
    case CloseResults => s.(phase := DRAINING)
    case Write(ok) =>
      var r := s.results[0];
      s.(results := s.results[1..], c := Count(s.c, r.outcome, ok), processed := s.processed + multiset{r.job},
         written := if r.outcome == Body && ok then s.written + {r.job} else s.written)
    case Return => s.(phase := RETURNED)
    case Cancel => s.(cancelled := true)
  }

  // ----- where every tile is ----------------------------------------------------------------

  function InHand(w: Worker): multiset<Tile> {
    match w
    case Busy(job) => multiset{job}
    case Sending(r) => multiset{r.job}
    case _ => multiset{}
  }

  function InHands(ws: seq<Worker>): multiset<Tile> {
    if ws == [] then multiset{} else InHands(ws[..|ws| - 1]) + InHand(ws[|ws| - 1])
  }

  lemma HandsLast(ws: seq<Worker>, n: nat)
    requires |ws| == n + 1
    ensures InHands(ws) == InHands(ws[..n]) + InHand(ws[n])
  {
  }

  lemma {:induction false} HandsUpdate(ws: seq<Worker>, w: nat, x: Worker)
    requires w < |ws|
    ensures InHands(ws[w := x]) + InHand(ws[w]) == InHands(ws) + InHand(x)
  {
    var n := |ws| - 1;
    var us := ws[w := x];
    HandsLast(ws, n);
    HandsLast(us, n);
    if w < n {
      HandsUpdate(ws[..n], w, x);
      assert us[..n] == ws[..n][w := x] && us[n] == ws[n];
      AddToBoth(InHands(us[..n]), InHand(ws[w]), InHands(ws[..n]), InHand(x), InHand(ws[n]));
    } else {
      assert us[..n] == ws[..n];
      AddToBoth(InHand(x), InHand(ws[w]), InHand(ws[w]), InHand(x), InHands(ws[..n]));
    }
  }

  lemma AddToBoth<T>(a: multiset<T>, b: multiset<T>, c: multiset<T>, d: multiset<T>, e: multiset<T>)
    requires a + b == c + d
    ensures (a + e) + b == (c + e) + d
    ensures (e + a) + b == (e + c) + d
  {
    forall t: T
      ensures ((a + e) + b)[t] == ((c + e) + d)[t] && ((e + a) + b)[t] == ((e + c) + d)[t]
    {
      assert (a + b)[t] == (c + d)[t];
    }
  }

  lemma TookOut<T>(a: multiset<T>, a': multiset<T>, x: multiset<T>)
    requires a' + x == a + multiset{}
    ensures a == x + a'
  {
    forall t: T
      ensures a[t] == (x + a')[t]
    {
      assert (a' + x)[t] == (a + multiset{})[t];
    }
  }

  function JobsOf(rs: seq<Result>): multiset<Tile> {
    if rs == [] then multiset{} else multiset{rs[0].job} + JobsOf(rs[1..])
  }

  lemma {:induction false} JobsSnoc(rs: seq<Result>, r: Result)
    ensures JobsOf(rs + [r]) == JobsOf(rs) + multiset{r.job}
  {
    if rs == [] {
      assert rs + [r] == [r] && [r][1..] == [];
    } else {
      assert (rs + [r])[1..] == rs[1..] + [r];
      JobsSnoc(rs[1..], r);
    }
  }

  /** All tiles, wherever they are. */
  function Everywhere(s: State): multiset<Tile> {
    multiset(s.todo) + multiset(s.jobs) + InHands(s.ws) + JobsOf(s.results) + s.processed + s.lost
  }

  lemma HeadApart<T>(s: seq<T>)
    requires s != []
    ensures multiset(s) == multiset{s[0]} + multiset(s[1..])
  {
    assert s == [s[0]] + s[1..];
  }

  /** Moving x from one summand to another. */
  lemma Moved<T>(a: multiset<T>, a': multiset<T>, b: multiset<T>, b': multiset<T>, x: multiset<T>, rest: multiset<T>)
    requires a == x + a' && b' == b + x
    ensures a' + b' + rest == a + b + rest
  {
  }

  lemma SumOfSix<T>(a: multiset<T>, b: multiset<T>, c: multiset<T>, d: multiset<T>, e: multiset<T>, f: multiset<T>)
    ensures a + b + c + d + e + f == a + b + (c + d + e + f)
    ensures a + b + c + d + e + f == b + c + (a + d + e + f)
    ensures a + b + c + d + e + f == c + d + (a + b + e + f)
    ensures a + b + c + d + e + f == c + f + (a + b + d + e)
    ensures a + b + c + d + e + f == d + e + (a + b + c + f)
    ensures a + b + c + d + e + f == a + f + (b + c + d + e)
  {
  }

  lemma Six(s: State)
    ensures var a, b, c, d, e, f :=
              multiset(s.todo), multiset(s.jobs), InHands(s.ws), JobsOf(s.results), s.processed, s.lost;
            && Everywhere(s) == a + b + (c + d + e + f) && Everywhere(s) == b + c + (a + d + e + f)
            && Everywhere(s) == c + d + (a + b + e + f) && Everywhere(s) == c + f + (a + b + d + e)
            && Everywhere(s) == d + e + (a + b + c + f) && Everywhere(s) == a + f + (b + c + d + e)
  {
    SumOfSix(multiset(s.todo), multiset(s.jobs), InHands(s.ws), JobsOf(s.results), s.processed, s.lost);
  }

  lemma EnqueueMoves(s: State)
    requires Enabled(s, Enqueue)
    ensures Everywhere(Apply(s, Enqueue)) == Everywhere(s)
  {
    var r := Apply(s, Enqueue);
    HeadApart(s.todo);
    Six(s);
    Six(r);
    Moved(multiset(s.todo), multiset(r.todo), multiset(s.jobs), multiset(r.jobs), multiset{s.todo[0]},
          InHands(s.ws) + JobsOf(s.results) + s.processed + s.lost);
  }

  lemma StopMoves(s: State)
    requires Enabled(s, StopProducing)
    ensures Everywhere(Apply(s, StopProducing)) == Everywhere(s)
  {
    var r := Apply(s, StopProducing);
    Six(s);
    Six(r);
    Moved(multiset(s.todo), multiset(r.todo), s.lost, r.lost, multiset(s.todo),
          multiset(s.jobs) + InHands(s.ws) + JobsOf(s.results) + s.processed);
  }

  lemma TakeMoves(s: State, w: nat)
    requires Enabled(s, Take(w))
    ensures Everywhere(Apply(s, Take(w))) == Everywhere(s)
  {
    var r := Apply(s, Take(w));
    HeadApart(s.jobs);
    HandsUpdate(s.ws, w, Busy(s.jobs[0]));
    Six(s);
    Six(r);
    Moved(multiset(s.jobs), multiset(r.jobs), InHands(s.ws), InHands(r.ws), multiset{s.jobs[0]},
          multiset(s.todo) + JobsOf(s.results) + s.processed + s.lost);
  }

  /** A worker that gives its tile up. */
  lemma DropMoves(s: State, w: nat, job: Tile, r: State)
    requires w < |s.ws| && InHand(s.ws[w]) == multiset{job}
    requires r == s.(ws := s.ws[w := Gone], lost := s.lost + multiset{job})
    ensures Everywhere(r) == Everywhere(s)
  {
    HandsUpdate(s.ws, w, Gone);
    TookOut(InHands(s.ws), InHands(r.ws), multiset{job});
    Six(s);
    Six(r);
    Moved(InHands(s.ws), InHands(r.ws), s.lost, r.lost, multiset{job},
          multiset(s.todo) + multiset(s.jobs) + JobsOf(s.results) + s.processed);
  }

  lemma SendMoves(s: State, w: nat)
    requires Enabled(s, Send(w))
    ensures Everywhere(Apply(s, Send(w))) == Everywhere(s)
  {
    var r := Apply(s, Send(w));
    HandsUpdate(s.ws, w, Idle);
    TookOut(InHands(s.ws), InHands(r.ws), multiset{s.ws[w].r.job});
    JobsSnoc(s.results, s.ws[w].r);
    Six(s);
    Six(r);
    Moved(InHands(s.ws), InHands(r.ws), JobsOf(s.results), JobsOf(r.results), multiset{s.ws[w].r.job},
          multiset(s.todo) + multiset(s.jobs) + s.processed + s.lost);
  }

  lemma WriteMoves(s: State, ok: bool)
    requires Enabled(s, Write(ok))
    ensures Everywhere(Apply(s, Write(ok))) == Everywhere(s)
  {
    var r := Apply(s, Write(ok));
    Six(s);
    Six(r);
    Moved(JobsOf(s.results), JobsOf(r.results), s.processed, r.processed, multiset{s.results[0].job},
          multiset(s.todo) + multiset(s.jobs) + InHands(s.ws) + s.lost);
  }

  /** A worker that keeps what it holds. */
  lemma SameHands(s: State, w: nat, x: Worker)
    requires w < |s.ws| && InHand(s.ws[w]) == InHand(x)
    ensures Everywhere(s.(ws := s.ws[w := x])) == Everywhere(s)
  {
    HandsUpdate(s.ws, w, x);
    CancelSame(InHands(s.ws[w := x]), InHands(s.ws), InHand(x));
  }

  lemma CancelSame<T>(a: multiset<T>, b: multiset<T>, c: multiset<T>)
    requires a + c == b + c
    ensures a == b
  {
    forall t: T
      ensures a[t] == b[t]
    {
      assert (a + c)[t] == (b + c)[t];
    }
  }

  /** No step creates, duplicates or destroys a tile. */
  lemma TilesConserved(s: State, step: Step)
    requires Enabled(s, step)
    ensures Everywhere(Apply(s, step)) == Everywhere(s)
  {
    match step
    case Enqueue => EnqueueMoves(s);
    case StopProducing => StopMoves(s);
    case Take(w) => TakeMoves(s, w);
    case Leave(w) => SameHands(s, w, Gone);
    case LimiterStops(w) => DropMoves(s, w, s.ws[w].job, Apply(s, step));
    case FetchEnds(w, o) => SameHands(s, w, Sending(Result(s.ws[w].job, o)));
    case Send(w) => SendMoves(s, w);
    case SendStops(w) => DropMoves(s, w, s.ws[w].r.job, Apply(s, step));
    case Write(ok) => WriteMoves(s, ok);
    case _ =>
  }

  // ----- what every run keeps --------------------------------------------------------------------

  /** Counters and phases agree with the history. */
  predicate Books(s: State, existing: nat) {
    && s.c.skipped == existing && s.c.done == existing + |s.processed|
    && s.c.downloaded + s.c.notFound + s.c.errs == |s.processed|
    && |s.written| == s.c.downloaded && forall t :: t in s.written ==> t in s.processed
  }

  predicate Orderly(s: State) {
    && (s.phase != PRODUCING ==> s.todo == [])
    && (s.phase in {DRAINING, RETURNED} ==> AllGone(s))
    && (s.phase == RETURNED ==> s.results == [])
    && (!s.cancelled ==> s.lost == multiset{})
    && LeftInOrder(s)
  }

  /** Unless cancelled, a worker only leaves once there is nothing more to do. */
  predicate LeftInOrder(s: State) {
    !s.cancelled && (exists w :: 0 <= w < |s.ws| && s.ws[w].Gone?) ==> s.phase != PRODUCING && s.jobs == []
  }

  predicate Inv(s: State, missing: seq<Tile>, existing: nat) {
    && NoDuplicates(missing) && Everywhere(s) == multiset(missing) && Books(s, existing) && Orderly(s)
  }

  lemma {:induction false} NoneInHand(ws: seq<Worker>)
    requires forall w :: 0 <= w < |ws| ==> ws[w].Idle? || ws[w].Gone?
    ensures InHands(ws) == multiset{}
  {
    if ws != [] {
      NoneInHand(ws[..|ws| - 1]);
    }
  }

  lemma StartInv(workers: nat, missing: seq<Tile>, existing: nat)
    requires NoDuplicates(missing)
    ensures Inv(Start(workers, missing, existing), missing, existing)
  {
    NoneInHand(Start(workers, missing, existing).ws);
  }

  lemma {:induction false} OnceOnly<T>(s: seq<T>, t: T)
    requires NoDuplicates(s)
    ensures multiset(s)[t] <= 1
  {
    if s != [] {
      HeadApart(s);
      OnceOnly(s[1..], t);
      assert forall k :: 0 <= k < |s[1..]| ==> s[1..][k] != s[0];
    }
  }

  /** A result about to be written has not been processed before. */
  lemma ResultIsNew(s: State, missing: seq<Tile>, existing: nat)
    requires Inv(s, missing, existing) && s.results != []
    ensures s.results[0].job !in s.processed
  {
    var t := s.results[0].job;
    OnceOnly(missing, t);
    assert JobsOf(s.results)[t] >= 1;
    assert Everywhere(s)[t] >= JobsOf(s.results)[t] + s.processed[t];
  }

  lemma BooksKept(s: State, step: Step, existing: nat)
    requires Enabled(s, step) && Books(s, existing) && (step.Write? ==> s.results[0].job !in s.processed)
    ensures Books(Apply(s, step), existing)
  {
  }

  lemma LeftInOrderKept(s: State, step: Step)
    requires Enabled(s, step) && Orderly(s)
    ensures LeftInOrder(Apply(s, step))
  {
  }

  lemma OrderlyKept(s: State, step: Step)
    requires Enabled(s, step) && Orderly(s)
    ensures Orderly(Apply(s, step))
  {
    hide LeftInOrder;
    LeftInOrderKept(s, step);
  }

  lemma InvKept(s: State, step: Step, missing: seq<Tile>, existing: nat)
    requires Inv(s, missing, existing) && Enabled(s, step)
    ensures Inv(Apply(s, step), missing, existing)
  {
    TilesConserved(s, step);
    if step.Write? {
      ResultIsNew(s, missing, existing);
    }
    BooksKept(s, step, existing);
    OrderlyKept(s, step);
  }

  // ----- runs ---------------------------------------------------------------------------------------

  predicate Runs(s: State, steps: seq<Step>)
    decreases |steps|
  {
    steps == [] || (Enabled(s, steps[0]) && Runs(Apply(s, steps[0]), steps[1..]))
  }

  function After(s: State, steps: seq<Step>): State
    requires Runs(s, steps)
    decreases |steps|
  {
    if steps == [] then s else After(Apply(s, steps[0]), steps[1..])
  }

  lemma CrewKept(s: State, step: Step)
    requires Enabled(s, step)
    ensures |Apply(s, step).ws| == |s.ws| && (s.cancelled ==> Apply(s, step).cancelled)
  {
  }

  lemma {:induction false} RunKeeps(s: State, steps: seq<Step>, missing: seq<Tile>, existing: nat)
    requires Runs(s, steps) && Inv(s, missing, existing)
    ensures Inv(After(s, steps), missing, existing) && |After(s, steps).ws| == |s.ws|
    ensures s.cancelled ==> After(s, steps).cancelled
    decreases |steps|
  {
    if steps != [] {
      InvKept(s, steps[0], missing, existing);
      CrewKept(s, steps[0]);
      RunKeeps(Apply(s, steps[0]), steps[1..], missing, existing);
    }
  }

  /** No deadlock: until the zoom level returns, some step other than a cancellation is possible. */
  lemma Progress(s: State, missing: seq<Tile>, existing: nat)
    requires Inv(s, missing, existing) && |s.ws| > 0 && s.phase != RETURNED
    ensures exists step :: step != Cancel && Enabled(s, step)
  {
    if s.results != [] {
      assert Enabled(s, Write(true));
    } else if w: nat :| w < |s.ws| && s.ws[w].Sending? {
      assert Enabled(s, Send(w));
    } else if w: nat :| w < |s.ws| && s.ws[w].Busy? {
      assert Enabled(s, FetchEnds(w, Failure));
    } else if w: nat :| w < |s.ws| && s.ws[w].Idle? {
      IdleProgress(s, w);
    } else {
      GoneProgress(s);
    }
  }

  /** So no run, from the start of a level and whatever its interleaving, ever gets stuck. */
  lemma RunsDoNotStick(workers: nat, missing: seq<Tile>, existing: nat, steps: seq<Step>)
    requires workers > 0 && NoDuplicates(missing) && Runs(Start(workers, missing, existing), steps)
    ensures var s := After(Start(workers, missing, existing), steps);
            s.phase == RETURNED || exists step :: step != Cancel && Enabled(s, step)
  {
    var start := Start(workers, missing, existing);
    StartInv(workers, missing, existing);
    RunKeeps(start, steps, missing, existing);
    if After(start, steps).phase != RETURNED {
      Progress(After(start, steps), missing, existing);
    }
  }

  lemma IdleProgress(s: State, w: nat)
    requires w < |s.ws| && s.ws[w].Idle?
    ensures exists step :: step != Cancel && Enabled(s, step)
  {
    if s.jobs != [] {
      assert Enabled(s, Take(w));
    } else if s.phase != PRODUCING {
      assert Enabled(s, Leave(w));
    } else if s.todo != [] {
      assert Enabled(s, Enqueue);
    } else {
      assert Enabled(s, FinishProducing);
    }
  }

  lemma GoneProgress(s: State)
    requires Orderly(s) && |s.ws| > 0 && s.phase != RETURNED && s.results == [] && AllGone(s)
    ensures exists step :: step != Cancel && Enabled(s, step)
  {
    assert s.ws[0].Gone?;
    match s.phase
    case PRODUCING => assert Enabled(s, if s.todo == [] then FinishProducing else StopProducing);
    case JOINING => assert Enabled(s, CloseResults);
    case DRAINING => assert Enabled(s, Return);
  }

  // ----- termination -----------------------------------------------------------------------------------

  function Effort(w: Worker): nat {
    match w
    case Idle => 1
    case Busy(_) => 7
    case Sending(_) => 6
    case Gone => 0
  }

  function Efforts(ws: seq<Worker>): nat {
    if ws == [] then 0 else Efforts(ws[..|ws| - 1]) + Effort(ws[|ws| - 1])
  }

  lemma {:induction false} EffortUpdate(ws: seq<Worker>, w: nat, x: Worker)
    requires w < |ws|
    ensures Efforts(ws[w := x]) == Efforts(ws) - Effort(ws[w]) + Effort(x)
  {
    var n := |ws| - 1;
    if w < n {
      EffortUpdate(ws[..n], w, x);
      assert ws[w := x][..n] == ws[..n][w := x];
    } else {
      assert ws[w := x][..n] == ws[..n];
    }
  }

  /** What is still to be done. */
  function Remaining(s: State): nat {
    8 * |s.todo| + 7 * |s.jobs| + Efforts(s.ws) + 4 * |s.results| +
    (if s.phase == PRODUCING then 3 else if s.phase == JOINING then 2 else if s.phase == DRAINING then 1 else 0) +
    (if s.cancelled then 0 else 1)
  }

  /** Every step gets the run closer to its end. */
  lemma StepsDescend(s: State, step: Step)
    requires Enabled(s, step)
    ensures Remaining(Apply(s, step)) < Remaining(s)
  {
    match step
    case Take(w) => EffortUpdate(s.ws, w, Busy(s.jobs[0]));
    case Leave(w) => EffortUpdate(s.ws, w, Gone);
    case LimiterStops(w) => EffortUpdate(s.ws, w, Gone);
    case FetchEnds(w, o) => EffortUpdate(s.ws, w, Sending(Result(s.ws[w].job, o)));
    case Send(w) => EffortUpdate(s.ws, w, Idle);
    case SendStops(w) => EffortUpdate(s.ws, w, Gone);
    case _ =>
  }

  /** No run is longer than a bound known at its start; with Progress, every run that is not cut short returns. */
  lemma {:induction false} RunsAreBounded(s: State, steps: seq<Step>)
    requires Runs(s, steps)
    ensures |steps| + Remaining(After(s, steps)) <= Remaining(s)
    decreases |steps|
  {
    if steps != [] {
      StepsDescend(s, steps[0]);
      RunsAreBounded(Apply(s, steps[0]), steps[1..]);
    }
  }

  // ----- the account of a finished level -------------------------------------------------------------------

  /** Nothing is in flight any more when the level returns. */
  lemma ReturnedAccount(s: State, missing: seq<Tile>, existing: nat)
    requires Inv(s, missing, existing) && |s.ws| > 0 && s.phase == RETURNED && !s.cancelled
    ensures s.processed == multiset(missing)
    ensures s.c.done == existing + |missing|
    ensures s.c.skipped + s.c.downloaded + s.c.notFound + s.c.errs == s.c.done
  {
    assert s.ws[0].Gone?;
    NoneInHand(s.ws);
    assert Everywhere(s) == s.processed;
  }

  /**
   * An uncancelled level, in whatever order its goroutines ran: each tile of the rectangle that
   * was not stored is processed exactly once, every stored one is skipped, and the counters add
   * up to the rectangle.
   */
  lemma LevelAccount(r: Rect, db: set<Row>, workers: nat, steps: seq<Step>)
    requires RectOk(r) && workers > 0
    requires Runs(Start(workers, Missing(r, db), |ExistingKeys(r, db)|), steps)
    requires var s := After(Start(workers, Missing(r, db), |ExistingKeys(r, db)|), steps);
             s.phase == RETURNED && !s.cancelled
    ensures var s := After(Start(workers, Missing(r, db), |ExistingKeys(r, db)|), steps);
            && (forall t :: s.processed[t] == if InRect(r, t) && !Stored(r, db, t) then 1 else 0)
            && s.c.done == Tiles(r)
            && s.c.skipped + s.c.downloaded + s.c.notFound + s.c.errs == s.c.done
  {
    var missing, existing := Missing(r, db), |ExistingKeys(r, db)|;
    MissingDistinct(r, db);
    StartInv(workers, missing, existing);
    RunKeeps(Start(workers, missing, existing), steps, missing, existing);
    ReturnedAccount(After(Start(workers, missing, existing), steps), missing, existing);
    MissingCounted(r, db);
    forall t
      ensures multiset(missing)[t] == if InRect(r, t) && !Stored(r, db, t) then 1 else 0
    {
      OnceOnly(missing, t);
      MissingIsUnstored(r, db, t);
      assert t in multiset(missing) <==> t in missing;
    }
  }

  /** The archive after a run: what it wrote, on top of what was there. */
  function Archive(r: Rect, db: set<Row>, s: State): set<Row>
    requires RectOk(r)
  {
    db + set t | t in s.written && InRect(r, t) :: RowOf(r, t)
  }

  lemma WrittenWasMissing(r: Rect, db: set<Row>, s: State, t: Tile)
    requires RectOk(r) && Inv(s, Missing(r, db), |ExistingKeys(r, db)|) && t in s.written
    ensures InRect(r, t) && !Stored(r, db, t)
  {
    assert Everywhere(s)[t] >= s.processed[t] >= 1;
    assert t in multiset(Missing(r, db)) ==> t in Missing(r, db);
    MissingIsUnstored(r, db, t);
  }

  /**
   * Resuming, after a run that finished or was cancelled anywhere: the next run enqueues exactly
   * the tiles that were missing before and have not been written, so it refetches no stored tile.
   */
  lemma Resume(r: Rect, db: set<Row>, workers: nat, steps: seq<Step>, t: Tile)
    requires RectOk(r) && Runs(Start(workers, Missing(r, db), |ExistingKeys(r, db)|), steps)
    ensures var s := After(Start(workers, Missing(r, db), |ExistingKeys(r, db)|), steps);
            && (forall u :: u in s.written ==> InRect(r, u))
            && (t in Missing(r, Archive(r, db, s)) <==> t in Missing(r, db) && t !in s.written)
  {
    var missing, existing := Missing(r, db), |ExistingKeys(r, db)|;
    var s := After(Start(workers, missing, existing), steps);
    MissingDistinct(r, db);
    StartInv(workers, missing, existing);
    RunKeeps(Start(workers, missing, existing), steps, missing, existing);
    forall u | u in s.written
      ensures InRect(r, u)
    {
      WrittenWasMissing(r, db, s, u);
    }
    MissingIsUnstored(r, db, t);
    MissingIsUnstored(r, Archive(r, db, s), t);
    if InRect(r, t) {
      StoredAfter(r, db, s, t);
    }
  }

  lemma StoredAfter(r: Rect, db: set<Row>, s: State, t: Tile)
    requires RectOk(r) && InRect(r, t) && forall u :: u in s.written ==> InRect(r, u)
    ensures Stored(r, Archive(r, db, s), t) <==> Stored(r, db, t) || t in s.written
  {
    if RowOf(r, t) in Archive(r, db, s) && RowOf(r, t) !in db {
      var u :| u in s.written && RowOf(r, u) == RowOf(r, t);
      assert u == t;
    }
  }
}
