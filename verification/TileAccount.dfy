/**
 * The account of a tile run, told by its history (tools/maps/sat-download/main.go): how each fetch
 * ended and how each insert went, step by step, and what the counters then have to say.
 */
module TileAccount {
  import opened TileGrid
  import opened TileRun

  /** One result as the writer met it. */
  datatype Written = Written(job: Tile, outcome: Outcome, inserted: bool)

  /** The writer's history. */
  function Writes(s: State, steps: seq<Step>): seq<Written>
    requires Runs(s, steps)
    decreases |steps|
  {
    if steps == [] then []
    else
      (if steps[0].Write? then [Written(s.results[0].job, s.results[0].outcome, steps[0].ok)] else []) +
      Writes(Apply(s, steps[0]), steps[1..])
  }

  /** The workers' history: which tile each fetch was for, and how it ended. */
  function Fetches(s: State, steps: seq<Step>): seq<Result>
    requires Runs(s, steps)
    decreases |steps|
  {
    if steps == [] then []
    else
      (if steps[0].FetchEnds? then [Result(s.ws[steps[0].w].job, steps[0].o)] else []) +
      Fetches(Apply(s, steps[0]), steps[1..])
  }

  predicate IsDownload(w: Written) { w.outcome == Body && w.inserted }

  predicate IsMissing(w: Written) { w.outcome == NotFound }

  predicate IsError(w: Written) { w.outcome == Failure || (w.outcome == Body && !w.inserted) }

  /** How many of them are of a kind. */
  function Tally(ws: seq<Written>, kind: Written -> bool): nat {
    if ws == [] then 0 else (if kind(ws[0]) then 1 else 0) + Tally(ws[1..], kind)
  }

  function Downloads(): Written -> bool { (w: Written) => IsDownload(w) }

  function Missings(): Written -> bool { (w: Written) => IsMissing(w) }

  function Errors(): Written -> bool { (w: Written) => IsError(w) }

  lemma TallyNext(w: Written, ws: seq<Written>, kind: Written -> bool)
    ensures Tally([w] + ws, kind) == (if kind(w) then 1 else 0) + Tally(ws, kind)
  {
    assert ([w] + ws)[1..] == ws;
  }

  /** What one step does to the counters and to the archive. */
  lemma StepCounts(s: State, step: Step)
    requires Enabled(s, step)
    ensures var c, c' := s.c, Apply(s, step).c;
            if step.Write? then
              var w := Written(s.results[0].job, s.results[0].outcome, step.ok);
              && c'.done == c.done + 1 && c'.skipped == c.skipped
              && c'.downloaded == c.downloaded + (if IsDownload(w) then 1 else 0)
              && c'.notFound == c.notFound + (if IsMissing(w) then 1 else 0)
              && c'.errs == c.errs + (if IsError(w) then 1 else 0)
              && Apply(s, step).written == s.written + (if IsDownload(w) then {w.job} else {})
            else
              c' == c && Apply(s, step).written == s.written
  {
  }

  /**
   * Over every run of steps, cancelled or not: `downloaded` counts the bodies that were inserted,
   * `notFound` the 404 answers, `errs` the other failures and the failed inserts, `done` all of
   * them, and exactly the inserted tiles are in the archive.
   */
  lemma {:induction false} CountersTell(s: State, steps: seq<Step>)
    requires Runs(s, steps)
    ensures var c, c', ws := s.c, After(s, steps).c, Writes(s, steps);
            && c'.skipped == c.skipped && c'.done == c.done + |ws|
            && c'.downloaded == c.downloaded + Tally(ws, Downloads())
            && c'.notFound == c.notFound + Tally(ws, Missings())
            && c'.errs == c.errs + Tally(ws, Errors())
    ensures After(s, steps).written == s.written + set w | w in Writes(s, steps) && IsDownload(w) :: w.job
    decreases |steps|
  {
    if steps != [] {
      CountersTell(Apply(s, steps[0]), steps[1..]);
      OneStepMore(s, steps);
    }
  }

  lemma OneStepMore(s: State, steps: seq<Step>)
    requires Runs(s, steps) && steps != []
    requires var s1 := Apply(s, steps[0]);
             var c, c', ws := s1.c, After(s1, steps[1..]).c, Writes(s1, steps[1..]);
             && c'.skipped == c.skipped && c'.done == c.done + |ws|
             && c'.downloaded == c.downloaded + Tally(ws, Downloads())
             && c'.notFound == c.notFound + Tally(ws, Missings())
             && c'.errs == c.errs + Tally(ws, Errors())
             && After(s1, steps[1..]).written == s1.written + set w | w in ws && IsDownload(w) :: w.job
    ensures var c, c', ws := s.c, After(s, steps).c, Writes(s, steps);
            && c'.skipped == c.skipped && c'.done == c.done + |ws|
            && c'.downloaded == c.downloaded + Tally(ws, Downloads())
            && c'.notFound == c.notFound + Tally(ws, Missings())
            && c'.errs == c.errs + Tally(ws, Errors())
            && After(s, steps).written == s.written + set w | w in ws && IsDownload(w) :: w.job
  {
    StepCounts(s, steps[0]);
    var rest := Writes(Apply(s, steps[0]), steps[1..]);
    if steps[0].Write? {
      var w := Written(s.results[0].job, s.results[0].outcome, steps[0].ok);
      TallyNext(w, rest, Downloads());
      TallyNext(w, rest, Missings());
      TallyNext(w, rest, Errors());
    } else {
      assert [] + rest == rest;
    }
  }

  // ----- results are what the fetches gave ------------------------------------------------------

  /** Every result on its way stems from a fetch that ended so. */
  predicate Genuine(s: State, fetched: seq<Result>) {
    && (forall r :: r in s.results ==> r in fetched)
    && (forall w :: 0 <= w < |s.ws| && s.ws[w].Sending? ==> s.ws[w].r in fetched)
  }

  lemma StepStaysGenuine(s: State, step: Step, fetched: seq<Result>)
    requires Enabled(s, step) && Genuine(s, fetched)
    ensures Genuine(Apply(s, step), fetched + if step.FetchEnds? then [Result(s.ws[step.w].job, step.o)] else [])
  {
  }

  lemma {:induction false} WritesAreFetched(s: State, steps: seq<Step>, fetched: seq<Result>)
    requires Runs(s, steps) && Genuine(s, fetched)
    ensures forall w :: w in Writes(s, steps) ==> Result(w.job, w.outcome) in fetched + Fetches(s, steps)
    decreases |steps|
  {
    if steps != [] {
      var step := steps[0];
      var now := if step.FetchEnds? then [Result(s.ws[step.w].job, step.o)] else [];
      StepStaysGenuine(s, step, fetched);
      WritesAreFetched(Apply(s, step), steps[1..], fetched + now);
      var later := Fetches(Apply(s, step), steps[1..]);
      assert fetched + now + later == fetched + (now + later);
    }
  }

  /**
   * From the start of a level: each result the writer counts is that of a fetch of that very tile,
   * and the counters begin at zero but for the tiles that were there before.
   */
  lemma LevelTells(r: Rect, db: set<Row>, workers: nat, steps: seq<Step>)
    requires Runs(Start(workers, Missing(r, db), |ExistingKeys(r, db)|), steps)
    ensures var s := Start(workers, Missing(r, db), |ExistingKeys(r, db)|);
            var c, ws := After(s, steps).c, Writes(s, steps);
            && c.skipped == |ExistingKeys(r, db)| && c.done == c.skipped + |ws|
            && c.downloaded == Tally(ws, Downloads()) && c.notFound == Tally(ws, Missings())
            && c.errs == Tally(ws, Errors())
            && After(s, steps).written == (set w | w in ws && IsDownload(w) :: w.job)
            && forall w :: w in ws ==> Result(w.job, w.outcome) in Fetches(s, steps)
  {
    var s := Start(workers, Missing(r, db), |ExistingKeys(r, db)|);
    CountersTell(s, steps);
    WritesAreFetched(s, steps, []);
    assert [] + Fetches(s, steps) == Fetches(s, steps);
  }

  function Jobs(ws: seq<Written>): multiset<Tile> {
    if ws == [] then multiset{} else multiset{ws[0].job} + Jobs(ws[1..])
  }

  lemma {:induction false} ProcessedAreWritten(s: State, steps: seq<Step>)
    requires Runs(s, steps)
    ensures After(s, steps).processed == s.processed + Jobs(Writes(s, steps))
    decreases |steps|
  {
    if steps == [] {
      return;
    }
    StepProcesses(s, steps[0]);
    hide Apply, Enabled;
    var s1 := Apply(s, steps[0]);
    ProcessedAreWritten(s1, steps[1..]);
    var rest := Writes(s1, steps[1..]);
    if steps[0].Write? {
      JobsNext(Written(s.results[0].job, s.results[0].outcome, steps[0].ok), rest);
    } else {
      assert [] + rest == rest;
    }
  }

  lemma StepProcesses(s: State, step: Step)
    requires Enabled(s, step)
    ensures step.Write? ==> s.results != []
    ensures Apply(s, step).processed ==
            s.processed + if step.Write? then multiset{s.results[0].job} else multiset{}
  {
  }

  lemma JobsNext(w: Written, ws: seq<Written>)
    ensures Jobs([w] + ws) == multiset{w.job} + Jobs(ws)
  {
    assert ([w] + ws)[1..] == ws;
  }

  /** In an uncancelled level the writer meets each tile that was not stored exactly once, and no other. */
  lemma EachCountedOnce(r: Rect, db: set<Row>, workers: nat, steps: seq<Step>, t: Tile)
    requires RectOk(r) && workers > 0 && Runs(Start(workers, Missing(r, db), |ExistingKeys(r, db)|), steps)
    requires var s := After(Start(workers, Missing(r, db), |ExistingKeys(r, db)|), steps);
             s.phase == RETURNED && !s.cancelled
    ensures Jobs(Writes(Start(workers, Missing(r, db), |ExistingKeys(r, db)|), steps))[t] ==
            if InRect(r, t) && !Stored(r, db, t) then 1 else 0
  {
    LevelAccount(r, db, workers, steps);
    ProcessedAreWritten(Start(workers, Missing(r, db), |ExistingKeys(r, db)|), steps);
  }
}
