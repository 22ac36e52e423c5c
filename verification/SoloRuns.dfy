/** The job's method and the steps of the state machine agree: an undisturbed run is one call of the batch loop. */
module SoloRuns {
  import opened Parcels
  import opened Decimals
  import opened Pricing
  import opened DeliveryTable
  import opened DeliveryJob
  import opened DeliveryRuns

  /** Between two batches of run `r`. */
  predicate Idle(w: World, r: RunId) {
    Active(w, r) && w.runs[r].loaded.None?
  }

  predicate StepOf(step: Step, r: RunId) {
    (step.Fetch? && step.run == r) || (step.Commit? && step.run == r)
  }

  /** A legal trace of nothing but run `r`, up to its end. */
  ghost predicate WholeRun(cfg: Config, w: World, steps: seq<Step>, r: RunId) {
    && Legal(cfg, w, steps)
    && (forall i :: 0 <= i < |steps| ==> StepOf(steps[i], r))
    && !Active(After(cfg, w, steps), r)
  }

  /** How a run that added `updated` to the log ended: by a fetch of nothing, or by a refused commit. */
  function ResultOf(steps: seq<Step>, updated: int): JobResult
    requires updated >= 0
  {
    if steps != [] && steps[|steps| - 1].Fetch? then Returned(updated) else Raised(CommitRefused)
  }

  /** The rows `done` of the table `t` are priced, in whole batches unless nothing is left, and logged. */
  ghost predicate Midway(cfg: Config, t: Table, logged: nat, w: World, r: RunId, done: set<ParcelId>) {
    Idle(w, r) && BatchesDone(t, w.parcels, w.runs[r].rate, cfg.batch, done) && Updates(w.log) == logged + |done|
  }

  lemma OverMeansEmpty(cfg: Config, w: World, steps: seq<Step>, r: RunId)
    requires WholeRun(cfg, w, steps, r) && !Active(w, r)
    ensures steps == []
  {
    assert steps != [] ==> StepOf(steps[0], r);
  }

  lemma RestOfRun(cfg: Config, w: World, steps: seq<Step>, r: RunId)
    requires WholeRun(cfg, w, steps, r) && Active(w, r)
    ensures steps != [] && StepOf(steps[0], r) && Enabled(cfg, w, steps[0])
    ensures WholeRun(cfg, Do(cfg, w, steps[0]), steps[1..], r)
    ensures After(cfg, w, steps) == After(cfg, Do(cfg, w, steps[0]), steps[1..])
  {
    hide AllFit, Priced;
    assert steps != [];
    assert StepOf(steps[0], r);
  }

  /** The last fetch finds nothing: the run is complete. */
  lemma FinalFetch(cfg: Config, t: Table, logged: nat, w: World, r: RunId, done: set<ParcelId>)
    requires Midway(cfg, t, logged, w, r, done) && Enabled(cfg, w, Fetch(r, {}))
    ensures JobOutcome(t, w.parcels, w.runs[r].rate, cfg.batch, Returned(|done|))
  {
    hide StoredCost;
    hide BatchesDone, JobOutcome;
    RunComplete(t, w.parcels, w.runs[r].rate, cfg.batch, done);
  }

  /** A batch that fits. */
  lemma BatchCommitted(cfg: Config, t: Table, logged: nat, w: World, r: RunId, done: set<ParcelId>, rows: set<ParcelId>)
    requires Midway(cfg, t, logged, w, r, done) && Enabled(cfg, w, Fetch(r, rows)) && rows != {}
    requires AllFit(w.parcels, rows, w.runs[r].rate)
    ensures var w1 := Do(cfg, w, Fetch(r, rows));
            Enabled(cfg, w1, Commit(r)) && Midway(cfg, t, logged, Do(cfg, w1, Commit(r)), r, done + rows)
    ensures Do(cfg, Do(cfg, w, Fetch(r, rows)), Commit(r)).runs[r].rate == w.runs[r].rate
  {
    hide StoredCost;
    hide BatchesDone, Priced, AllFit, Updates, Unpriced;
    MoreDone(t, w.parcels, w.runs[r].rate, cfg.batch, done, rows);
    LastBatch(w.log, Batch(r, rows), 0);
  }

  /** A batch that does not. */
  lemma BatchRefused(cfg: Config, t: Table, logged: nat, w: World, r: RunId, done: set<ParcelId>, rows: set<ParcelId>)
    requires Midway(cfg, t, logged, w, r, done) && Enabled(cfg, w, Fetch(r, rows)) && rows != {}
    requires !AllFit(w.parcels, rows, w.runs[r].rate)
    ensures JobOutcome(t, w.parcels, w.runs[r].rate, cfg.batch, Raised(CommitRefused))
  {
    hide StoredCost, Priced, AllFit;
    StillUnfit(t, done, rows, w.runs[r].rate, cfg.batch);
  }

  lemma {:induction false} RestOutcome(cfg: Config, t: Table, logged: nat, w: World, steps: seq<Step>, r: RunId,
                                       done: set<ParcelId>)
    requires Midway(cfg, t, logged, w, r, done) && WholeRun(cfg, w, steps, r)
    ensures var w' := After(cfg, w, steps);
            && Updates(w'.log) >= logged
            && JobOutcome(t, w'.parcels, w.runs[r].rate, cfg.batch, ResultOf(steps, Updates(w'.log) - logged))
    decreases |steps|
  {
    hide JobOutcome, StoredCost, Priced, AllFit, Updates, After, WholeRun;
    RestOfRun(cfg, w, steps, r);
    var rows := steps[0].rows;
    var w1 := Do(cfg, w, steps[0]);
    if rows == {} {
      FinalFetch(cfg, t, logged, w, r, done);
      OverMeansEmpty(cfg, w1, steps[1..], r);
      NoSteps(cfg, w1);
    } else {
      RestOfRun(cfg, w1, steps[1..], r);
      var w2 := Do(cfg, w1, steps[1]);
      assert steps[1..][1..] == steps[2..];
      if AllFit(w.parcels, rows, w.runs[r].rate) {
        BatchCommitted(cfg, t, logged, w, r, done, rows);
        RestOutcome(cfg, t, logged, w2, steps[2..], r, done + rows);
        RestOfRun(cfg, w2, steps[2..], r);
      } else {
        BatchRefused(cfg, t, logged, w, r, done, rows);
        OverMeansEmpty(cfg, w2, steps[2..], r);
        NoSteps(cfg, w2);
      }
    }
  }

  lemma NoSteps(cfg: Config, w: World)
    ensures Legal(cfg, w, []) && After(cfg, w, []) == w
  {
  }

  /** Every undisturbed run, whatever rows its fetches pick, has the outcome proved of the batch loop. */
  lemma RunIsJob(cfg: Config, w: World, steps: seq<Step>, r: RunId)
    requires Idle(w, r) && WholeRun(cfg, w, steps, r)
    ensures var w' := After(cfg, w, steps);
            && Updates(w'.log) >= Updates(w.log)
            && JobOutcome(w.parcels, w'.parcels, w.runs[r].rate, cfg.batch, ResultOf(steps, Updates(w'.log) - Updates(w.log)))
  {
    hide JobOutcome, StoredCost, AllFit, Updates, After, WholeRun;
    NothingPriced(w.parcels, w.runs[r].rate);
    RestOutcome(cfg, w.parcels, Updates(w.log), w, steps, r, {});
  }

  // ---------------------------------------------------------------- runs end

  lemma {:induction false} SomeOf(s: set<ParcelId>, n: nat) returns (rows: set<ParcelId>)
    requires n <= |s|
    ensures rows <= s && |rows| == n
  {
    if n == 0 {
      rows := {};
    } else {
      var id :| id in s;
      rows := SomeOf(s - {id}, n - 1);
      rows := rows + {id};
    }
  }

  lemma FirstStep(cfg: Config, w: World, step: Step, rest: seq<Step>, r: RunId)
    requires Enabled(cfg, w, step) && StepOf(step, r) && WholeRun(cfg, Do(cfg, w, step), rest, r)
    ensures WholeRun(cfg, w, [step] + rest, r)
  {
    assert ([step] + rest)[1..] == rest;
  }

  /** An idle run can be played to its end. */
  lemma {:induction false} RunEnds(cfg: Config, w: World, r: RunId) returns (steps: seq<Step>)
    requires Idle(w, r)
    ensures WholeRun(cfg, w, steps, r)
    decreases |Unpriced(w.parcels)|
  {
    hide StoredCost, AllFit, WholeRun;
    var rows := SomeOf(Unpriced(w.parcels), Min(cfg.batch, |Unpriced(w.parcels)|));
    var w1 := Do(cfg, w, Fetch(r, rows));
    if rows == {} {
      steps := [];
      OverNow(cfg, w1, r);
    } else {
      var w2 := Do(cfg, w1, Commit(r));
      if AllFit(w.parcels, rows, w.runs[r].rate) {
        UnpricedAfter(w.parcels, rows, w.runs[r].rate);
        steps := RunEnds(cfg, w2, r);
      } else {
        steps := [];
        OverNow(cfg, w2, r);
      }
      FirstStep(cfg, w1, Commit(r), steps, r);
      steps := [Commit(r)] + steps;
    }
    FirstStep(cfg, w, Fetch(r, rows), steps, r);
    steps := [Fetch(r, rows)] + steps;
  }

  lemma OverNow(cfg: Config, w: World, r: RunId)
    requires !Active(w, r)
    ensures WholeRun(cfg, w, [], r)
  {
  }

  // ---------------------------------------------------------------- recovery

  /**
   * A run can crash anywhere.  Once its lock has expired a fresh run at a safe rate can start, and
   * every way it can go undisturbed prices all that was still pending.
   */
  lemma Recovery(cfg: Config, w: World, r: RunId, next: RunId, rate: Decimal, to: Time) returns (w3: World)
    requires Active(w, r) && next !in w.runs && cfg.batch >= 1
    requires w.now <= to && !LockHeld(w.lockUntil, to)
    requires (forall id :: id in w.parcels ==> FitsColumns(w.parcels[id])) && LARGEST_BASE * Value(rate) < REFUSED
    ensures Enabled(cfg, w, Crash(r)) && Enabled(cfg, Do(cfg, w, Crash(r)), Tick(to))
    ensures var w2 := Do(cfg, Do(cfg, w, Crash(r)), Tick(to));
            Enabled(cfg, w2, Acquire(next, rate)) && w3 == Do(cfg, w2, Acquire(next, rate))
    ensures w3.parcels == w.parcels && !Active(w3, r) && Idle(w3, next)
    ensures exists steps :: WholeRun(cfg, w3, steps, next)
    ensures forall steps :: WholeRun(cfg, w3, steps, next) ==>
              && After(cfg, w3, steps).parcels == PriceAll(w.parcels, rate)
              && Unpriced(After(cfg, w3, steps).parcels) == {}
              && Updates(After(cfg, w3, steps).log) == Updates(w.log) + |Unpriced(w.parcels)|
  {
    hide StoredCost, Value, JobOutcome, After, Legal;
    w3 := Do(cfg, Do(cfg, Do(cfg, w, Crash(r)), Tick(to)), Acquire(next, rate));
    var some := RunEnds(cfg, w3, next);
    SafeRateCompletes(w.parcels, rate);
    forall steps | WholeRun(cfg, w3, steps, next)
      ensures After(cfg, w3, steps).parcels == PriceAll(w.parcels, rate)
      ensures Updates(After(cfg, w3, steps).log) == Updates(w.log) + |Unpriced(w.parcels)|
    {
      RunIsJob(cfg, w3, steps, next);
    }
  }
}
