/** Overlapping job runs told from their steps alone: which step each row, price, rate and end of a run comes from. */
module DeliveryTraces {
  import opened Wrappers
  import opened Parcels
  import opened Decimals
  import opened Pricing
  import opened DeliveryTable
  import opened DeliveryJob
  import opened DeliveryRuns

  /** The clock after a trace. */
  function LastTick(now: Time, steps: seq<Step>): Time
    decreases |steps|
  {
    if steps == [] then now else LastTick(if steps[0].Tick? then steps[0].to else now, steps[1..])
  }

  /** A run has the rate it had, or the one an acquisition of the trace fetched. */
  ghost predicate RateFrom(w: World, w': World, steps: seq<Step>, r: RunId) {
    && r in w'.runs
    && (if r in w.runs then w'.runs[r].rate == w.runs[r].rate && w'.runs[r].startedAt == w.runs[r].startedAt
        else Acquire(r, w'.runs[r].rate) in steps)
  }

  /** A row arrived as it was first, or as a step of the trace brought it. */
  ghost predicate OriginFrom(w: World, w': World, steps: seq<Step>, id: ParcelId) {
    && id in w'.origin
    && (if id in w.origin then w'.origin[id] == w.origin[id] else Arrive(id, w'.origin[id]) in steps)
  }

  lemma {:induction false} TraceState(cfg: Config, w: World, steps: seq<Step>)
    requires Inv(w) && Legal(cfg, w, steps)
    ensures var w' := After(cfg, w, steps);
            && w'.now == LastTick(w.now, steps)
            && (forall r :: r in w'.runs ==> RateFrom(w, w', steps, r))
            && (forall id :: id in w'.origin ==> OriginFrom(w, w', steps, id))
            && (forall r :: r in w.runs ==> r in w'.runs)
            && (forall id :: id in w.origin ==> id in w'.origin)
            && (forall id, p :: Arrive(id, p) in steps ==> id in w'.origin && w'.origin[id] == p)
    decreases |steps|
  {
    if steps != [] {
      hide Explained, AllFit, Priced, Unpriced;
      var step, rest := steps[0], steps[1..];
      var w1 := Do(cfg, w, step);
      assert steps == [step] + rest;
      StepKeepsInv(cfg, w, step);
      TraceState(cfg, w1, rest);
      StepState(cfg, w, step);
      var w' := After(cfg, w, steps);
      hide Do, Enabled, Inv;
      forall r | r in w'.runs
        ensures RateFrom(w, w', steps, r)
      {
        assert RateFrom(w1, w', rest, r);
        assert r in w1.runs ==> RateFrom(w, w1, [step], r);
      }
      forall id | id in w'.origin
        ensures OriginFrom(w, w', steps, id)
      {
        assert OriginFrom(w1, w', rest, id);
        assert id in w1.origin ==> OriginFrom(w, w1, [step], id);
      }
      forall id, p | Arrive(id, p) in steps
        ensures id in w'.origin && w'.origin[id] == p
      {
        assert id in w1.origin ==> OriginFrom(w1, w', rest, id);
      }
    }
  }

  lemma StepState(cfg: Config, w: World, step: Step)
    requires Inv(w) && Enabled(cfg, w, step)
    ensures var w' := Do(cfg, w, step);
            && w'.now == (if step.Tick? then step.to else w.now)
            && (forall r :: r in w'.runs ==> RateFrom(w, w', [step], r))
            && (forall id :: id in w'.origin ==> OriginFrom(w, w', [step], id))
            && (forall r :: r in w.runs ==> r in w'.runs)
            && (forall id :: id in w.origin ==> id in w'.origin)
            && (step.Arrive? ==> step.id in w'.origin && w'.origin[step.id] == step.parcel)
            && (step.Acquire? ==> step.run in w'.runs && w'.runs[step.run] == Run(step.rate, w.now, true, None))
  {
    hide Explained, AllFit, Priced, Unpriced;
  }

  /** The row came with the table or with a step, and holds what it came with, or its formula price at a rate some run fetched. */
  ghost predicate Accounted(parcels: Table, steps: seq<Step>, id: ParcelId, first: Parcel, p: Parcel) {
    && (if id in parcels then first == parcels[id] else Arrive(id, first) in steps)
    && (p == first || (first.cost.None? && exists r, rate :: Acquire(r, rate) in steps && PricedAt(first, rate, p)))
  }

  predicate PricedAt(first: Parcel, rate: Decimal, p: Parcel) {
    var cost := StoreHundredths(Formula(Decimal(first.weight, -3), Decimal(first.declared, -2), rate));
    p == Parcel(first.name, first.weight, first.declared, first.typeId, first.sessionId, first.userId, Some(cost))
  }

  /** After every interleaving every row is accounted for by the steps, and every arrived parcel is there. */
  lemma EveryRowAccounted(cfg: Config, now: Time, parcels: Table, steps: seq<Step>)
    requires Legal(cfg, Start(now, parcels), steps)
    ensures var w := After(cfg, Start(now, parcels), steps);
            && (forall id :: id in w.parcels <==> id in parcels || exists p :: Arrive(id, p) in steps)
            && (forall id :: id in w.parcels ==> id in w.origin && Accounted(parcels, steps, id, w.origin[id], w.parcels[id]))
            && w.now == LastTick(now, steps)
  {
    hide Formula, StoreHundredths, Enabled, Do;
    var w0 := Start(now, parcels);
    var w := After(cfg, w0, steps);
    StartInv(now, parcels);
    RunsKeepInv(cfg, w0, steps);
    TraceState(cfg, w0, steps);
    forall id | id in w.parcels
      ensures id in w.origin && Accounted(parcels, steps, id, w.origin[id], w.parcels[id])
      ensures id in parcels || exists p :: Arrive(id, p) in steps
    {
      assert OriginFrom(w0, w, steps, id) && Explained(w, id);
      if w.parcels[id] != w.origin[id] {
        var r :| PricedBy(w, id, r);
        assert RateFrom(w0, w, steps, r);
        assert Acquire(r, w.runs[r].rate) in steps;
      }
    }
  }

  // ---------------------------------------------------------------- how runs end

  /** A batch is refused when a price in it does not fit. */
  ghost predicate Refused(w: World, r: RunId)
    requires r in w.runs && w.runs[r].loaded.Some?
  {
    exists id :: id in w.runs[r].loaded.value && id in w.parcels && StoredCost(w.parcels[id], w.runs[r].rate) >= 1000000000000
  }

  /** A run ends by crashing, by fetching nothing or by a refused batch, and in no other way; its end writes no row. */
  lemma EndsExactly(cfg: Config, w: World, step: Step, r: RunId)
    requires Active(w, r) && Enabled(cfg, w, step)
    ensures var w' := Do(cfg, w, step);
            && (!Active(w', r) <==>
                  step == Crash(r) || step == Fetch(r, {}) || (step == Commit(r) && w.runs[r].loaded.Some? && Refused(w, r)))
            && (!Active(w', r) ==> w'.parcels == w.parcels && w'.log == w.log && w'.lockUntil == w.lockUntil)
  {
    hide StoredCost;
    if step == Commit(r) && !AllFit(w.parcels, w.runs[r].loaded.value, w.runs[r].rate) {
      var id :| id in w.runs[r].loaded.value && id in w.parcels && !PriceFits(w.parcels[id], w.runs[r].rate);
      assert StoredCost(w.parcels[id], w.runs[r].rate) >= 1000000000000;
    }
  }

  /** A run that has ended stays so and commits nothing more. */
  lemma {:induction false} OverForGood(cfg: Config, w: World, steps: seq<Step>, r: RunId)
    requires Legal(cfg, w, steps) && r in w.runs && !Active(w, r)
    ensures var w' := After(cfg, w, steps);
            && r in w'.runs && !Active(w', r) && |w.log| <= |w'.log| && w'.log[..|w.log|] == w.log
            && forall i :: |w.log| <= i < |w'.log| ==> w'.log[i].run != r
    decreases |steps|
  {
    hide AllFit, Priced, Unpriced;
    if steps != [] {
      var w1 := Do(cfg, w, steps[0]);
      assert |w1.log| == |w.log| || (|w1.log| == |w.log| + 1 && w1.log[|w.log|].run != r);
      assert w1.log[..|w.log|] == w.log;
      assert r in w1.runs && !Active(w1, r);
      hide Do, Enabled, Active;
      OverForGood(cfg, w1, steps[1..], r);
      var w' := After(cfg, w, steps);
      assert w'.log[..|w.log|] == w'.log[..|w1.log|][..|w.log|];
      assert |w1.log| > |w.log| ==> w'.log[|w.log|] == w'.log[..|w1.log|][|w.log|];
    }
  }
}
