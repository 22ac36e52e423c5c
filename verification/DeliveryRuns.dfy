/**
 * Job runs that overlap, crash and resume.  A world step is one database transaction or one
 * Redis command of some run, the arrival of a parcel, or the passing of time; a run holds the
 * rate it fetched and the batch it has loaded but not yet committed.
 */
module DeliveryRuns {
  import opened Wrappers
  import opened Parcels
  import opened Decimals
  import opened Pricing
  import opened DeliveryTable
  import opened DeliveryJob

  type RunId = nat

  datatype Config = Config(ttl: nat, batch: nat)

  datatype Run = Run(rate: Decimal, startedAt: Time, active: bool, loaded: Option<set<ParcelId>>)

  /** A committed batch. */
  datatype Batch = Batch(run: RunId, rows: set<ParcelId>)

  /** `origin` is the table as it was first found plus the parcels that arrived since; `log` the committed batches. */
  datatype World = World(
    now: Time,
    lockUntil: Option<Time>,
    parcels: Table,
    runs: map<RunId, Run>,
    origin: Table,
    log: seq<Batch>)

  datatype Step =
    | Tick(to: Time)
    | Arrive(id: ParcelId, parcel: Parcel)
    | Acquire(run: RunId, rate: Decimal)
    | DropLock
    | Fetch(run: RunId, rows: set<ParcelId>)
    | Commit(run: RunId)
    | Crash(run: RunId)

  predicate Active(w: World, r: RunId) {
    r in w.runs && w.runs[r].active
  }

  predicate Enabled(cfg: Config, w: World, step: Step) {
    match step
    case Tick(to) => w.now <= to
    case Arrive(id, parcel) => id !in w.parcels && parcel.cost.None?
    case Acquire(run, rate) => run !in w.runs && !LockHeld(w.lockUntil, w.now)
    case DropLock => true
    case Fetch(run, rows) =>
      && Active(w, run) && w.runs[run].loaded.None?
      && rows <= Unpriced(w.parcels) && |rows| == Min(cfg.batch, |Unpriced(w.parcels)|)
    case Commit(run) => Active(w, run) && w.runs[run].loaded.Some?
    case Crash(run) => Active(w, run)
  }

  /** A run that fetches nothing is finished; one whose commit is refused dies with it. */
  function Do(cfg: Config, w: World, step: Step): World
    requires Enabled(cfg, w, step)
  {
    match step
    case Tick(to) => w.(now := to)
    case Arrive(id, parcel) => w.(parcels := w.parcels[id := parcel], origin := w.origin[id := parcel])
    case Acquire(run, rate) =>
      w.(lockUntil := Some(w.now + cfg.ttl), runs := w.runs[run := Run(rate, w.now, true, None)])
    case DropLock => w.(lockUntil := None)
    case Fetch(run, rows) =>
      w.(runs := w.runs[run := if rows == {} then w.runs[run].(active := false) else w.runs[run].(loaded := Some(rows))])
    case Commit(run) =>
      var rows, rate := w.runs[run].loaded.value, w.runs[run].rate;
      if AllFit(w.parcels, rows, rate) then
        w.(parcels := Priced(w.parcels, rows, rate),
           runs := w.runs[run := w.runs[run].(loaded := None)],
           log := w.log + [Batch(run, rows)])
      else
        w.(runs := w.runs[run := w.runs[run].(active := false, loaded := None)])
    case Crash(run) => w.(runs := w.runs[run := w.runs[run].(active := false, loaded := None)])
  }

  predicate Legal(cfg: Config, w: World, steps: seq<Step>)
    decreases |steps|
  {
    steps != [] ==> Enabled(cfg, w, steps[0]) && Legal(cfg, Do(cfg, w, steps[0]), steps[1..])
  }

  function After(cfg: Config, w: World, steps: seq<Step>): World
    requires Legal(cfg, w, steps)
    decreases |steps|
  {
    if steps == [] then w else After(cfg, Do(cfg, w, steps[0]), steps[1..])
  }

  /** A table before any run. */
  function Start(now: Time, parcels: Table): World {
    World(now, None, parcels, map[], parcels, [])
  }

  // ---------------------------------------------------------------- every interleaving

  /** A row is as it arrived, or it was pending and now has the price of run `r`. */
  ghost predicate PricedBy(w: World, id: ParcelId, r: RunId)
    requires id in w.parcels && id in w.origin
  {
    r in w.runs && w.origin[id].cost.None? && w.parcels[id] == PricedRow(w.origin[id], w.runs[r].rate)
  }

  ghost predicate Explained(w: World, id: ParcelId)
    requires id in w.parcels && id in w.origin
  {
    w.parcels[id] == w.origin[id] || exists r :: PricedBy(w, id, r)
  }

  /** What every step of every interleaving keeps. */
  ghost predicate Inv(w: World) {
    && w.parcels.Keys == w.origin.Keys
    && (forall id :: id in w.parcels ==> Explained(w, id))
    && (forall r :: r in w.runs && w.runs[r].loaded.Some? ==>
          w.runs[r].active && w.runs[r].loaded.value <= Unpriced(w.origin))
  }

  lemma StartInv(now: Time, parcels: Table)
    ensures Inv(Start(now, parcels))
  {
  }

  lemma UnpricedInOrigin(w: World)
    requires Inv(w)
    ensures Unpriced(w.parcels) <= Unpriced(w.origin)
  {
    hide StoredCost;
    forall id | id in Unpriced(w.parcels)
      ensures id in Unpriced(w.origin)
    {
      assert Explained(w, id);
    }
  }

  /** The price does not depend on an earlier price. */
  lemma Repriced(p: Parcel, cost: Option<nat>, rate: Decimal)
    ensures PricedRow(p.(cost := cost), rate) == PricedRow(p, rate)
  {
  }

  lemma CommitExplained(w: World, r: RunId, id: ParcelId, parcels': Table)
    requires Inv(w) && r in w.runs && id in w.parcels && w.runs[r].loaded.Some?
    requires parcels' == Priced(w.parcels, w.runs[r].loaded.value, w.runs[r].rate)
    ensures parcels'[id] == w.parcels[id] || PricedBy(w.(parcels := parcels'), id, r)
  {
    hide StoredCost;
    assert Explained(w, id);
    if id in w.runs[r].loaded.value {
      assert id in Unpriced(w.origin);
      Repriced(w.origin[id], w.parcels[id].cost, w.runs[r].rate);
      assert PricedBy(w.(parcels := parcels'), id, r);
    }
  }

  lemma StillExplained(w: World, w': World, id: ParcelId)
    requires id in w.parcels && id in w.origin && Explained(w, id)
    requires id in w'.parcels && id in w'.origin && w'.origin[id] == w.origin[id] && w'.parcels[id] == w.parcels[id]
    requires forall r :: r in w.runs ==> r in w'.runs && w'.runs[r].rate == w.runs[r].rate
    ensures Explained(w', id)
  {
    hide StoredCost;
    if w.parcels[id] != w.origin[id] {
      var r :| PricedBy(w, id, r);
      assert PricedBy(w', id, r);
    }
  }

  lemma StepExplained(cfg: Config, w: World, step: Step, id: ParcelId)
    requires Inv(w) && Enabled(cfg, w, step) && id in Do(cfg, w, step).parcels
    ensures id in Do(cfg, w, step).origin && Explained(Do(cfg, w, step), id)
  {
    hide StoredCost, AllFit;
    var w' := Do(cfg, w, step);
    if step.Arrive? && step.id == id {
    } else {
      assert Explained(w, id);
      if step.Commit? && w'.parcels[id] != w.parcels[id] {
        CommitExplained(w, step.run, id, w'.parcels);
        assert PricedBy(w', id, step.run);
      } else {
        StillExplained(w, w', id);
      }
    }
  }

  lemma StepKeepsInv(cfg: Config, w: World, step: Step)
    requires Inv(w) && Enabled(cfg, w, step)
    ensures Inv(Do(cfg, w, step))
  {
    hide StoredCost, AllFit, Explained;
    var w' := Do(cfg, w, step);
    UnpricedInOrigin(w);
    assert Unpriced(w.origin) <= Unpriced(w'.origin);
    forall id | id in w'.parcels
      ensures Explained(w', id)
    {
      StepExplained(cfg, w, step, id);
    }
  }

  lemma {:induction false} RunsKeepInv(cfg: Config, w: World, steps: seq<Step>)
    requires Inv(w) && Legal(cfg, w, steps)
    ensures Inv(After(cfg, w, steps))
    decreases |steps|
  {
    hide Inv;
    if steps != [] {
      StepKeepsInv(cfg, w, steps[0]);
      RunsKeepInv(cfg, Do(cfg, w, steps[0]), steps[1..]);
    }
  }

  /** Rows are never lost, and a priced row never becomes pending again. */
  ghost predicate Progress(t: Table, t': Table) {
    forall id :: id in t ==>
      id in t' && t'[id].(cost := t[id].cost) == t[id] && (t[id].cost.Some? ==> t'[id].cost.Some?)
  }

  lemma {:induction false} PricedForever(cfg: Config, w: World, steps: seq<Step>)
    requires Legal(cfg, w, steps)
    ensures Progress(w.parcels, After(cfg, w, steps).parcels)
    decreases |steps|
  {
    hide StoredCost, AllFit;
    if steps != [] {
      var w' := Do(cfg, w, steps[0]);
      assert Progress(w.parcels, w'.parcels);
      PricedForever(cfg, w', steps[1..]);
      TransitiveProgress(w.parcels, w'.parcels, After(cfg, w, steps).parcels);
    }
  }

  lemma TransitiveProgress(a: Table, b: Table, c: Table)
    requires Progress(a, b) && Progress(b, c)
    ensures Progress(a, c)
  {
  }

  /** Overlapping runs at one rate end in the table of a single run. */
  lemma SameRate(w: World, rate: Decimal)
    requires Inv(w) && forall r :: r in w.runs ==> w.runs[r].rate == rate
    ensures w.parcels == Priced(w.origin, Unpriced(w.origin) - Unpriced(w.parcels), rate)
    ensures Unpriced(w.parcels) == {} ==> w.parcels == PriceAll(w.origin, rate)
  {
    hide StoredCost;
    forall id | id in w.parcels
      ensures w.parcels[id] == Priced(w.origin, Unpriced(w.origin) - Unpriced(w.parcels), rate)[id]
    {
      assert Explained(w, id);
      if w.parcels[id] != w.origin[id] {
        var r :| PricedBy(w, id, r);
      }
    }
    if Unpriced(w.parcels) == {} {
      assert Unpriced(w.origin) - Unpriced(w.parcels) == Unpriced(w.origin);
    }
  }

  /** From any table, any interleaving: the costs that changed are formula prices at rates of runs that started. */
  lemma AnyInterleaving(cfg: Config, now: Time, parcels: Table, steps: seq<Step>)
    requires Legal(cfg, Start(now, parcels), steps)
    ensures var w := After(cfg, Start(now, parcels), steps);
            && Progress(parcels, w.parcels)
            && (forall id :: id in w.parcels ==> id in w.origin && Explained(w, id))
            && (forall rate :: (forall r :: r in w.runs ==> w.runs[r].rate == rate) && Unpriced(w.parcels) == {}
                               ==> w.parcels == PriceAll(w.origin, rate))
  {
    hide StoredCost, Explained;
    var w0 := Start(now, parcels);
    StartInv(now, parcels);
    RunsKeepInv(cfg, w0, steps);
    PricedForever(cfg, w0, steps);
    var w := After(cfg, w0, steps);
    forall rate | (forall r :: r in w.runs ==> w.runs[r].rate == rate) && Unpriced(w.parcels) == {}
      ensures w.parcels == PriceAll(w.origin, rate)
    {
      SameRate(w, rate);
    }
  }

  // ---------------------------------------------------------------- one run at a time

  function Hits(log: seq<Batch>, id: ParcelId): nat {
    if log == [] then 0 else Hits(log[..|log| - 1], id) + if id in log[|log| - 1].rows then 1 else 0
  }

  /** Updates reported by the committed batches. */
  function Updates(log: seq<Batch>): nat {
    if log == [] then 0 else Updates(log[..|log| - 1]) + |log[|log| - 1].rows|
  }

  ghost predicate Solo(w: World) {
    forall r, s :: Active(w, r) && Active(w, s) ==> r == s
  }

  /** No two runs are active together at any point of the trace. */
  ghost predicate SoloTrace(cfg: Config, w: World, steps: seq<Step>)
    requires Legal(cfg, w, steps)
    decreases |steps|
  {
    Solo(w) && (steps != [] ==> SoloTrace(cfg, Do(cfg, w, steps[0]), steps[1..]))
  }

  ghost predicate LoggedAt(w: World, id: ParcelId, i: nat)
    requires i < |w.log|
  {
    id in w.log[i].rows
  }

  /** The bookkeeping of non-overlapping runs: each row is written by the batch that priced it and by no other. */
  ghost predicate Ledger(w: World) {
    && (forall r :: r in w.runs && w.runs[r].loaded.Some? ==> w.runs[r].loaded.value <= Unpriced(w.parcels))
    && (forall id :: id in Unpriced(w.parcels) || id !in Unpriced(w.origin) ==> Hits(w.log, id) == 0)
    && (forall id :: id in Unpriced(w.origin) - Unpriced(w.parcels) ==> Hits(w.log, id) == 1)
    && (forall i: nat, id :: i < |w.log| && LoggedAt(w, id, i) ==>
          id in w.parcels && id in w.origin && PricedBy(w, id, w.log[i].run))
    && Updates(w.log) + |Unpriced(w.parcels)| == |Unpriced(w.origin)|
  }

  lemma LastBatch(log: seq<Batch>, b: Batch, id: ParcelId)
    ensures Hits(log + [b], id) == Hits(log, id) + (if id in b.rows then 1 else 0)
    ensures Updates(log + [b]) == Updates(log) + |b.rows|
  {
    assert (log + [b])[..|log|] == log;
  }

  lemma CommitUpdates(w: World, w': World, b: Batch)
    requires Updates(w.log) + |Unpriced(w.parcels)| == |Unpriced(w.origin)|
    requires w'.log == w.log + [b] && w'.origin == w.origin
    requires b.rows <= Unpriced(w.parcels) && Unpriced(w'.parcels) == Unpriced(w.parcels) - b.rows
    ensures Updates(w'.log) + |Unpriced(w'.parcels)| == |Unpriced(w'.origin)|
  {
    LastBatch(w.log, b, 0);
  }

  lemma CommitHits(w: World, w': World, b: Batch, id: ParcelId)
    requires Unpriced(w.parcels) <= Unpriced(w.origin)
    requires id in Unpriced(w.parcels) || id !in Unpriced(w.origin) ==> Hits(w.log, id) == 0
    requires id in Unpriced(w.origin) - Unpriced(w.parcels) ==> Hits(w.log, id) == 1
    requires w'.log == w.log + [b] && w'.origin == w.origin
    requires b.rows <= Unpriced(w.parcels) && Unpriced(w'.parcels) == Unpriced(w.parcels) - b.rows
    ensures id in Unpriced(w'.parcels) || id !in Unpriced(w'.origin) ==> Hits(w'.log, id) == 0
    ensures id in Unpriced(w'.origin) - Unpriced(w'.parcels) ==> Hits(w'.log, id) == 1
  {
    LastBatch(w.log, b, id);
  }

  /** A row of an earlier batch is not pending, so a later batch leaves it alone. */
  lemma CommitProvenance(w: World, w': World, r: RunId, i: nat, id: ParcelId)
    requires Inv(w) && Ledger(w) && Active(w, r) && w.runs[r].loaded.Some?
    requires w'.parcels == Priced(w.parcels, w.runs[r].loaded.value, w.runs[r].rate)
    requires w'.origin == w.origin && w'.log == w.log + [Batch(r, w.runs[r].loaded.value)]
    requires forall s :: s in w.runs ==> s in w'.runs && w'.runs[s].rate == w.runs[s].rate
    requires i < |w'.log| && LoggedAt(w', id, i)
    ensures id in w'.parcels && id in w'.origin && PricedBy(w', id, w'.log[i].run)
  {
    hide StoredCost;
    if i < |w.log| {
      assert LoggedAt(w, id, i);
      assert id !in Unpriced(w.parcels);
      assert w'.parcels[id] == w.parcels[id];
    } else {
      assert Explained(w, id);
    }
  }

  lemma PricedKeys(t: Table, rows: set<ParcelId>, rate: Decimal)
    ensures Priced(t, rows, rate).Keys == t.Keys
  {
    hide StoredCost;
  }

  lemma CommitKeepsLedger(cfg: Config, w: World, r: RunId)
    requires Inv(w) && Ledger(w) && Solo(w) && Enabled(cfg, w, Commit(r))
    requires AllFit(w.parcels, w.runs[r].loaded.value, w.runs[r].rate)
    ensures Ledger(Do(cfg, w, Commit(r)))
  {
    hide StoredCost, AllFit, Explained, PricedBy;
    var w' := Do(cfg, w, Commit(r));
    var b := Batch(r, w.runs[r].loaded.value);
    UnpricedInOrigin(w);
    UnpricedAfter(w.parcels, b.rows, w.runs[r].rate);
    hide Priced, Unpriced, Hits, Updates, LoggedAt, Inv;
    CommitUpdates(w, w', b);
    assert w'.parcels.Keys == w.parcels.Keys by { PricedKeys(w.parcels, b.rows, w.runs[r].rate); }
    forall id
      ensures id in Unpriced(w'.parcels) || id !in Unpriced(w'.origin) ==> Hits(w'.log, id) == 0
      ensures id in Unpriced(w'.origin) - Unpriced(w'.parcels) ==> Hits(w'.log, id) == 1
    {
      CommitHits(w, w', b, id);
    }
    forall i: nat, id | i < |w'.log| && LoggedAt(w', id, i)
      ensures id in w'.parcels && id in w'.origin && PricedBy(w', id, w'.log[i].run)
    {
      CommitProvenance(w, w', r, i, id);
    }
    forall s | s in w'.runs
      ensures w'.runs[s].loaded.None?
    {
      assert Active(w, r);
      assert s != r ==> !Active(w, s);
    }
  }

  lemma ArrivedPending(t: Table, id: ParcelId, parcel: Parcel)
    requires id !in t && parcel.cost.None?
    ensures Unpriced(t[id := parcel]) == Unpriced(t) + {id} && id !in Unpriced(t)
    ensures |Unpriced(t[id := parcel])| == |Unpriced(t)| + 1
  {
    assert Unpriced(t[id := parcel]) == Unpriced(t) + {id};
  }

  lemma ArriveKeepsLedger(cfg: Config, w: World, id: ParcelId, parcel: Parcel)
    requires Inv(w) && Ledger(w) && Enabled(cfg, w, Arrive(id, parcel))
    ensures Ledger(Do(cfg, w, Arrive(id, parcel)))
  {
    hide StoredCost, Explained, Unpriced;
    var w' := Do(cfg, w, Arrive(id, parcel));
    ArrivedPending(w.parcels, id, parcel);
    ArrivedPending(w.origin, id, parcel);
    forall i: nat, j | i < |w'.log| && LoggedAt(w', j, i)
      ensures j in w'.parcels && j in w'.origin && PricedBy(w', j, w'.log[i].run)
    {
      assert LoggedAt(w, j, i);
    }
  }

  lemma StepKeepsLedger(cfg: Config, w: World, step: Step)
    requires Inv(w) && Ledger(w) && Solo(w) && Enabled(cfg, w, step)
    ensures Ledger(Do(cfg, w, step))
  {
    hide StoredCost, AllFit, Explained;
    if step.Arrive? {
      ArriveKeepsLedger(cfg, w, step.id, step.parcel);
    } else if step.Commit? && AllFit(w.parcels, w.runs[step.run].loaded.value, w.runs[step.run].rate) {
      CommitKeepsLedger(cfg, w, step.run);
    } else {
      var w' := Do(cfg, w, step);
      forall i: nat, id | i < |w'.log| && LoggedAt(w', id, i)
        ensures id in w'.parcels && id in w'.origin && PricedBy(w', id, w'.log[i].run)
      {
        assert LoggedAt(w, id, i);
      }
    }
  }

  lemma {:induction false} SoloKeepsLedger(cfg: Config, w: World, steps: seq<Step>)
    requires Inv(w) && Ledger(w) && Legal(cfg, w, steps) && SoloTrace(cfg, w, steps)
    ensures Inv(After(cfg, w, steps)) && Ledger(After(cfg, w, steps))
    decreases |steps|
  {
    hide Inv, Ledger, Enabled, Do;
    if steps != [] {
      StepKeepsInv(cfg, w, steps[0]);
      StepKeepsLedger(cfg, w, steps[0]);
      SoloKeepsLedger(cfg, Do(cfg, w, steps[0]), steps[1..]);
    }
  }

  /** Parcels that arrived during a trace. */
  function Arrivals(steps: seq<Step>): nat {
    if steps == [] then 0 else (if steps[0].Arrive? then 1 else 0) + Arrivals(steps[1..])
  }

  lemma OriginStep(cfg: Config, w: World, step: Step)
    requires Inv(w) && Enabled(cfg, w, step)
    ensures |Unpriced(Do(cfg, w, step).origin)| == |Unpriced(w.origin)| + if step.Arrive? then 1 else 0
  {
    hide Unpriced, AllFit, Explained;
    if step.Arrive? {
      ArrivedPending(w.origin, step.id, step.parcel);
    }
  }

  lemma {:induction false} OriginGrows(cfg: Config, w: World, steps: seq<Step>)
    requires Inv(w) && Legal(cfg, w, steps)
    ensures |Unpriced(After(cfg, w, steps).origin)| == |Unpriced(w.origin)| + Arrivals(steps)
    decreases |steps|
  {
    hide Inv, Do, Enabled, Unpriced;
    if steps != [] {
      StepKeepsInv(cfg, w, steps[0]);
      OriginStep(cfg, w, steps[0]);
      OriginGrows(cfg, Do(cfg, w, steps[0]), steps[1..]);
    }
  }

  /**
   * Runs that do not overlap, cut off anywhere, with parcels arriving in between: committed
   * updates plus pending rows is what there was to price, and every row that left the
   * pending state did so in exactly one batch, at the rate of that batch's run.
   */
  lemma CrashAndResume(cfg: Config, now: Time, parcels: Table, steps: seq<Step>)
    requires Legal(cfg, Start(now, parcels), steps) && SoloTrace(cfg, Start(now, parcels), steps)
    ensures var w := After(cfg, Start(now, parcels), steps);
            && Updates(w.log) + |Unpriced(w.parcels)| == |Unpriced(parcels)| + Arrivals(steps)
            && (forall id :: id in w.origin ==>
                  Hits(w.log, id) == if id in Unpriced(w.origin) && id !in Unpriced(w.parcels) then 1 else 0)
            && (forall i: nat, id :: i < |w.log| && LoggedAt(w, id, i) ==>
                  id in w.parcels && id in w.origin && PricedBy(w, id, w.log[i].run))
  {
    hide Inv, StoredCost, Do, Enabled, PricedBy;
    var w0 := Start(now, parcels);
    StartInv(now, parcels);
    SoloKeepsLedger(cfg, w0, steps);
    OriginGrows(cfg, w0, steps);
    UnpricedInOrigin(After(cfg, w0, steps));
  }

  /** When the trace is followed by a run that finds nothing left, every row was priced exactly once. */
  lemma CompleteRun(cfg: Config, now: Time, parcels: Table, steps: seq<Step>, r: RunId)
    requires Legal(cfg, Start(now, parcels), steps) && SoloTrace(cfg, Start(now, parcels), steps)
    requires cfg.batch >= 1 && Enabled(cfg, After(cfg, Start(now, parcels), steps), Fetch(r, {}))
    ensures var w := After(cfg, Start(now, parcels), steps);
            && Unpriced(w.parcels) == {}
            && Updates(w.log) == |Unpriced(parcels)| + Arrivals(steps)
            && (forall id :: id in w.origin ==> Hits(w.log, id) == if id in Unpriced(w.origin) then 1 else 0)
  {
    CrashAndResume(cfg, now, parcels, steps);
    hide Do, StoredCost;
    assert |Unpriced(After(cfg, Start(now, parcels), steps).parcels)| == 0;
  }

  // ---------------------------------------------------------------- the lock

  predicate NoDrop(steps: seq<Step>) {
    forall i :: 0 <= i < |steps| ==> !steps[i].DropLock?
  }

  /** Every active run is younger than the lock's time to live. */
  ghost predicate Prompt(cfg: Config, w: World) {
    forall r :: Active(w, r) ==> w.now < w.runs[r].startedAt + cfg.ttl
  }

  /** Every run is over before its lock expires, all along the trace. */
  ghost predicate PromptTrace(cfg: Config, w: World, steps: seq<Step>)
    requires Legal(cfg, w, steps)
    decreases |steps|
  {
    Prompt(cfg, w) && (steps != [] ==> PromptTrace(cfg, Do(cfg, w, steps[0]), steps[1..]))
  }

  /** Without manual deletes the lock outlives every run started so far, and starts are a time to live apart. */
  ghost predicate LockInv(cfg: Config, w: World) {
    && (forall r :: r in w.runs ==> w.lockUntil.Some? && w.runs[r].startedAt + cfg.ttl <= w.lockUntil.value)
    && (forall r, s :: r in w.runs && s in w.runs && r != s ==>
          || w.runs[r].startedAt + cfg.ttl <= w.runs[s].startedAt
          || w.runs[s].startedAt + cfg.ttl <= w.runs[r].startedAt)
  }

  lemma StepKeepsLockInv(cfg: Config, w: World, step: Step)
    requires LockInv(cfg, w) && Enabled(cfg, w, step) && !step.DropLock?
    ensures LockInv(cfg, Do(cfg, w, step))
  {
    hide StoredCost, AllFit, Priced, Unpriced;
    var w' := Do(cfg, w, step);
    if !step.Acquire? {
      assert w'.lockUntil == w.lockUntil && w'.runs.Keys == w.runs.Keys;
      assert forall r :: r in w.runs ==> w'.runs[r].startedAt == w.runs[r].startedAt;
      hide Do, Enabled;
    } else {
      AcquireKeepsLockInv(cfg, w, step.run, step.rate);
    }
  }

  lemma AcquireKeepsLockInv(cfg: Config, w: World, run: RunId, rate: Decimal)
    requires LockInv(cfg, w) && Enabled(cfg, w, Acquire(run, rate))
    ensures LockInv(cfg, Do(cfg, w, Acquire(run, rate)))
  {
    var w' := Do(cfg, w, Acquire(run, rate));
    assert forall r :: r in w'.runs ==> if r == run then w'.runs[r].startedAt == w.now else w'.runs[r] == w.runs[r];
  }

  lemma StepKeepsSolo(cfg: Config, w: World, step: Step)
    requires LockInv(cfg, w) && Prompt(cfg, w) && Solo(w) && Enabled(cfg, w, step)
    ensures Solo(Do(cfg, w, step))
  {
    hide StoredCost, AllFit;
    var w' := Do(cfg, w, step);
    forall r, s | Active(w', r) && Active(w', s)
      ensures r == s
    {
      if step.Acquire? {
        assert forall q :: !Active(w, q);
      } else {
        assert Active(w, r) && Active(w, s);
      }
    }
  }

  lemma {:induction false} TimedExclusionFrom(cfg: Config, w: World, steps: seq<Step>)
    requires LockInv(cfg, w) && Solo(w)
    requires Legal(cfg, w, steps) && NoDrop(steps) && PromptTrace(cfg, w, steps)
    ensures SoloTrace(cfg, w, steps) && LockInv(cfg, After(cfg, w, steps))
    decreases |steps|
  {
    hide LockInv, Enabled, Do;
    if steps != [] {
      StepKeepsLockInv(cfg, w, steps[0]);
      StepKeepsSolo(cfg, w, steps[0]);
      TimedExclusionFrom(cfg, Do(cfg, w, steps[0]), steps[1..]);
    }
  }

  /** Acquisitions without manual deletes are at least a time to live apart, whatever the runs do. */
  lemma {:induction false} AcquisitionsApart(cfg: Config, w: World, steps: seq<Step>)
    requires LockInv(cfg, w) && Legal(cfg, w, steps) && NoDrop(steps)
    ensures LockInv(cfg, After(cfg, w, steps))
    decreases |steps|
  {
    hide LockInv, Enabled, Do;
    if steps != [] {
      StepKeepsLockInv(cfg, w, steps[0]);
      AcquisitionsApart(cfg, Do(cfg, w, steps[0]), steps[1..]);
    }
  }

  /** If every run finishes within the time to live, runs exclude each other and each cost is written once. */
  lemma TimedExclusion(cfg: Config, now: Time, parcels: Table, steps: seq<Step>)
    requires Legal(cfg, Start(now, parcels), steps)
    requires NoDrop(steps) && PromptTrace(cfg, Start(now, parcels), steps)
    ensures SoloTrace(cfg, Start(now, parcels), steps)
    ensures forall id :: id in After(cfg, Start(now, parcels), steps).origin ==>
              Hits(After(cfg, Start(now, parcels), steps).log, id) <= 1
  {
    hide Do, Enabled;
    TimedExclusionFrom(cfg, Start(now, parcels), steps);
    CrashAndResume(cfg, now, parcels, steps);
  }

  /** The manual trigger always gets the lock; it keeps runs exclusive exactly when none was active. */
  lemma ManualTrigger(cfg: Config, w: World, r: RunId, rate: Decimal)
    requires r !in w.runs
    ensures Enabled(cfg, w, DropLock) && Enabled(cfg, Do(cfg, w, DropLock), Acquire(r, rate))
    ensures Solo(Do(cfg, Do(cfg, w, DropLock), Acquire(r, rate))) <==> forall q :: !Active(w, q)
  {
    var w' := Do(cfg, Do(cfg, w, DropLock), Acquire(r, rate));
    assert Active(w', r);
    if q :| Active(w, q) {
      assert Active(w', q) && q != r;
    } else {
      forall q | Active(w', q)
        ensures q == r
      {
        assert !Active(w, q);
      }
    }
  }
}
