/** The delivery-cost job as it runs undisturbed: lock, one rate, batches until nothing is pending. */
module DeliveryJob {
  import opened Wrappers
  import opened Parcels
  import opened Decimals
  import opened Pricing
  import opened DeliveryTable

  type Time = int

  datatype Failure = RateUnavailable | CommitRefused

  datatype JobResult = Returned(updated: nat) | Raised(failure: Failure)

  /** The Redis lock key exists until its expiry time. */
  predicate LockHeld(lockUntil: Option<Time>, now: Time) {
    lockUntil.Some? && now < lockUntil.value
  }

  /** What a run that gets the lock and a rate may do to the table, whatever rows LIMIT picks. */
  ghost predicate JobOutcome(t: Table, t': Table, rate: Decimal, batch: nat, r: JobResult) {
    if batch == 0 then
      t' == t && r == Returned(0)
    else if AllFit(t, Unpriced(t), rate) then
      t' == PriceAll(t, rate) && r == Returned(|Unpriced(t)|)
    else
      r == Raised(CommitRefused) && StoppedPartway(t, t', rate, batch)
  }

  /** Whole batches that fit were committed; something that does not fit is still pending. */
  ghost predicate StoppedPartway(t: Table, t': Table, rate: Decimal, batch: nat)
    requires batch > 0
  {
    && !AllFit(t', Unpriced(t'), rate)
    && exists done :: done <= Unpriced(t) && WholeBatches(|done|, batch) && AllFit(t, done, rate) && t' == Priced(t, done, rate)
  }

  class DeliveryJob {
    const ttl: nat
    const batch: nat
    var parcels: Table
    var lockUntil: Option<Time>
    var lastRunUpdated: Option<nat>

    constructor (parcels: Table, ttl: nat, batch: nat)
      ensures this.parcels == parcels && this.ttl == ttl && this.batch == batch
      ensures lockUntil.None? && lastRunUpdated.None?
    {
      this.parcels, this.ttl, this.batch := parcels, ttl, batch;
      lockUntil, lastRunUpdated := None, None;
    }

    /** `SET delivery_job_lock NX EX ttl`. */
    method AcquireLock(now: Time) returns (acquired: bool)
      modifies this`lockUntil
      ensures acquired == !LockHeld(old(lockUntil), now)
      ensures lockUntil == if acquired then Some(now + ttl) else old(lockUntil)
    {
      acquired := !LockHeld(lockUntil, now);
      if acquired {
        lockUntil := Some(now + ttl);
      }
    }

    /** `LIMIT` without `ORDER BY`: any pending rows, as many as there are up to the limit. */
    method FetchUnpriced() returns (rows: seq<ParcelId>)
      ensures forall i, k :: 0 <= i < k < |rows| ==> rows[i] != rows[k]
      ensures forall i :: 0 <= i < |rows| ==> rows[i] in Unpriced(parcels)
      ensures |rows| == Min(batch, |Unpriced(parcels)|)
      ensures Fetched(parcels, batch, rows)
    {
      rows := [];
      var left := Unpriced(parcels);
      while |rows| < batch && left != {}
        invariant left <= Unpriced(parcels)
        invariant forall i, k :: 0 <= i < k < |rows| ==> rows[i] != rows[k]
        invariant forall i :: 0 <= i < |rows| ==> rows[i] in Unpriced(parcels) && rows[i] !in left
        invariant |rows| + |left| == |Unpriced(parcels)| && |rows| <= batch
        decreases left
      {
        var id :| id in left;
        rows := rows + [id];
        left := left - {id};
      }
    }

    /** Flush and commit one batch of prices, or refuse it whole. */
    method CommitBatch(prices: map<ParcelId, nat>) returns (committed: bool)
      modifies this`parcels
      ensures committed == forall id :: id in prices ==> prices[id] < MONEY_LIMIT
      ensures !committed ==> parcels == old(parcels)
      ensures committed ==> parcels == WithPrices(old(parcels), prices)
    {
      committed := forall id :: id in prices ==> prices[id] < MONEY_LIMIT;
      if committed {
        parcels := map id | id in parcels ::
          if id in prices then parcels[id].(cost := Some(prices[id])) else parcels[id];
      }
    }

    /** One turn of the job's loop body: price the fetched rows in memory, then commit them. */
    method PriceBatch(rows: seq<ParcelId>, rate: Decimal) returns (committed: bool)
      requires forall i :: 0 <= i < |rows| ==> rows[i] in Unpriced(parcels)
      modifies this`parcels
      ensures committed == AllFit(old(parcels), Elements(rows), rate)
      ensures parcels == if committed then Priced(old(parcels), Elements(rows), rate) else old(parcels)
    {
      hide StoredCost;
      var prices: map<ParcelId, nat> := map[];
      for i := 0 to |rows|
        invariant prices == PricesOf(parcels, Elements(rows[..i]), rate)
      {
        var parcel := parcels[rows[i]];
        assert rows[..i + 1] == rows[..i] + [rows[i]];
        prices := prices[rows[i] := StoredCost(parcel, rate)];
      }
      assert rows[..|rows|] == rows;
      PricesFit(parcels, Elements(rows), rate);
      committed := CommitBatch(prices);
    }

    /** The batch loop at one rate. */
    method PricePending(rate: Decimal) returns (r: JobResult)
      modifies this`parcels
      ensures JobOutcome(old(parcels), parcels, rate, batch, r)
    {
      hide StoredCost, Priced, Progress, JobOutcome, Fetched;
      var updated: nat := 0;
      ghost var done: set<ParcelId> := {};
      var rows := FetchUnpriced();
      FirstFetch(parcels, rate, batch, rows);
      while rows != []
        invariant Progress(old(parcels), parcels, rate, batch, done, updated, rows)
        decreases |Unpriced(parcels)|
      {
        ghost var before := parcels;
        FetchedRows(old(parcels), parcels, rate, batch, done, updated, rows);
        var committed := PriceBatch(rows, rate);
        if !committed {
          BatchRefused(old(parcels), parcels, rate, batch, done, updated, rows);
          return Raised(CommitRefused);
        }
        var next := FetchUnpriced();
        BatchAdded(old(parcels), before, rate, batch, done, updated, rows, next);
        done := done + Elements(rows);
        updated := updated + |rows|;
        rows := next;
      }
      NothingLeft(old(parcels), parcels, rate, batch, done, updated);
      r := Returned(updated);
    }

    /** `recalc_delivery_costs`; `rate` is what the exchange-rate service answers, if it does. */
    method Recalc(now: Time, rate: Option<Decimal>) returns (r: JobResult)
      modifies this`parcels, this`lockUntil, this`lastRunUpdated
      ensures LockHeld(old(lockUntil), now) ==>
                r == Returned(0) && parcels == old(parcels)
                && lockUntil == old(lockUntil) && lastRunUpdated == old(lastRunUpdated)
      ensures !LockHeld(old(lockUntil), now) ==> lockUntil == Some(now + ttl)
      ensures !LockHeld(old(lockUntil), now) && rate.None? ==> r == Raised(RateUnavailable) && parcels == old(parcels)
      ensures !LockHeld(old(lockUntil), now) && rate.Some? ==> JobOutcome(old(parcels), parcels, rate.value, batch, r)
      ensures !LockHeld(old(lockUntil), now) ==>
                lastRunUpdated == if r.Returned? then Some(r.updated) else old(lastRunUpdated)
    {
      hide Priced, AllFit;
      var acquired := AcquireLock(now);
      if !acquired {
        return Returned(0);
      }
      if rate.None? {
        return Raised(RateUnavailable);
      }
      r := PricePending(rate.value);
      if r.Returned? {
        lastRunUpdated := Some(r.updated);
      }
    }

    /** `manual_recalc`: clear the lock, then run; the run is never skipped. */
    method ManualRecalc(now: Time, rate: Option<Decimal>) returns (r: JobResult)
      modifies this`parcels, this`lockUntil, this`lastRunUpdated
      ensures lockUntil == Some(now + ttl)
      ensures rate.None? ==> r == Raised(RateUnavailable) && parcels == old(parcels)
      ensures rate.Some? ==> JobOutcome(old(parcels), parcels, rate.value, batch, r)
      ensures lastRunUpdated == if r.Returned? then Some(r.updated) else old(lastRunUpdated)
    {
      hide JobOutcome;
      lockUntil := None;
      r := Recalc(now, rate);
    }
  }

  function WithPrices(t: Table, prices: map<ParcelId, nat>): Table {
    map id | id in t :: if id in prices then t[id].(cost := Some(prices[id])) else t[id]
  }

  ghost function Elements(rows: seq<ParcelId>): set<ParcelId> {
    set id | id in rows
  }

  ghost function PricesOf(t: Table, rows: set<ParcelId>, rate: Decimal): map<ParcelId, nat> {
    map id | id in rows && id in t :: StoredCost(t[id], rate)
  }

  lemma {:induction false} ElementsCount(rows: seq<ParcelId>)
    requires forall i, k :: 0 <= i < k < |rows| ==> rows[i] != rows[k]
    ensures |Elements(rows)| == |rows|
  {
    if rows != [] {
      var n := |rows| - 1;
      ElementsCount(rows[..n]);
      assert rows == rows[..n] + [rows[n]];
      assert Elements(rows) == Elements(rows[..n]) + {rows[n]};
    }
  }

  /** Distinct pending rows, as many as the limit allows. */
  ghost predicate Fetched(t: Table, batch: nat, rows: seq<ParcelId>) {
    && (forall i, k :: 0 <= i < k < |rows| ==> rows[i] != rows[k])
    && (forall i :: 0 <= i < |rows| ==> rows[i] in Unpriced(t))
    && |rows| == Min(batch, |Unpriced(t)|)
  }

  /** The rows `done` are priced, in whole batches while there is more to do. */
  ghost predicate BatchesDone(t: Table, now: Table, rate: Decimal, batch: nat, done: set<ParcelId>) {
    && done <= Unpriced(t) && AllFit(t, done, rate) && now == Priced(t, done, rate)
    && (if batch == 0 then done == {} else Unpriced(now) == {} || WholeBatches(|done|, batch))
  }

  /** Where the batch loop stands, with its next batch fetched. */
  ghost predicate Progress(t: Table, now: Table, rate: Decimal, batch: nat, done: set<ParcelId>, updated: nat,
                           rows: seq<ParcelId>)
  {
    BatchesDone(t, now, rate, batch, done) && updated == |done| && Fetched(now, batch, rows)
  }

  lemma FirstFetch(t: Table, rate: Decimal, batch: nat, rows: seq<ParcelId>)
    requires Fetched(t, batch, rows)
    ensures Progress(t, t, rate, batch, {}, 0, rows)
  {
    hide StoredCost, Fetched;
    NothingPriced(t, rate);
  }

  lemma FetchedRows(t: Table, now: Table, rate: Decimal, batch: nat, done: set<ParcelId>, updated: nat, rows: seq<ParcelId>)
    requires Progress(t, now, rate, batch, done, updated, rows)
    ensures forall i :: 0 <= i < |rows| ==> rows[i] in Unpriced(now)
    ensures Elements(rows) <= Unpriced(now) && |Elements(rows)| == |rows| == Min(batch, |Unpriced(now)|)
  {
    hide BatchesDone;
    ElementsCount(rows);
    ElementsIn(rows, Unpriced(now));
  }

  /** Pricing `rows` more is one batch more. */
  lemma MoreDone(t: Table, now: Table, rate: Decimal, batch: nat, done: set<ParcelId>, rows: set<ParcelId>)
    requires BatchesDone(t, now, rate, batch, done)
    requires rows != {} && rows <= Unpriced(now) && |rows| == Min(batch, |Unpriced(now)|) && AllFit(now, rows, rate)
    ensures done !! rows && BatchesDone(t, Priced(now, rows, rate), rate, batch, done + rows)
    ensures Unpriced(Priced(now, rows, rate)) == Unpriced(now) - rows
  {
    hide StoredCost, WholeBatches;
    BatchDone(t, done, rows, rate);
    hide Priced, AllFit;
    if batch > 0 && Unpriced(now) - rows != {} {
      if |rows| == |Unpriced(now)| {
        SameSize(rows, Unpriced(now));
      }
      AnotherBatch(|done|, batch);
    }
  }

  lemma SameSize(a: set<ParcelId>, b: set<ParcelId>)
    requires a <= b && |a| == |b|
    ensures a == b
  {
    assert b == a + (b - a);
  }

  lemma BatchAdded(t: Table, now: Table, rate: Decimal, batch: nat, done: set<ParcelId>, updated: nat,
                   rows: seq<ParcelId>, next: seq<ParcelId>)
    requires Progress(t, now, rate, batch, done, updated, rows) && rows != []
    requires AllFit(now, Elements(rows), rate) && Fetched(Priced(now, Elements(rows), rate), batch, next)
    ensures Progress(t, Priced(now, Elements(rows), rate), rate, batch, done + Elements(rows), updated + |rows|, next)
    ensures |Unpriced(Priced(now, Elements(rows), rate))| < |Unpriced(now)|
  {
    hide StoredCost, BatchesDone;
    FetchedRows(t, now, rate, batch, done, updated, rows);
    hide Fetched, Elements, Priced, AllFit;
    MoreDone(t, now, rate, batch, done, Elements(rows));
  }

  lemma BatchRefused(t: Table, now: Table, rate: Decimal, batch: nat, done: set<ParcelId>, updated: nat, rows: seq<ParcelId>)
    requires Progress(t, now, rate, batch, done, updated, rows) && !AllFit(now, Elements(rows), rate) && rows != []
    ensures JobOutcome(t, now, rate, batch, Raised(CommitRefused))
  {
    hide StoredCost;
    FetchedRows(t, now, rate, batch, done, updated, rows);
    hide Fetched, Elements, Priced, AllFit, JobOutcome;
    StillUnfit(t, done, Elements(rows), rate, batch);
  }

  /** A fetch of nothing ends a complete run. */
  lemma NothingLeft(t: Table, now: Table, rate: Decimal, batch: nat, done: set<ParcelId>, updated: nat)
    requires Progress(t, now, rate, batch, done, updated, [])
    ensures JobOutcome(t, now, rate, batch, Returned(updated))
  {
    hide StoredCost;
    RunComplete(t, now, rate, batch, done);
  }

  lemma RunComplete(t: Table, now: Table, rate: Decimal, batch: nat, done: set<ParcelId>)
    requires BatchesDone(t, now, rate, batch, done) && Min(batch, |Unpriced(now)|) == 0
    ensures JobOutcome(t, now, rate, batch, Returned(|done|))
  {
    hide StoredCost, Priced;
    UnpricedAfter(t, done, rate);
    NothingPriced(t, rate);
    if batch > 0 {
      assert Unpriced(now) == {};
      assert done == Unpriced(t);
    }
  }

  lemma ElementsIn(rows: seq<ParcelId>, s: set<ParcelId>)
    requires forall i :: 0 <= i < |rows| ==> rows[i] in s
    ensures Elements(rows) <= s
  {
  }

  lemma PricesFit(t: Table, rows: set<ParcelId>, rate: Decimal)
    ensures AllFit(t, rows, rate) <==> forall id :: id in PricesOf(t, rows, rate) ==> PricesOf(t, rows, rate)[id] < MONEY_LIMIT
  {
    hide StoredCost;
    if !AllFit(t, rows, rate) {
      var id :| id in rows && id in t && !PriceFits(t[id], rate);
      assert id in PricesOf(t, rows, rate);
    }
  }

  lemma NothingPriced(t: Table, rate: Decimal)
    ensures Priced(t, {}, rate) == t && AllFit(t, {}, rate)
  {
    hide StoredCost;
  }

  lemma BatchDone(t: Table, done: set<ParcelId>, rows: set<ParcelId>, rate: Decimal)
    requires done <= Unpriced(t) && rows <= Unpriced(Priced(t, done, rate))
    requires AllFit(t, done, rate) && AllFit(Priced(t, done, rate), rows, rate)
    ensures done + rows <= Unpriced(t) && AllFit(t, done + rows, rate) && done !! rows
    ensures Priced(Priced(t, done, rate), rows, rate) == Priced(t, done + rows, rate)
    ensures Unpriced(Priced(t, done + rows, rate)) == Unpriced(Priced(t, done, rate)) - rows
  {
    hide StoredCost;
    UnpricedAfter(t, done, rate);
    UnpricedAfter(t, done + rows, rate);
    PricedTwice(t, done, rows, rate);
    forall id | id in rows && id in t
      ensures PriceFits(t[id], rate)
    {
      assert Priced(t, done, rate)[id] == t[id];
    }
  }

  predicate WholeBatches(n: nat, batch: nat)
    requires batch > 0
  {
    n % batch == 0
  }

  lemma AnotherBatch(n: nat, batch: nat)
    requires batch > 0 && WholeBatches(n, batch)
    ensures WholeBatches(n + batch, batch)
  {
    assert n + batch == batch * (n / batch + 1);
    DivUnique(n + batch, batch, n / batch + 1);
  }

  /** A refused batch leaves a whole number of batches committed and an unfitting row pending. */
  lemma StillUnfit(t: Table, done: set<ParcelId>, rows: set<ParcelId>, rate: Decimal, batch: nat)
    requires batch > 0 && WholeBatches(|done|, batch)
    requires done <= Unpriced(t) && rows <= Unpriced(Priced(t, done, rate))
    requires AllFit(t, done, rate) && !AllFit(Priced(t, done, rate), rows, rate)
    ensures !AllFit(t, Unpriced(t), rate)
    ensures StoppedPartway(t, Priced(t, done, rate), rate, batch)
    ensures JobOutcome(t, Priced(t, done, rate), rate, batch, Raised(CommitRefused))
  {
    hide StoredCost;
    UnpricedAfter(t, done, rate);
    var id :| id in rows && id in t && !PriceFits(Priced(t, done, rate)[id], rate);
    assert Priced(t, done, rate)[id] == t[id];
  }

  /** At a rate at which every price fits, such as any up to 95.2380, no parcel can stop the job. */
  lemma SafeRateCompletes(t: Table, rate: Decimal)
    requires forall id :: id in t ==> FitsColumns(t[id])
    requires LARGEST_BASE * Value(rate) < REFUSED
    ensures var done := PriceAll(t, rate);
            && Unpriced(done) == {} && (forall id :: id in done ==> FitsColumns(done[id]))
            && forall t': Table, batch: nat, result: JobResult :: batch >= 1 && JobOutcome(t, t', rate, batch, result)
                 ==> t' == done && result == Returned(|Unpriced(t)|)
  {
    hide StoredCost, Value;
    EveryPriceFits(rate);
    UnpricedAfter(t, Unpriced(t), rate);
  }
}
