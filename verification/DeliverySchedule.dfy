/**
 * The scheduler ticks at an even interval and the job never releases its lock, so the lock's
 * time to live decides which ticks do work.
 */
module DeliverySchedule {
  import opened Wrappers
  import opened Decimals
  import opened Parcels
  import opened DeliveryJob
  import opened DeliveryRuns

  /** The lock as tick `k` finds it; every tick happens exactly on time and nobody deletes the lock. */
  function LockBefore(k: nat, interval: nat, ttl: nat): Option<Time>
    decreases k, 0
  {
    if k == 0 then None
    else if Works(k - 1, interval, ttl) then Some((k - 1) * interval + ttl)
    else LockBefore(k - 1, interval, ttl)
  }

  /** Tick `k` gets the lock. */
  predicate Works(k: nat, interval: nat, ttl: nat)
    decreases k, 1
  {
    !LockHeld(LockBefore(k, interval, ttl), k * interval)
  }

  function CeilDiv(a: nat, b: nat): nat
    requires b > 0
  {
    (a + b - 1) / b
  }

  /** `d` intervals fit strictly inside the time to live exactly when `d` is below the ceiling of their ratio. */
  lemma InsideTtl(d: nat, interval: nat, ttl: nat)
    requires interval > 0
    ensures d * interval < ttl <==> d < CeilDiv(ttl, interval)
  {
    var m := CeilDiv(ttl, interval);
    var r := (ttl + interval - 1) % interval;
    assert ttl + interval - 1 == interval * m + r;
    if d < m {
      MulLe(interval, d + 1, m);
    } else {
      MulLe(interval, m, d);
    }
  }

  /** Whether a lock taken at tick `j` still stands at tick `k`. */
  lemma HeldBetween(j: nat, k: nat, interval: nat, ttl: nat)
    requires interval > 0 && j <= k
    ensures k * interval < j * interval + ttl <==> k - j < CeilDiv(ttl, interval)
  {
    InsideTtl(k - j, interval, ttl);
    hide CeilDiv;
    assert (k - j) * interval == k * interval - j * interval;
  }

  lemma Between(q: nat, m: nat, k: nat)
    requires m > 0 && m * q <= k < m * q + m
    ensures k % m == 0 <==> k == m * q
  {
    DivUnique(k, m, q);
    assert k == m * (k / m) + k % m;
  }

  /** From one multiple of `m` the next one is `j + m`. */
  lemma StepMod(j: nat, m: nat, k: nat)
    requires m > 0 && j % m == 0 && j < k <= j + m
    ensures k % m == 0 <==> k == j + m
  {
    var q := j / m;
    assert j == m * q + j % m;
    if k == j + m {
      assert m * (q + 1) == m * q + m;
      Between(q + 1, m, k);
    } else {
      Between(q, m, k);
    }
  }

  /** The lock tick `k` finds was taken at the last multiple of the period before `k`. */
  lemma {:induction false} LastWork(k: nat, interval: nat, ttl: nat) returns (j: nat)
    requires k >= 1 && interval > 0 && ttl > 0
    ensures LockBefore(k, interval, ttl) == Some(j * interval + ttl)
    ensures CeilDiv(ttl, interval) > 0 && j % CeilDiv(ttl, interval) == 0 && j < k <= j + CeilDiv(ttl, interval)
  {
    hide CeilDiv;
    var m := CeilDiv(ttl, interval);
    InsideTtl(0, interval, ttl);
    if k == 1 {
      j := 0;
      assert Works(0, interval, ttl);
    } else {
      j := LastWork(k - 1, interval, ttl);
      HeldBetween(j, k - 1, interval, ttl);
      if k - 1 == j + m {
        StepMod(j, m, k - 1);
        j := k - 1;
      }
    }
  }

  /** The job does work on exactly the ticks that are multiples of ceil(ttl / interval). */
  lemma WorkingTicks(k: nat, interval: nat, ttl: nat)
    requires interval > 0 && ttl > 0
    ensures CeilDiv(ttl, interval) > 0
    ensures Works(k, interval, ttl) <==> k % CeilDiv(ttl, interval) == 0
  {
    hide CeilDiv;
    var m := CeilDiv(ttl, interval);
    InsideTtl(0, interval, ttl);
    if k > 0 {
      var j := LastWork(k, interval, ttl);
      HeldBetween(j, k, interval, ttl);
      StepMod(j, m, k);
    }
  }

  /** With the default 330 s and 5 minutes, every second tick is skipped. */
  lemma DefaultSchedule(k: nat)
    ensures Works(k, 300, 330) <==> k % 2 == 0
  {
    WorkingTicks(k, 300, 330);
  }

  // ---------------------------------------------------------------- the schedule as a trace

  /** Steps that leave the lock alone. */
  predicate NoLockStep(steps: seq<Step>) {
    forall i :: 0 <= i < |steps| ==> !steps[i].Acquire? && !steps[i].DropLock?
  }

  /** From one tick to the next: one attempt at the lock, which starts a run if it is free, and then anything else. */
  ghost predicate Round(cfg: Config, w: World, steps: seq<Step>, interval: nat) {
    && Legal(cfg, w, steps)
    && (if LockHeld(w.lockUntil, w.now) then NoLockStep(steps)
        else steps != [] && steps[0].Acquire? && NoLockStep(steps[1..]))
    && After(cfg, w, steps).now == w.now + interval
  }

  ghost predicate Scheduled(cfg: Config, w: World, rounds: seq<seq<Step>>, interval: nat)
    decreases |rounds|
  {
    rounds != [] ==> Round(cfg, w, rounds[0], interval) && Scheduled(cfg, After(cfg, w, rounds[0]), rounds[1..], interval)
  }

  function Flat(rounds: seq<seq<Step>>): seq<Step> {
    if rounds == [] then [] else rounds[0] + Flat(rounds[1..])
  }

  lemma {:induction false} LockUntouched(cfg: Config, w: World, steps: seq<Step>)
    requires Legal(cfg, w, steps) && NoLockStep(steps)
    ensures After(cfg, w, steps).lockUntil == w.lockUntil
    decreases |steps|
  {
    if steps != [] {
      var w' := Do(cfg, w, steps[0]);
      assert w'.lockUntil == w.lockUntil;
      hide Do, Enabled;
      LockUntouched(cfg, w', steps[1..]);
    }
  }

  lemma RoundLock(cfg: Config, w: World, steps: seq<Step>, interval: nat)
    requires Round(cfg, w, steps, interval)
    ensures After(cfg, w, steps).lockUntil == if LockHeld(w.lockUntil, w.now) then w.lockUntil else Some(w.now + cfg.ttl)
  {
    if LockHeld(w.lockUntil, w.now) {
      LockUntouched(cfg, w, steps);
    } else {
      LockUntouched(cfg, Do(cfg, w, steps[0]), steps[1..]);
    }
  }

  lemma {:induction false} Concatenated(cfg: Config, w: World, a: seq<Step>, b: seq<Step>)
    requires Legal(cfg, w, a) && Legal(cfg, After(cfg, w, a), b)
    ensures Legal(cfg, w, a + b) && After(cfg, w, a + b) == After(cfg, After(cfg, w, a), b)
    decreases |a|
  {
    hide Do, Enabled;
    if a == [] {
      assert a + b == b;
    } else {
      assert (a + b)[1..] == a[1..] + b;
      Concatenated(cfg, Do(cfg, w, a[0]), a[1..], b);
    }
  }

  /** The rounds put end to end are a trace that never drops the lock, and the lock it leaves is the one of the schedule. */
  lemma {:induction false} RoundsAreTrace(cfg: Config, w: World, rounds: seq<seq<Step>>, interval: nat, k: nat)
    requires Scheduled(cfg, w, rounds, interval)
    requires w.now == k * interval && w.lockUntil == LockBefore(k, interval, cfg.ttl)
    ensures Legal(cfg, w, Flat(rounds)) && NoDrop(Flat(rounds))
    ensures var w', n := After(cfg, w, Flat(rounds)), k + |rounds|;
            w'.now == n * interval && w'.lockUntil == LockBefore(n, interval, cfg.ttl)
    decreases |rounds|
  {
    hide Do, Enabled, LockHeld;
    if rounds != [] {
      var w1 := After(cfg, w, rounds[0]);
      RoundLock(cfg, w, rounds[0], interval);
      assert (k + 1) * interval == k * interval + interval;
      RoundsAreTrace(cfg, w1, rounds[1..], interval, k + 1);
      Concatenated(cfg, w, rounds[0], Flat(rounds[1..]));
    }
  }

  /**
   * From a table before any run, after any number of rounds of the state machine the next tick can
   * start a run exactly when the schedule says it works: on the multiples of ceil(ttl / interval).
   */
  lemma ScheduleIsTrace(cfg: Config, parcels: Table, rounds: seq<seq<Step>>, interval: nat, r: RunId, rate: Decimal)
    requires interval > 0 && cfg.ttl > 0 && Scheduled(cfg, Start(0, parcels), rounds, interval)
    ensures Legal(cfg, Start(0, parcels), Flat(rounds)) && NoDrop(Flat(rounds))
    ensures var w, k := After(cfg, Start(0, parcels), Flat(rounds)), |rounds|;
            && w.now == k * interval && w.lockUntil == LockBefore(k, interval, cfg.ttl)
            && CeilDiv(cfg.ttl, interval) > 0
            && (r !in w.runs ==> (Enabled(cfg, w, Acquire(r, rate)) <==> Works(k, interval, cfg.ttl)))
            && (Works(k, interval, cfg.ttl) <==> k % CeilDiv(cfg.ttl, interval) == 0)
  {
    RoundsAreTrace(cfg, Start(0, parcels), rounds, interval, 0);
    WorkingTicks(|rounds|, interval, cfg.ttl);
    hide CeilDiv;
  }
}
