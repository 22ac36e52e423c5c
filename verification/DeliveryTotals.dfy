/** What the stored prices of a complete run add up to. */
module DeliveryTotals {
  import opened Parcels
  import opened Decimals
  import opened Rounding
  import opened Pricing
  import opened PriceError
  import opened DeliveryTable

  ghost function Pick(s: set<ParcelId>): ParcelId
    requires s != {}
    ensures Pick(s) in s
  {
    var id :| id in s;
    id
  }

  ghost function Sum(s: set<ParcelId>, f: ParcelId -> int): int {
    if s == {} then 0 else f(Pick(s)) + Sum(s - {Pick(s)}, f)
  }

  ghost function Costs(t: Table): ParcelId -> int {
    id => if id in t && t[id].cost.Some? then t[id].cost.value else 0
  }

  ghost function Weights(t: Table): ParcelId -> int {
    id => if id in t then t[id].weight else 0
  }

  ghost function DeclaredValues(t: Table): ParcelId -> int {
    id => if id in t then t[id].declared else 0
  }

  /** The documented price of each row, in kopecks over `Fine`. */
  ghost function ExactPrices(t: Table, rate: Decimal): ParcelId -> int {
    id => if id in t then Times(Coarse(rate.exp - 4), Product(t[id], rate)) else 0
  }

  lemma Distribute(a: int, x: int, y: int)
    ensures a * (x + y) == a * x + a * y
  {
  }

  lemma AddBounds(m: int, low: int, high: int, d: nat, f: int, g: int, fs: int, gs: int, n: nat)
    requires low * g - d <= m * f <= high * g + d && low * gs - n * d <= m * fs <= high * gs + n * d
    ensures low * (g + gs) - (n + 1) * d <= m * (f + fs) <= high * (g + gs) + (n + 1) * d
  {
    Distribute(m, f, fs);
    Distribute(low, g, gs);
    Distribute(high, g, gs);
    Distribute(d, n, 1);
  }

  /** Per-row bounds add up. */
  lemma {:induction false} SumClose(s: set<ParcelId>, f: ParcelId -> int, g: ParcelId -> int, m: int, low: int, high: int, d: nat)
    requires forall id :: id in s ==> low * g(id) - d <= m * f(id) <= high * g(id) + d
    ensures low * Sum(s, g) - |s| * d <= m * Sum(s, f) <= high * Sum(s, g) + |s| * d
  {
    if s != {} {
      var id, rest := Pick(s), s - {Pick(s)};
      SumClose(rest, f, g, m, low, high, d);
      assert |s| == |rest| + 1;
      AddBounds(m, low, high, d, f(id), g(id), Sum(rest, f), Sum(rest, g), |rest|);
    }
  }

  lemma AddLinear(c: int, w: int, v: int, ws: int, vs: int)
    ensures c * (5 * w + v) + c * (5 * ws + vs) == c * (5 * (w + ws) + (v + vs))
  {
    Distribute(c, 5 * w + v, 5 * ws + vs);
  }

  /** The exact total is the documented price of the total weight and the total value. */
  lemma {:induction false} ExactTotal(s: set<ParcelId>, t: Table, rate: Decimal)
    requires forall id :: id in s ==> id in t
    ensures Sum(s, ExactPrices(t, rate))
         == (Coarse(rate.exp - 4) * rate.coeff) * (5 * Sum(s, Weights(t)) + Sum(s, DeclaredValues(t)))
  {
    hide Coarse;
    if s != {} {
      var id, rest := Pick(s), s - {Pick(s)};
      ExactTotal(rest, t, rate);
      ExactRow(t[id], rate);
      AddLinear(Coarse(rate.exp - 4) * rate.coeff, t[id].weight, t[id].declared,
                Sum(rest, Weights(t)), Sum(rest, DeclaredValues(t)));
    }
  }

  lemma ExactRow(p: Parcel, rate: Decimal)
    ensures Times(Coarse(rate.exp - 4), Product(p, rate)) == (Coarse(rate.exp - 4) * rate.coeff) * (5 * p.weight + p.declared)
  {
    hide Coarse;
    Reorder(rate.coeff, Coarse(rate.exp - 4), Base(p));
  }

  /** Bounds on every row's stored price bound the total. */
  lemma TotalBounds(t: Table, rate: Decimal, m: int, low: int, high: int, d: nat)
    requires forall id :: id in Unpriced(t) ==>
               low * ExactPrices(t, rate)(id) - d <= m * StoredCost(t[id], rate) <= high * ExactPrices(t, rate)(id) + d
    ensures var s, total := Unpriced(t), Sum(Unpriced(t), ExactPrices(t, rate));
            low * total - |s| * d <= m * Sum(s, Costs(PriceAll(t, rate))) <= high * total + |s| * d
  {
    hide StoredCost, ExactPrices;
    SumClose(Unpriced(t), Costs(PriceAll(t, rate)), ExactPrices(t, rate), m, low, high, d);
  }

  /** The price is the exact one rounded once. */
  predicate RoundedOnce(p: Parcel, rate: Decimal) {
    Product(p, rate) < TOO_LONG || (PriceFits(p, rate) && !RoundsTwice(Product(p, rate), rate.exp - 4))
  }

  /**
   * After a complete run the stored costs add up to the documented price of all n parcels,
   * rate * (0.5 * total weight + 0.01 * total value), up to n half kopecks, when no price hit the
   * two roundings.
   */
  lemma TotalError(t: Table, rate: Decimal)
    requires forall id :: id in Unpriced(t) ==> FitsColumns(t[id]) && RoundedOnce(t[id], rate)
    ensures var s, d := Unpriced(t), Fine(rate.exp - 4);
            var exact := (Coarse(rate.exp - 4) * rate.coeff) * (5 * Sum(s, Weights(t)) + Sum(s, DeclaredValues(t)));
            2 * exact - |s| * d <= (2 * d) * Sum(s, Costs(PriceAll(t, rate))) <= 2 * exact + |s| * d
  {
    hide StoredCost, Fine, Coarse, Product;
    var d := Fine(rate.exp - 4);
    forall id | id in Unpriced(t)
      ensures 2 * ExactPrices(t, rate)(id) - d <= (2 * d) * StoredCost(t[id], rate) <= 2 * ExactPrices(t, rate)(id) + d
    {
      RowWithinHalf(t[id], rate);
    }
    TotalBounds(t, rate, 2 * d, 2, 2, d);
    ExactTotal(Unpriced(t), t, rate);
  }

  lemma RowWithinHalf(p: Parcel, rate: Decimal)
    requires FitsColumns(p) && RoundedOnce(p, rate)
    ensures var d, x := Fine(rate.exp - 4), Times(Coarse(rate.exp - 4), Product(p, rate));
            2 * x - d <= (2 * d) * StoredCost(p, rate) <= 2 * x + d
  {
    hide StoredCost, Fine, Coarse, Product, RoundsTwice, NearestKopeck;
    if Product(p, rate) < TOO_LONG {
      CostClosedForm(p, rate);
      NearestIsWithinHalf(Product(p, rate), rate.exp - 4);
    } else {
      HalfKopeckExactly(p, rate);
    }
    assert (2 * Fine(rate.exp - 4)) * StoredCost(p, rate) == 2 * Times(Fine(rate.exp - 4), StoredCost(p, rate));
  }

  /** 10^27, the relative precision of the context. */
  const STEPS := 1000000000000000000000000000

  /** Whatever the rate, the total is off by at most n half kopecks and one part in 2 * 10^27. */
  lemma TotalErrorAnyRate(t: Table, rate: Decimal)
    requires forall id :: id in Unpriced(t) ==> FitsColumns(t[id])
    ensures var s, d := Unpriced(t), Fine(rate.exp - 4);
            var exact := (Coarse(rate.exp - 4) * rate.coeff) * (5 * Sum(s, Weights(t)) + Sum(s, DeclaredValues(t)));
            (2 * STEPS - 1) * exact - |s| * (STEPS * d)
              <= (2 * STEPS * d) * Sum(s, Costs(PriceAll(t, rate)))
              <= (2 * STEPS + 1) * exact + |s| * (STEPS * d)
  {
    hide StoredCost, Fine, Coarse, Product;
    var d := Fine(rate.exp - 4);
    forall id | id in Unpriced(t)
      ensures (2 * STEPS - 1) * ExactPrices(t, rate)(id) - STEPS * d <= (2 * STEPS * d) * StoredCost(t[id], rate)
           <= (2 * STEPS + 1) * ExactPrices(t, rate)(id) + STEPS * d
    {
      RowError(t[id], rate);
    }
    TotalBounds(t, rate, 2 * STEPS * d, 2 * STEPS - 1, 2 * STEPS + 1, STEPS * d);
    ExactTotal(Unpriced(t), t, rate);
  }

  lemma RowError(p: Parcel, rate: Decimal)
    requires FitsColumns(p)
    ensures var d, x := Fine(rate.exp - 4), Times(Coarse(rate.exp - 4), Product(p, rate));
            (2 * STEPS - 1) * x - STEPS * d <= (2 * STEPS * d) * StoredCost(p, rate) <= (2 * STEPS + 1) * x + STEPS * d
  {
    hide StoredCost, Fine, Coarse, Product, Times;
    CostError(p, rate);
    var x, u, d := Product(p, rate), Coarse(rate.exp - 4), Fine(rate.exp - 4);
    var long := if x < TOO_LONG then 0 else Ulp(x);
    PartOf(u, long, x);
    StepsOf(d, StoredCost(p, rate));
  }

  lemma PartOf(u: nat, long: nat, x: nat)
    requires STEPS * long <= x
    ensures STEPS * Times(u, long) <= Times(u, x)
  {
    MulLe(u, STEPS * long, x);
  }

  lemma StepsOf(d: nat, c: nat)
    ensures (2 * STEPS * d) * c == 2 * STEPS * Times(d, c)
  {
  }
}
