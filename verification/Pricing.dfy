/** The delivery-cost formula, in the decimal arithmetic it runs in and in exact integers. */
module Pricing {
  import opened Wrappers
  import opened Parcels
  import opened Decimals
  import opened Rounding

  const WEIGHT_COEFF := Decimal(5, -1)
  const VALUE_COEFF := Decimal(1, -2)

  /** The largest four-decimal rate, in ten-thousandths, at which every parcel has a price that fits. */
  const MAX_SAFE_RATE := 952380

  /** The first integer of more than 28 digits. */
  const TOO_LONG := 10000000000000000000000000000

  /** The largest rate coefficient with which no parcel's price is too long. */
  const MAX_EXACT_COEFF := 9523809523863945

  function Formula(weight: Decimal, declared: Decimal, rate: Decimal): Decimal {
    var byWeight := Mul(weight, WEIGHT_COEFF);
    var cost := Add(byWeight, Mul(declared, VALUE_COEFF));
    Mul(cost, rate)
  }

  /** Kopecks written to `delivery_cost_rub` for a parcel at a rate. */
  function StoredCost(p: Parcel, rate: Decimal): nat {
    StoreHundredths(Formula(Decimal(p.weight, -3), Decimal(p.declared, -2), rate))
  }

  /** MySQL refuses a price that does not fit NUMERIC(12,2). */
  predicate PriceFits(p: Parcel, rate: Decimal) {
    StoredCost(p, rate) < MONEY_LIMIT
  }

  /** The weight and value terms over their common unit of 1/10000 US dollar. */
  function Base(p: Parcel): nat {
    5 * p.weight + p.declared
  }

  /** The price before rounding, over the unit of the rate's last digit times 1/10000 dollar. */
  function Product(p: Parcel, rate: Decimal): nat {
    Times(Base(p), rate.coeff)
  }

  lemma SumExact(p: Parcel)
    requires FitsColumns(p)
    ensures Add(Mul(Decimal(p.weight, -3), WEIGHT_COEFF), Mul(Decimal(p.declared, -2), VALUE_COEFF)) == Decimal(Base(p), -4)
  {
    var w, d := Decimal(5 * p.weight, -4), Decimal(p.declared, -4);
    ExactWithinPrecision(w);
    ExactWithinPrecision(d);
    ExactWithinPrecision(Decimal(Base(p), -4));
    hide ContextRound;
    assert Mul(Decimal(p.weight, -3), WEIGHT_COEFF) == w;
    assert Mul(Decimal(p.declared, -2), VALUE_COEFF) == d;
  }

  /** The formula rounds once, when it multiplies by the rate. */
  lemma FormulaRounds(p: Parcel, rate: Decimal)
    requires FitsColumns(p)
    ensures Formula(Decimal(p.weight, -3), Decimal(p.declared, -2), rate)
         == ContextRound(Decimal(Product(p, rate), rate.exp - 4))
    ensures StoredCost(p, rate) == Stored(Product(p, rate), rate.exp - 4)
  {
    hide ContextRound, StoreHundredths;
    SumExact(p);
  }

  /** No step of the formula drops a digit exactly when the product has at most 28 digits. */
  lemma FormulaExact(p: Parcel, rate: Decimal)
    requires FitsColumns(p)
    ensures Formula(Decimal(p.weight, -3), Decimal(p.declared, -2), rate) == Decimal(Product(p, rate), rate.exp - 4)
        <==> Product(p, rate) < TOO_LONG
  {
    hide ContextRound, Formula, StoredCost;
    FormulaRounds(p, rate);
    var x := Decimal(Product(p, rate), rate.exp - 4);
    if x.coeff < TOO_LONG {
      ExactWithinPrecision(x);
    } else {
      RoundsBeyondPrecision(x);
    }
  }

  const LARGEST := Parcel("", 9999999999, 999999999999, "", "", None, None)

  lemma LargestProduct(p: Parcel, rate: Decimal)
    requires FitsColumns(p)
    ensures FitsColumns(LARGEST) && Product(p, rate) <= Product(LARGEST, rate) == Times(1049999999994, rate.coeff)
  {
    MulMonotone(Base(p), Base(LARGEST), rate.coeff, rate.coeff);
  }

  /** The rates at which the formula is exact for every parcel: all 15-digit ones and some of 16. */
  lemma ExactForEveryParcel(rate: Decimal)
    ensures (forall p :: FitsColumns(p) ==>
              Formula(Decimal(p.weight, -3), Decimal(p.declared, -2), rate) == Decimal(Product(p, rate), rate.exp - 4))
        <==> rate.coeff <= MAX_EXACT_COEFF
  {
    hide Formula, Product;
    LargestProduct(LARGEST, rate);
    FormulaExact(LARGEST, rate);
    if rate.coeff <= MAX_EXACT_COEFF {
      forall p | FitsColumns(p)
        ensures Formula(Decimal(p.weight, -3), Decimal(p.declared, -2), rate) == Decimal(Product(p, rate), rate.exp - 4)
      {
        LargestProduct(p, rate);
        FormulaExact(p, rate);
      }
    }
  }

  lemma MulMonotone(a: nat, b: nat, c: nat, d: nat)
    requires a <= b && c <= d
    ensures Times(a, c) <= Times(b, d)
  {
    MulLe(c, a, b);
    MulLe(b, c, d);
  }

  /** A product of at most 28 digits is rounded once, half away from zero, when it is stored. */
  lemma CostClosedForm(p: Parcel, rate: Decimal)
    requires FitsColumns(p) && Product(p, rate) < TOO_LONG
    ensures StoredCost(p, rate) == NearestKopeck(Product(p, rate), rate.exp - 4)
  {
    hide StoredCost, ContextRound, StoreHundredths, NearestKopeck;
    FormulaRounds(p, rate);
    ExactWithinPrecision(Decimal(Product(p, rate), rate.exp - 4));
    StoreIsRounding(Product(p, rate), rate.exp - 4);
  }

  /** For the four-decimal rates the central bank publishes. */
  lemma FourDecimalCost(p: Parcel, r: nat)
    requires FitsColumns(p) && Product(p, Decimal(r, -4)) < TOO_LONG
    ensures StoredCost(p, Decimal(r, -4)) == (Times(5 * p.weight + p.declared, r) + 500000) / 1000000
  {
    hide StoredCost;
    CostClosedForm(p, Decimal(r, -4));
    Pow10Values();
    var x := Times(Base(p), r);
    assert (2 * x + 1000000) / 2000000 == (x + 500000) / 1000000;
  }

  // ---------------------------------------------------------------- values

  /** The documented price in exact arithmetic: (0.5 * weight + 0.01 * value) * rate. */
  ghost function ExactPrice(p: Parcel, rate: Decimal): real {
    (0.5 * Value(Decimal(p.weight, -3)) + 0.01 * Value(Decimal(p.declared, -2))) * Value(rate)
  }

  lemma BaseValue(p: Parcel)
    ensures 0.5 * Value(Decimal(p.weight, -3)) + 0.01 * Value(Decimal(p.declared, -2)) == Base(p) as real / 10000.0
  {
    Pow10Values();
    assert Pow10(3) == 10 * Pow10(2) == 1000;
  }

  lemma UnitFour(e: int)
    ensures Unit(e) == 10000.0 * Unit(e - 4)
  {
    hide Value;
    ShiftIsMul(1, 4);
    Pow10Values();
    ValueOfShift(1, 4, e - 4);
    ValueOfCoefficient(10000, e - 4);
  }

  /** Both sides of the product law, over the unit of the last digit. */
  lemma ScaleProduct(b: nat, c: nat, u: real)
    ensures Scale(Times(b, c), u) == (b as real / 10000.0) * Scale(c, 10000.0 * u)
  {
    RealProduct(b, c);
    var x, y := b as real, c as real;
    assert (x / 10000.0) * (y * (10000.0 * u)) == x * y * u;
  }

  lemma ProductValue(p: Parcel, rate: Decimal)
    ensures Value(Decimal(Product(p, rate), rate.exp - 4)) == (Base(p) as real / 10000.0) * Value(rate)
  {
    hide Value, Scale, Times;
    ValueOfCoefficient(Product(p, rate), rate.exp - 4);
    ValueOfCoefficient(rate.coeff, rate.exp);
    UnitFour(rate.exp);
    ScaleProduct(Base(p), rate.coeff, Unit(rate.exp - 4));
  }

  /**
   * The formula's value is the documented price in exact arithmetic exactly when the digits that
   * do not fit the context are zeros.
   */
  lemma FormulaValue(p: Parcel, rate: Decimal)
    requires FitsColumns(p)
    ensures Value(Formula(Decimal(p.weight, -3), Decimal(p.declared, -2), rate)) == ExactPrice(p, rate)
        <==> Product(p, rate) % Ulp(Product(p, rate)) == 0
  {
    hide Formula, Value, ContextRound, Product, Rounded, StoredCost, Ulp, Scale, Unit, Base, Digits;
    FormulaRounds(p, rate);
    BaseValue(p);
    ProductValue(p, rate);
    var x, e := Product(p, rate), rate.exp - 4;
    var r := ContextRound(Decimal(x, e));
    ContextRoundIsRounded(Decimal(x, e));
    ValueAt(r, e);
    ValueOfCoefficient(x, e);
    ScaleOrder(x, Rounded(x), Unit(e));
    ScaleOrder(Rounded(x), x, Unit(e));
    RoundedKeeps(x);
  }

  /** A heavier or dearer parcel, or a higher rate, never costs less. */
  lemma CostMonotone(p: Parcel, q: Parcel, low: Decimal, high: Decimal)
    requires FitsColumns(p) && FitsColumns(q) && p.weight <= q.weight && p.declared <= q.declared
    requires Value(low) <= Value(high)
    ensures StoredCost(p, low) <= StoredCost(q, high)
  {
    hide StoredCost, Value, Stored, Product, Formula;
    FormulaRounds(p, low);
    FormulaRounds(q, high);
    ProductValue(p, low);
    ProductValue(q, high);
    ValueOfCoefficient(low.coeff, low.exp);
    RealMonotone(Base(p) as real / 10000.0, Base(q) as real / 10000.0, Value(low), Value(high));
    StoredMonotone(Decimal(Product(p, low), low.exp - 4), Decimal(Product(q, high), high.exp - 4));
  }

  lemma RealMonotone(a: real, b: real, x: real, y: real)
    requires 0.0 <= a <= b && 0.0 <= x <= y
    ensures a * x <= b * y
  {
    assert a * x <= b * x;
    assert b * x <= b * y;
  }

  // ---------------------------------------------------------------- prices that fit

  /** Kopecks, times 10^17, from which on the context rounds up to a half kopeck below the limit. */
  const HALF_BELOW_LIMIT := 99999999999949999999999999995

  lemma MorePowers()
    ensures Pow10(1) == 10 && Pow10(16) == 10000000000000000 && Pow10(17) == 100000000000000000
    ensures Pow10(19) == 10000000000000000000 && Pow10(29) == 100000000000000000000000000000
  {
    assert Pow10(1) == 10 * Pow10(0);
    Pow10Values();
    Pow10Sum(4, 4);
    Pow10Sum(8, 8);
    Pow10Sum(1, 16);
    Pow10Sum(2, 17);
    Pow10Sum(1, 28);
  }

  /** The least number that is stored as one kopeck too many. */
  lemma FirstUnfit()
    ensures Stored(HALF_BELOW_LIMIT, -19) == MONEY_LIMIT
  {
    hide Stored, StoreHundredths, Rounded, Pow10, Ulp;
    RoundLast(HALF_BELOW_LIMIT);
    StoredIsRounded(HALF_BELOW_LIMIT, -19);
    MorePowers();
    StoreFraction(99999999999950000000000000000, 17, 100000000000000000);
  }

  /** How a coefficient of 29 digits loses its last one. */
  lemma RoundLast(c: nat)
    requires TOO_LONG <= c < 10 * TOO_LONG
    ensures Ulp(c) == 10
    ensures Rounded(c) == if c % 10 > 5 || (c % 10 == 5 && (c / 10) % 2 == 1) then 10 * (c / 10 + 1) else 10 * (c / 10)
  {
    Pow10Values();
    MorePowers();
    DigitsBound(c, 28);
    DigitsBound(c, 29);
    assert Drop(c, 0) == c && Drop(c, 1) == Drop(c, 0) / 10;
    assert !Sticky(c, 0);
    var q := HalfEven(c, 1);
    assert Shift(q, 1) == 10 * Shift(q, 0) == 10 * q;
  }

  /** The largest rounded number that is stored as less than the limit, in kopecks times 10^16. */
  const LAST_FIT := 9999999999994999999999999999

  lemma LastFit()
    ensures StoreHundredths(Decimal(LAST_FIT, -18)) < MONEY_LIMIT
  {
    hide StoreHundredths, Pow10;
    MorePowers();
    StoreFraction(LAST_FIT, 16, 10000000000000000);
  }

  lemma LongBelow(x: nat, u: nat, q: nat)
    requires 2 * x < 2 * (u * LAST_FIT) + u && 2 * Distance(u * q, x) <= u
    ensures u * q <= u * LAST_FIT
  {
    MulGap(u, LAST_FIT, q);
    if q <= LAST_FIT {
      MulLe(u, q, LAST_FIT);
    }
  }

  /** Below the first number that does not fit, nothing rounds past the last one that does. */
  lemma BelowHalf(x: nat, m: nat)
    requires x < Shift(HALF_BELOW_LIMIT, m)
    ensures Rounded(x) <= Shift(LAST_FIT, m + 1)
  {
    hide Rounded, Shift, Digits, Pow10;
    var p, n := Pow10(m), Digits(x);
    ShiftIsMul(HALF_BELOW_LIMIT, m);
    ShiftIsMul(LAST_FIT, m + 1);
    Pow10Sum(1, m);
    Pow10Sum(m, 28);
    Pow10Sum(m, 29);
    MorePowers();
    Pow10Values();
    DigitsBound(x, 29 + m);
    if n < 29 + m {
      RoundedBetween(x);
      Pow10Monotone(n, m + 28);
    } else {
      var q := RoundedNearest(x);
      LongBelow(x, Ulp(x), q);
    }
  }

  /** A price fits its column exactly when it is below the limit by more than a half kopeck and a half digit. */
  lemma FitsBelow(x: nat, e: int)
    ensures Stored(x, e) < MONEY_LIMIT <==> Value(Decimal(x, e)) < Value(Decimal(HALF_BELOW_LIMIT, -19))
  {
    hide Stored, Value, StoreHundredths, Rounded;
    var a, b := Decimal(x, e), Decimal(HALF_BELOW_LIMIT, -19);
    if Value(b) <= Value(a) {
      StoredMonotone(b, a);
      FirstUnfit();
    } else {
      var l := Lower(a, b);
      var y, m := At(a, l), -19 - l;
      ValueOrder(b, a, l);
      BelowHalf(y, m);
      StoreMonotone(Rounded(y), Shift(LAST_FIT, m + 1), l);
      StoreShifted(LAST_FIT, m + 1, l);
      StoredShifted(x, e - l, l);
      StoredIsRounded(y, l);
      LastFit();
    }
  }

  /** The price of the largest parcel before the rate, in US dollars. */
  const LARGEST_BASE: real := 104999999.9994

  /** The least exact price, in roubles, that MySQL refuses. */
  const REFUSED: real := 9999999999.9949999999999999995

  lemma HalfBelowLimit()
    ensures Value(Decimal(HALF_BELOW_LIMIT, -19)) == REFUSED
  {
    hide Pow10, Value;
    MorePowers();
    ValueOfFraction(HALF_BELOW_LIMIT, 19);
  }

  /** Two roundings later, a price fits its column exactly when the exact price is below one number. */
  lemma PriceFitsExactly(p: Parcel, rate: Decimal)
    requires FitsColumns(p)
    ensures PriceFits(p, rate) <==> ExactPrice(p, rate) < REFUSED
  {
    hide StoredCost, Stored, Value, Formula, Product;
    FormulaRounds(p, rate);
    BaseValue(p);
    ProductValue(p, rate);
    FitsBelow(Product(p, rate), rate.exp - 4);
    HalfBelowLimit();
  }

  /** The rates, of any length and exponent, at which every parcel has a price that fits. */
  lemma EveryPriceFits(rate: Decimal)
    ensures (forall p :: FitsColumns(p) ==> PriceFits(p, rate)) <==> LARGEST_BASE * Value(rate) < REFUSED
  {
    hide StoredCost, Value;
    assert FitsColumns(LARGEST);
    BaseValue(LARGEST);
    PriceFitsExactly(LARGEST, rate);
    if PriceFits(LARGEST, rate) {
      forall p | FitsColumns(p)
        ensures PriceFits(p, rate)
      {
        CostMonotone(p, LARGEST, rate, rate);
      }
    }
  }

  /** Among the four-decimal rates these are the ones up to 95.2380. */
  lemma SafeRates(r: nat)
    ensures (forall p :: FitsColumns(p) ==> PriceFits(p, Decimal(r, -4))) <==> r <= MAX_SAFE_RATE
  {
    hide StoredCost, Value, Pow10;
    EveryPriceFits(Decimal(r, -4));
    Pow10Values();
    ValueOfFraction(r, 4);
    assert Value(Decimal(r, -4)) == r as real / 10000.0;
    SafeThreshold(r);
  }

  lemma SafeThreshold(r: nat)
    ensures LARGEST_BASE * (r as real / 10000.0) < REFUSED <==> r <= MAX_SAFE_RATE
  {
  }
}
