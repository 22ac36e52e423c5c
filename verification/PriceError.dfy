/**
 * How far a stored price is from the exact one. The context and the column round one after the
 * other, so a price can miss the nearest kopeck; this says when, and by how much at most.
 */
module PriceError {
  import opened Wrappers
  import opened Parcels
  import opened Decimals
  import opened Rounding
  import opened Pricing

  // ---------------------------------------------------------------- two roundings in a row

  /** Multiples of `u`, where `uq` stands for `u * q` and `ut` for `u * top`. */
  predicate Spaced(u: nat, q: nat, uq: nat, top: nat, ut: nat) {
    && (q < top ==> uq + u <= ut)
    && (q + 1 < top ==> uq + 2 * u <= ut)
    && (top < q ==> ut + u <= uq)
    && (q == top ==> uq == ut)
  }

  lemma Multiples(u: nat, q: nat, top: nat)
    ensures Spaced(u, q, u * q, top, u * top)
  {
    MulGap(u, q, top);
    MulGap(u, q + 1, top);
    MulGap(u, top, q);
    NextMultiple(u, q);
  }

  /** Where the nearest multiple lies when `x` is `s / 2` below the even multiple `ut`. */
  lemma FirstRounding(x: nat, u: nat, q: nat, uq: nat, top: nat, ut: nat, s: int)
    requires u >= 1 && top % 2 == 0 && 2 * x == 2 * ut - s && Spaced(u, q, uq, top, ut)
    requires 2 * Distance(uq, x) <= u && (2 * Distance(uq, x) == u ==> q % 2 == 0)
    ensures s <= 0 ==> uq >= ut
    ensures 0 < s <= u ==> uq == ut
    ensures s > u ==> uq < ut
  {
  }

  lemma SecondRounding(y: nat, d: nat, m: nat)
    requires d >= 1 && 2 * (d * m) - d <= 2 * y < 2 * (d * m) + d
    ensures RoundHalfUp(y, d) == m
  {
    assert (2 * d) * m == 2 * (d * m);
    DivUnique(2 * y + d, 2 * d, m);
  }

  /** How far `x` is below half way to the next multiple of `d`, doubled. */
  function Short(x: nat, d: nat): int
    requires d >= 1
  {
    d - 2 * (x % d)
  }

  function Whole(x: nat, d: nat): nat
    requires d >= 1
  {
    x / d
  }

  function HalfTop(w: nat, m: nat): (top: nat)
    ensures top % 2 == 0
  {
    20 * (w * m) + 10 * w
  }

  lemma Remainder(x: nat, d: nat)
    requires d >= 1
    ensures var m := Whole(x, d); d * m <= x < d * m + d && Short(x, d) == 2 * (d * m) + d - 2 * x
  {
    assert x == d * (x / d) + x % d;
  }

  lemma TwoRoundingsAt(x: nat, u: nat, q: nat, top: nat, d: nat, m: nat)
    requires 1 <= u && 20 * u <= d && top % 2 == 0 && 2 * (u * top) == 2 * (d * m) + d
    requires d * m <= x < d * m + d
    requires 2 * Distance(u * q, x) <= u && (2 * Distance(u * q, x) == u ==> q % 2 == 0)
    ensures RoundHalfUp(u * q, d) == if 2 * (d * m) + d - 2 * x <= u then m + 1 else m
  {
    Multiples(u, q, top);
    NextMultiple(d, m);
    var uq, ut, dm, s := u * q, u * top, d * m, 2 * (d * m) + d - 2 * x;
    hide *;
    FirstRounding(x, u, q, uq, top, ut, s);
    Between(x, u, uq, ut, d, dm, s);
    if s <= u {
      SecondRounding(uq, d, m + 1);
    } else {
      SecondRounding(uq, d, m);
    }
  }

  lemma Between(x: nat, u: nat, uq: nat, ut: nat, d: nat, dm: nat, s: int)
    requires 20 * u <= d && 2 * ut == 2 * dm + d && 2 * x == 2 * ut - s && dm <= x < dm + d
    requires 2 * Distance(uq, x) <= u
    requires if s <= u then uq >= ut else uq < ut
    ensures if s <= u then 2 * (dm + d) - d <= 2 * uq < 2 * (dm + d) + d else 2 * dm - d <= 2 * uq < 2 * dm + d
  {
  }

  lemma HalfWay(u: nat, w: nat, m: nat, d: nat)
    requires d == 20 * (u * w)
    ensures 2 * (u * HalfTop(w, m)) == 2 * (d * m) + d
  {
    assert u * (20 * (w * m) + 10 * w) == 20 * ((u * w) * m) + 10 * (u * w);
  }

  /**
   * After a first rounding to a unit that divides a twentieth of `d`, the second goes wrong exactly
   * when `x` is below half way by no more than the first rounding can bridge.
   */
  lemma TwoAgainstOne(x: nat, u: nat, q: nat, w: nat, d: nat)
    requires u >= 1 && w >= 1 && d >= 1 && d == 20 * (u * w)
    requires 2 * Distance(u * q, x) <= u && (2 * Distance(u * q, x) == u ==> q % 2 == 0)
    ensures RoundHalfUp(u * q, d) == RoundHalfUp(x, d) <==> !(0 < Short(x, d) <= u)
    ensures 2 * Distance(d * RoundHalfUp(u * q, d), x) <= d <==> !(0 < Short(x, d) <= u)
  {
    hide RoundHalfUp, Short, Whole, HalfTop;
    var m := Whole(x, d);
    HalfWay(u, w, m, d);
    MulLe(u, 1, w);
    Remainder(x, d);
    TwoRoundingsAt(x, u, q, HalfTop(w, m), d, m);
    NextMultiple(d, m);
    if Short(x, d) <= 0 {
      SecondRounding(x, d, m + 1);
    } else {
      SecondRounding(x, d, m);
    }
  }

  // ---------------------------------------------------------------- prices

  lemma PowersApart(a: nat, b: nat) returns (w: nat)
    requires a + 2 <= b
    ensures w >= 1 && Pow10(b) == 20 * (Pow10(a) * w)
  {
    Pow10Sum(a, b - a);
    Pow10Sum(2, b - a - 2);
    Pow10Values();
    hide Pow10;
    w := 5 * Pow10(b - a - 2);
    Hundredfold(Pow10(a), Pow10(b - a - 2));
  }

  lemma Hundredfold(p: nat, q: nat)
    ensures p * (100 * q) == 20 * (p * (5 * q))
  {
  }

  lemma QuotientBelow(r: nat, e: int, limit: nat)
    requires NearestKopeck(r, e) < limit
    ensures r < Fine(e) * limit
  {
    hide RoundHalfUp, Fine, Coarse;
    var c, u, d := NearestKopeck(r, e), Coarse(e), Fine(e);
    RoundingError(Times(u, r), d);
    MulLe(d, c + 1, limit);
    NextMultiple(d, c);
    MulLe(r, 1, u);
  }

  lemma PowerBelow(n: nat, k: nat)
    requires Pow10(n) < Pow10(k) * MONEY_LIMIT
    ensures n < k + 12
  {
    hide Pow10;
    Pow10Sum(k, 12);
    Pow10Sum(6, 6);
    Pow10Values();
    if n >= k + 12 {
      Pow10Monotone(k + 12, n);
    }
  }

  lemma FineIsPower(e: int)
    ensures Fine(e) == Pow10(if e <= -2 then -2 - e else 0)
  {
  }

  lemma LongIsPositive(x: nat)
    requires Digits(x) > PRECISION
    ensures x > 0
  {
  }

  /** A price that fits keeps sixteen digits after the kopecks, however it was rounded. */
  lemma FineEnough(x: nat, e: int)
    requires Digits(x) > PRECISION && Stored(x, e) < MONEY_LIMIT
    ensures e < -2 && Digits(x) - PRECISION + 16 <= -2 - e
  {
    hide Stored, StoreHundredths, Rounded, NearestKopeck, Fine, Digits, Pow10;
    var k := if e <= -2 then -2 - e else 0;
    FineIsPower(e);
    LongIsPositive(x);
    StoredIsRounded(x, e);
    StoreIsRounding(Rounded(x), e);
    QuotientBelow(Rounded(x), e, MONEY_LIMIT);
    RoundedBetween(x);
    PowerBelow(Digits(x) - 1, k);
  }

  /** The context has to round, and the kopecks are below half by no more than that can bridge. */
  predicate RoundsTwice(x: nat, e: int) {
    x >= TOO_LONG && 0 < Short(x, Fine(e)) <= Ulp(x)
  }

  lemma StoredTwice(x: nat, e: int)
    requires Stored(x, e) < MONEY_LIMIT
    ensures Stored(x, e) == NearestKopeck(x, e) <==> !RoundsTwice(x, e)
    ensures WithinHalf(Stored(x, e), x, e) <==> !RoundsTwice(x, e)
  {
    hide Stored, StoreHundredths, Rounded, RoundHalfUp, Digits, Pow10, Short, NearestKopeck, WithinHalf;
    StoredIsRounded(x, e);
    StoreIsRounding(Rounded(x), e);
    Pow10Values();
    DigitsBound(x, PRECISION);
    var q := RoundedNearest(x);
    if Digits(x) > PRECISION {
      FineEnough(x, e);
      var w := PowersApart(Digits(x) - PRECISION, -2 - e);
      TwoAgainstOne(x, Ulp(x), q, w, Fine(e));
      BelowKopeck(x, e);
      BelowKopeck(Rounded(x), e);
      assert Stored(x, e) == RoundHalfUp(Ulp(x) * q, Fine(e));
    } else {
      NearestIsWithinHalf(x, e);
    }
  }

  /** Below the kopeck the two scale factors are a power of ten and one. */
  lemma BelowKopeck(x: nat, e: int)
    requires e < -2
    ensures NearestKopeck(x, e) == RoundHalfUp(x, Fine(e))
    ensures forall c: nat :: WithinHalf(c, x, e) <==> 2 * Distance(Fine(e) * c, x) <= Fine(e)
  {
    hide RoundHalfUp, Pow10;
  }

  lemma NearestIsWithinHalf(x: nat, e: int)
    ensures WithinHalf(NearestKopeck(x, e), x, e)
  {
    hide RoundHalfUp, Fine, Coarse;
    RoundingError(Times(Coarse(e), x), Fine(e));
  }

  /**
   * A price that fits is within half a kopeck of the exact one, and is the exact one rounded once,
   * exactly when the two roundings do not meet just below half a kopeck.
   */
  lemma HalfKopeckExactly(p: Parcel, rate: Decimal)
    requires FitsColumns(p) && PriceFits(p, rate)
    ensures var e, x := rate.exp - 4, Product(p, rate);
            && (StoredCost(p, rate) == NearestKopeck(x, e) <==> !RoundsTwice(x, e))
            && (WithinHalf(StoredCost(p, rate), x, e) <==> !RoundsTwice(x, e))
  {
    hide StoredCost, Stored, NearestKopeck, WithinHalf, RoundsTwice;
    FormulaRounds(p, rate);
    StoredTwice(Product(p, rate), rate.exp - 4);
  }

  const MISSED := Parcel("", 1, 664224577872, "", "", None, None)
  const LONG_RATE := Decimal(55877762333905935, -15)

  /** A 17-digit rate whose price, 371153830989.49999999999999995 kopecks, is stored rounded up. */
  lemma KopeckMissed()
    ensures FitsColumns(MISSED) && Product(MISSED, LONG_RATE) == 37115383098949999999999999995
    ensures StoredCost(MISSED, LONG_RATE) == 371153830990 && PriceFits(MISSED, LONG_RATE)
    ensures RoundsTwice(Product(MISSED, LONG_RATE), -19) && !WithinHalf(371153830990, Product(MISSED, LONG_RATE), -19)
  {
    hide StoredCost, Stored, Formula, RoundsTwice, WithinHalf;
    assert Product(MISSED, LONG_RATE) == 664224577877 * 55877762333905935;
    FormulaRounds(MISSED, LONG_RATE);
    MissedStored();
    StoredTwice(37115383098949999999999999995, -19);
  }

  lemma MissedStored()
    ensures Stored(37115383098949999999999999995, -19) == 371153830990
    ensures RoundsTwice(37115383098949999999999999995, -19)
  {
    hide Stored, StoreHundredths, Rounded, Pow10, Ulp, RoundHalfUp;
    MorePowers();
    RoundLast(37115383098949999999999999995);
    StoredIsRounded(37115383098949999999999999995, -19);
    StoreFraction(37115383098950000000000000000, 17, 100000000000000000);
    SecondRounding(37115383098950000000000000000, 100000000000000000, 371153830990);
  }

  // ---------------------------------------------------------------- the largest error

  lemma ErrorOfStored(x: nat, e: int, long: nat)
    requires long == (if x < TOO_LONG then 0 else Ulp(x))
    ensures 2 * Distance(Times(Fine(e), Stored(x, e)), Times(Coarse(e), x)) <= Fine(e) + Times(Coarse(e), long)
  {
    hide Stored, StoreHundredths, Rounded, RoundHalfUp, Digits, Pow10, Fine, Coarse;
    StoredIsRounded(x, e);
    StoreIsRounding(Rounded(x), e);
    Pow10Values();
    DigitsBound(x, PRECISION);
    var q := RoundedNearest(x);
    RoundingError(Times(Coarse(e), Rounded(x)), Fine(e));
    ScaledError(Coarse(e), Rounded(x), x, long);
  }

  lemma ScaledError(u: nat, r: nat, x: nat, long: nat)
    requires 2 * Distance(r, x) <= long
    ensures -(u * long) <= 2 * (u * r) - 2 * (u * x) <= u * long
  {
    MulLe(u, 2 * r, 2 * x + long);
    MulLe(u, 2 * x, 2 * r + long);
  }

  /**
   * For every parcel and rate the stored price is within half a kopeck of the exact one, plus half
   * a unit of the last digit kept where the context has to round: at most one part in 2 * 10^27.
   */
  lemma CostError(p: Parcel, rate: Decimal)
    requires FitsColumns(p)
    ensures var e, x := rate.exp - 4, Product(p, rate);
            var long := if x < TOO_LONG then 0 else Ulp(x);
            && 2 * Distance(Times(Fine(e), StoredCost(p, rate)), Times(Coarse(e), x)) <= Fine(e) + Times(Coarse(e), long)
            && 1000000000000000000000000000 * long <= x
  {
    hide StoredCost, Stored, Ulp, Fine, Coarse, Digits, Pow10;
    FormulaRounds(p, rate);
    var x := Product(p, rate);
    ErrorOfStored(x, rate.exp - 4, if x < TOO_LONG then 0 else Ulp(x));
    if x >= TOO_LONG {
      Pow10Values();
      DigitsBound(x, PRECISION);
      UlpBounds(x);
    }
  }
}
