/**
 * Rounding to the context's 28 digits, read as a map on integers: it goes to the nearest number of
 * at most 28 digits, keeps order and does not depend on the scale a number is written at.
 */
module Rounding {
  import opened Decimals

  /** The unit of the last digit that is kept. */
  function Ulp(c: nat): (u: nat)
    ensures u >= 1
  {
    if Digits(c) <= PRECISION then 1 else Pow10(Digits(c) - PRECISION)
  }

  /** A coefficient rounded to 28 significant digits, at its own scale. */
  function Rounded(c: nat): nat {
    if Digits(c) <= PRECISION then c else
      var k := Digits(c) - PRECISION;
      Shift(HalfEven(c, k), k)
  }

  function Distance(a: int, b: int): nat {
    if a <= b then b - a else a - b
  }

  // ---------------------------------------------------------------- scale

  lemma {:induction false} ShiftMore(c: nat, n: nat)
    ensures Shift(10 * c, n) == 10 * Shift(c, n)
  {
    if n > 0 {
      ShiftMore(c, n - 1);
    }
  }

  lemma {:induction false} DropMore(c: nat, k: nat)
    ensures Drop(10 * c, k + 1) == Drop(c, k)
  {
    if k > 0 {
      DropMore(c, k - 1);
    }
  }

  lemma HalfEvenMore(c: nat, k: nat)
    requires k >= 1
    ensures HalfEven(10 * c, k + 1) == HalfEven(c, k)
  {
    DropMore(c, k);
    DropMore(c, k - 1);
    assert Sticky(10 * c, k) <==> Sticky(c, k - 1);
  }

  lemma RoundedTen(c: nat)
    ensures Rounded(10 * c) == 10 * Rounded(c)
  {
    if c > 0 {
      assert Digits(10 * c) == 1 + Digits(c);
      if Digits(c) == PRECISION {
        assert Drop(10 * c, 1) == Drop(10 * c, 0) / 10 == c;
        assert HalfEven(10 * c, 1) == c;
        assert Shift(c, 1) == 10 * Shift(c, 0) == 10 * c;
      } else if Digits(c) > PRECISION {
        HalfEvenMore(c, Digits(c) - PRECISION);
      }
    }
  }

  /** Trailing zeros do not change what a number rounds to. */
  lemma {:induction false} RoundedShift(c: nat, n: nat)
    ensures Rounded(Shift(c, n)) == Shift(Rounded(c), n)
  {
    hide Rounded;
    if n > 0 {
      RoundedShift(c, n - 1);
      RoundedTen(Shift(c, n - 1));
    }
  }

  // ---------------------------------------------------------------- the context

  lemma HalfEvenBetween(c: nat, k: nat)
    requires k >= 1
    ensures Drop(c, k) <= HalfEven(c, k) <= Drop(c, k) + 1
  {
  }

  /** A long coefficient keeps 28 digits, or rounds up to 10^28. */
  lemma HalfEvenLength(c: nat)
    requires Digits(c) > PRECISION
    ensures var q := HalfEven(c, Digits(c) - PRECISION);
            && Pow10(PRECISION - 1) <= q <= Pow10(PRECISION)
            && (Digits(q) > PRECISION <==> q == Pow10(PRECISION))
  {
    hide HalfEven, Pow10;
    var k := Digits(c) - PRECISION;
    HalfEvenBetween(c, k);
    DropDigits(c, k);
    hide Digits, Drop;
    DigitsBound(Drop(c, k), PRECISION);
    DigitsBound(Drop(c, k), PRECISION - 1);
    DigitsBound(HalfEven(c, k), PRECISION);
  }

  /** A product with its carry: what the context keeps is the rounded integer, in at most 28 digits. */
  lemma ContextRoundIsRounded(d: Decimal)
    ensures var r := ContextRound(d);
            r.exp >= d.exp && Shift(r.coeff, r.exp - d.exp) == Rounded(d.coeff) && Digits(r.coeff) <= PRECISION
  {
    hide HalfEven, Digits, Shift, Pow10;
    if Digits(d.coeff) > PRECISION {
      var k := Digits(d.coeff) - PRECISION;
      var q := HalfEven(d.coeff, k);
      HalfEvenLength(d.coeff);
      if Digits(q) > PRECISION {
        Pow10Values();
        DigitsBound(q / 10, PRECISION);
        ShiftTwice(q / 10, 1, k);
        ShiftIsMul(q / 10, 1);
        TenToTheOne();
      }
    } else {
      NoShift(d.coeff);
    }
  }

  lemma TenToTheOne()
    ensures Pow10(1) == 10
  {
    assert Pow10(0) == 1;
  }

  lemma NoShift(c: nat)
    ensures Shift(c, 0) == c
  {
  }

  lemma UlpBounds(c: nat)
    requires Digits(c) > PRECISION
    ensures Ulp(c) * Pow10(PRECISION - 1) == Pow10(Digits(c) - 1) && Ulp(c) * Pow10(PRECISION) == Pow10(Digits(c))
    ensures Pow10(Digits(c) - 1) <= c < Pow10(Digits(c))
  {
    hide Digits, Pow10;
    var k := Digits(c) - PRECISION;
    Pow10Sum(k, PRECISION - 1);
    Pow10Sum(k, PRECISION);
    DigitsBound(c, Digits(c));
    DigitsBound(c, Digits(c) - 1);
  }

  /** The rounded number is a multiple of the unit kept, within half of it, even when half way. */
  lemma RoundedNearest(c: nat) returns (q: nat)
    ensures Rounded(c) == Ulp(c) * q
    ensures Digits(c) <= PRECISION ==> Rounded(c) == c && Ulp(c) == 1
    ensures Digits(c) > PRECISION ==>
              && 2 * Distance(Rounded(c), c) <= Ulp(c)
              && (2 * Distance(Rounded(c), c) == Ulp(c) ==> q % 2 == 0)
              && Pow10(PRECISION - 1) <= q <= Pow10(PRECISION)
  {
    hide HalfEven, Digits, Shift, Pow10;
    q := c;
    if Digits(c) > PRECISION {
      var k := Digits(c) - PRECISION;
      q := HalfEven(c, k);
      ShiftIsMul(q, k);
      HalfEvenNearest(c, k);
      HalfEvenLength(c);
    }
  }

  /** A number is its own rounding exactly when the digits after the last one kept are zeros. */
  lemma RoundedKeeps(c: nat)
    ensures Rounded(c) == c <==> c % Ulp(c) == 0
  {
    hide Rounded, Ulp;
    var q := RoundedNearest(c);
    hide *;
    MultipleKept(Ulp(c), c, q);
  }

  lemma MultipleKept(u: nat, c: nat, q: nat)
    requires u >= 1 && (2 * Distance(u * q, c) <= u || (u == 1 && q == c))
    ensures u * q == c <==> c % u == 0
  {
    if c % u == 0 {
      MultipleOf(u, c);
      var m :| c == u * m;
      MulGap(u, q, m);
      MulGap(u, m, q);
    } else if u * q == c {
      ModOfMultiple(u, q);
    }
  }

  lemma MultipleOf(u: nat, c: nat)
    requires u >= 1 && c % u == 0
    ensures exists m: nat :: c == u * m
  {
    assert c == u * (c / u);
  }

  lemma ModOfMultiple(u: nat, q: nat)
    requires u >= 1
    ensures (u * q) % u == 0
  {
    DivUnique(u * q, u, q);
  }

  /** A rounded number stays between the powers of ten around it. */
  lemma RoundedBetween(c: nat)
    ensures Rounded(c) <= Pow10(Digits(c))
    ensures c > 0 ==> Pow10(Digits(c) - 1) <= Rounded(c)
  {
    hide Rounded;
    var q := RoundedNearest(c);
    if Digits(c) > PRECISION {
      UlpBounds(c);
      MulLe(Ulp(c), q, Pow10(PRECISION));
      MulLe(Ulp(c), Pow10(PRECISION - 1), q);
    } else {
      DigitsBound(c, Digits(c));
      if Digits(c) > 1 {
        DigitsBound(c, Digits(c) - 1);
      }
    }
  }

  lemma {:induction false} DigitsMonotone(a: nat, b: nat)
    requires a <= b
    ensures Digits(a) <= Digits(b)
  {
    if a >= 10 {
      DigitsMonotone(a / 10, b / 10);
    }
  }

  lemma {:induction false} Pow10Monotone(a: nat, b: nat)
    requires a <= b
    ensures Pow10(a) <= Pow10(b)
  {
    if a < b {
      Pow10Monotone(a, b - 1);
    }
  }

  /** Two neighbours cannot both be half way towards each other and even. */
  lemma NearestInOrder(u: nat, a: nat, p: nat, b: nat, q: nat)
    requires u >= 1 && a <= b
    requires 2 * Distance(u * p, a) <= u && (2 * Distance(u * p, a) == u ==> p % 2 == 0)
    requires 2 * Distance(u * q, b) <= u && (2 * Distance(u * q, b) == u ==> q % 2 == 0)
    ensures u * p <= u * q
  {
    MulGap(u, q, p);
    MulGap(u, q + 1, p);
    assert u * (q + 1) == u * q + u;
    if q >= p {
      MulLe(u, p, q);
    }
  }

  /** A larger number never rounds to less. */
  lemma RoundedMonotone(a: nat, b: nat)
    requires a <= b
    ensures Rounded(a) <= Rounded(b)
  {
    hide Rounded, Pow10, Digits;
    DigitsMonotone(a, b);
    if Digits(a) < Digits(b) {
      RoundedBetween(a);
      RoundedBetween(b);
      Pow10Monotone(Digits(a), Digits(b) - 1);
    } else {
      var p := RoundedNearest(a);
      var q := RoundedNearest(b);
      if Digits(b) > PRECISION {
        NearestInOrder(Ulp(a), a, p, b, q);
      }
    }
  }

  // ---------------------------------------------------------------- values

  lemma {:induction false} ValueOfShift(c: nat, n: nat, e: int)
    ensures Value(Decimal(Shift(c, n), e)) == Value(Decimal(c, e + n))
  {
    if n > 0 {
      ValueOfShift(c, n - 1, e + 1);
      ShiftMore(c, n - 1);
      ValueOfTen(Shift(c, n - 1), e);
    }
  }

  lemma ValueOfTen(c: nat, e: int)
    ensures Value(Decimal(10 * c, e)) == Value(Decimal(c, e + 1))
  {
    if e >= 0 {
      assert (10 * c) * Pow10(e) == c * Pow10(e + 1);
    } else {
      var p, r := Pow10(-e - 1), (10 * c) as real;
      assert Pow10(-e) == 10 * p;
      assert e + 1 == 0 ==> p == 1;
      TenOverTen(c as real, p as real);
    }
  }

  lemma TenOverTen(c: real, p: real)
    requires p != 0.0
    ensures (10.0 * c) / (10.0 * p) == c / p
  {
    assert c / p * (10.0 * p) == 10.0 * c;
  }

  /** What a coefficient of one stands for. */
  ghost function Unit(e: int): real {
    Value(Decimal(1, e))
  }

  ghost function Scale(c: nat, u: real): real {
    c as real * u
  }

  lemma ValueOfWhole(c: nat, e: nat)
    ensures Value(Decimal(c, e)) == Scale(c, Pow10(e) as real)
  {
    RealProduct(c, Pow10(e));
  }

  lemma ValueOfCoefficient(c: nat, e: int)
    ensures Unit(e) > 0.0 && Value(Decimal(c, e)) == Scale(c, Unit(e))
  {
    if e >= 0 {
      ValueOfWhole(c, e);
      assert Unit(e) == Pow10(e) as real;
      hide Pow10, Value;
    } else {
      var p := Pow10(-e) as real;
      OverOne(c as real, p);
      hide Pow10;
    }
  }

  lemma OverOne(c: real, p: real)
    requires p > 0.0
    ensures 1.0 / p > 0.0 && c / p == c * (1.0 / p)
  {
    assert 1.0 / p * p == 1.0;
    assert c * (1.0 / p) * p == c;
  }

  function Lower(a: Decimal, b: Decimal): int {
    if a.exp <= b.exp then a.exp else b.exp
  }

  /** The coefficient of `d` written at the exponent `e`. */
  function At(d: Decimal, e: int): nat
    requires e <= d.exp
  {
    Shift(d.coeff, d.exp - e)
  }

  lemma ValueAt(d: Decimal, e: int)
    requires e <= d.exp
    ensures Unit(e) > 0.0 && Value(d) == Scale(At(d, e), Unit(e))
  {
    hide Value;
    ValueOfShift(d.coeff, d.exp - e, e);
    ValueOfCoefficient(At(d, e), e);
  }

  /** Decimals compare as their coefficients do at a common exponent. */
  lemma ValueOrder(a: Decimal, b: Decimal, e: int)
    requires e <= a.exp && e <= b.exp
    ensures Value(a) <= Value(b) <==> At(a, e) <= At(b, e)
  {
    hide Value, At;
    ValueAt(a, e);
    ValueAt(b, e);
    ScaleOrder(At(a, e), At(b, e), Unit(e));
  }

  lemma ScaleOrder(x: nat, y: nat, u: real)
    requires u > 0.0
    ensures Scale(x, u) <= Scale(y, u) <==> x <= y
  {
  }

  ghost function Gap(x: real, y: real): real {
    if x <= y then y - x else x - y
  }

  lemma ScaleGap(x: nat, y: nat, u: real)
    requires u > 0.0
    ensures Gap(Scale(x, u), Scale(y, u)) == Scale(Distance(x, y), u)
  {
    ScaleOrder(x, y, u);
    if x <= y {
      assert (y - x) as real * u == y as real * u - x as real * u;
    } else {
      assert (x - y) as real * u == x as real * u - y as real * u;
    }
  }

  /** No multiple of the unit is nearer than one within half a unit. */
  lemma NearestMultiple(u: nat, c: nat, q: nat, m: nat)
    requires 2 * Distance(u * q, c) <= u
    ensures Distance(u * q, c) <= Distance(u * m, c)
  {
    MulGap(u, q, m);
    MulGap(u, m, q);
    assert q == m ==> u * q == u * m;
  }

  lemma MultipleOfUlp(m: nat, n: nat, k: nat)
    requires k <= n
    ensures Shift(m, n) == Pow10(k) * Shift(m, n - k)
  {
    ShiftIsMul(m, n);
    ShiftIsMul(m, n - k);
    Pow10Sum(k, n - k);
    Associate(Pow10(k), Pow10(n - k), m);
  }

  lemma Associate(a: nat, b: nat, c: nat)
    ensures (a * b) * c == a * (b * c)
  {
  }

  lemma ShiftBelow(m: nat, n: nat)
    requires Digits(m) <= PRECISION
    ensures Shift(m, n) <= Pow10(PRECISION + n)
  {
    DigitsBound(m, PRECISION);
    ShiftIsMul(m, n);
    Pow10Sum(n, PRECISION);
    MulLe(Pow10(n), m, Pow10(PRECISION));
  }

  /** No number of at most 28 significant digits is nearer to `c` than `Rounded(c)`. */
  lemma NoneNearer(c: nat, m: nat, n: nat)
    requires Digits(m) <= PRECISION
    ensures Distance(Rounded(c), c) <= Distance(Shift(m, n), c)
  {
    hide Rounded, Pow10, Digits, Shift;
    var q := RoundedNearest(c);
    var k := Digits(c) - PRECISION;
    if k > 0 {
      if k <= n {
        MultipleOfUlp(m, n, k);
        NearestMultiple(Ulp(c), c, q, Shift(m, n - k));
      } else {
        UlpBounds(c);
        ShiftBelow(m, n);
        Pow10Monotone(PRECISION + n, Digits(c) - 1);
        NearestMultiple(Ulp(c), c, q, Pow10(PRECISION - 1));
      }
    }
  }

  /** The context answers with the nearest decimal of at most 28 digits, whatever the exponents. */
  lemma ContextRoundNearest(d: Decimal, s: Decimal)
    requires Digits(s.coeff) <= PRECISION
    ensures Gap(Value(ContextRound(d)), Value(d)) <= Gap(Value(s), Value(d))
  {
    hide Value, ContextRound, Rounded, Gap, Digits, Shift;
    var e, r := Lower(d, s), ContextRound(d);
    var c, n := At(d, e), d.exp - e;
    ContextRoundIsRounded(d);
    RoundedShift(d.coeff, n);
    ShiftTwice(r.coeff, r.exp - d.exp, n);
    assert At(r, e) == Rounded(c);
    NoneNearer(c, s.coeff, s.exp - e);
    assert Distance(At(r, e), c) <= Distance(At(s, e), c);
    ValueAt(r, e);
    ValueAt(d, e);
    ValueAt(s, e);
    hide *;
    ScaleGap(At(r, e), c, Unit(e));
    ScaleGap(At(s, e), c, Unit(e));
    ScaleOrder(Distance(At(r, e), c), Distance(At(s, e), c), Unit(e));
  }

  lemma {:induction false} ShiftTwice(c: nat, a: nat, b: nat)
    ensures Shift(Shift(c, a), b) == Shift(c, a + b)
  {
    if b > 0 {
      ShiftTwice(c, a, b - 1);
    }
  }

  // ---------------------------------------------------------------- the column

  lemma StoreTen(c: nat, e: int)
    ensures StoreHundredths(Decimal(10 * c, e)) == StoreHundredths(Decimal(c, e + 1))
  {
    if e >= -2 {
      ShiftMore(c, e + 2);
    } else if e == -3 {
      assert Drop(10 * c, 1) == Drop(10 * c, 0) / 10 == c;
    } else {
      DropMore(c, -3 - e);
      DropMore(c, -4 - e);
    }
  }

  /** The stored number depends on the value alone. */
  lemma {:induction false} StoreShifted(c: nat, n: nat, e: int)
    ensures StoreHundredths(Decimal(Shift(c, n), e)) == StoreHundredths(Decimal(c, e + n))
  {
    hide StoreHundredths;
    if n > 0 {
      StoreShifted(c, n - 1, e + 1);
      StoreTen(Shift(c, n - 1), e);
    }
  }

  /** Parts of a kopeck in the unit `10^e`, and kopecks in it, of which one is 1. */
  function Fine(e: int): (p: nat)
    ensures p >= 1
  {
    if e <= -2 then Pow10(-2 - e) else 1
  }

  function Coarse(e: int): (p: nat)
    ensures p >= 1
  {
    if e >= -2 then Pow10(e + 2) else 1
  }

  /** `c * 10^e` in kopecks, rounded once, half away from zero. */
  function NearestKopeck(c: nat, e: int): nat {
    RoundHalfUp(Times(Coarse(e), c), Fine(e))
  }

  /** `kopecks` is at most half a kopeck from `c * 10^e`. */
  predicate WithinHalf(kopecks: nat, c: nat, e: int) {
    2 * Distance(Times(Fine(e), kopecks), Times(Coarse(e), c)) <= Fine(e)
  }

  /** Storing is one rounded division, exact above the second decimal. */
  lemma StoreIsRounding(c: nat, e: int)
    ensures StoreHundredths(Decimal(c, e)) == NearestKopeck(c, e)
  {
    if e >= -2 {
      ShiftIsMul(c, e + 2);
      HalfUpIsRounding(Coarse(e) * c, 0);
      assert Pow10(0) == 1;
    } else {
      HalfUpIsRounding(c, -2 - e);
    }
  }

  lemma StoreFraction(c: nat, k: nat, d: nat)
    requires d == Pow10(k)
    ensures StoreHundredths(Decimal(c, -2 - k as int)) == RoundHalfUp(c, d)
  {
    HalfUpIsRounding(c, k);
    hide RoundHalfUp;
  }

  lemma StoreMonotone(a: nat, b: nat, e: int)
    requires a <= b
    ensures StoreHundredths(Decimal(a, e)) <= StoreHundredths(Decimal(b, e))
  {
    hide StoreHundredths, Coarse, Fine, RoundHalfUp;
    StoreIsRounding(a, e);
    StoreIsRounding(b, e);
    MulLe(Coarse(e), a, b);
    MulLe(Fine(e), Times(Coarse(e), a), Times(Coarse(e), b));
    RoundHalfUpMonotone(Times(Coarse(e), a), Fine(e), Times(Coarse(e), b), Fine(e));
  }

  /** The column after the context. */
  function Stored(c: nat, e: int): nat {
    StoreHundredths(ContextRound(Decimal(c, e)))
  }

  lemma StoredIsRounded(c: nat, e: int)
    ensures Stored(c, e) == StoreHundredths(Decimal(Rounded(c), e))
  {
    hide StoreHundredths, ContextRound, Rounded;
    var r := ContextRound(Decimal(c, e));
    ContextRoundIsRounded(Decimal(c, e));
    StoreShifted(r.coeff, r.exp - e, e);
  }

  lemma StoredShifted(c: nat, n: nat, e: int)
    ensures Stored(Shift(c, n), e) == Stored(c, e + n)
  {
    hide Stored, StoreHundredths, Rounded;
    StoredIsRounded(Shift(c, n), e);
    StoredIsRounded(c, e + n);
    RoundedShift(c, n);
    StoreShifted(Rounded(c), n, e);
  }

  /** A larger number is never stored as less, whatever exponents the two come with. */
  lemma StoredMonotone(a: Decimal, b: Decimal)
    requires Value(a) <= Value(b)
    ensures Stored(a.coeff, a.exp) <= Stored(b.coeff, b.exp)
  {
    hide Stored, StoreHundredths, Rounded, Value;
    var e := Lower(a, b);
    ValueOrder(a, b, e);
    StoredShifted(a.coeff, a.exp - e, e);
    StoredShifted(b.coeff, b.exp - e, e);
    RoundedMonotone(At(a, e), At(b, e));
    StoreMonotone(Rounded(At(a, e)), Rounded(At(b, e)), e);
    StoredIsRounded(At(a, e), e);
    StoredIsRounded(At(b, e), e);
  }
}
