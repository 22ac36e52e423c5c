/**
 * The two decimal arithmetics a price passes through, digit by digit: Python's `decimal`
 * context (28 significant digits, ties to even) and the rounding of a MySQL DECIMAL column
 * (ties away from zero).
 */
module Decimals {

  const PRECISION := 28

  /** `coeff * 10^exp`; negative numbers do not occur in a price. */
  datatype Decimal = Decimal(coeff: nat, exp: int)

  function Pow10(n: nat): (p: nat)
    ensures p >= 1
  {
    if n == 0 then 1 else 10 * Pow10(n - 1)
  }

  /** Number of decimal digits of a coefficient. */
  function Digits(c: nat): (n: nat)
    ensures n >= 1
  {
    if c < 10 then 1 else 1 + Digits(c / 10)
  }

  /** The coefficient with `n` zeros appended. */
  function Shift(c: nat, n: nat): nat {
    if n == 0 then c else 10 * Shift(c, n - 1)
  }

  /** The coefficient without its last `k` digits. */
  function Drop(c: nat, k: nat): nat {
    if k == 0 then c else Drop(c, k - 1) / 10
  }

  /** Whether one of the last `k` digits is not zero. */
  predicate Sticky(c: nat, k: nat) {
    Shift(Drop(c, k), k) != c
  }

  /** Drop the last `k` digits, rounding to nearest, ties to even. */
  function HalfEven(c: nat, k: nat): nat
    requires k >= 1
  {
    var head, next := Drop(c, k), Drop(c, k - 1) % 10;
    if next > 5 || (next == 5 && (Sticky(c, k - 1) || head % 2 == 1)) then head + 1 else head
  }

  /** Drop the last `k` digits, rounding to nearest, ties away from zero. */
  function HalfUp(c: nat, k: nat): nat {
    if k == 0 then c else if Drop(c, k - 1) % 10 >= 5 then Drop(c, k) + 1 else Drop(c, k)
  }

  /** What the context does to an exact result. */
  function ContextRound(d: Decimal): Decimal {
    var n := Digits(d.coeff);
    if n <= PRECISION then d else
      var k := n - PRECISION;
      var q := HalfEven(d.coeff, k);
      if Digits(q) > PRECISION then Decimal(q / 10, d.exp + k + 1) else Decimal(q, d.exp + k)
  }

  function Times(a: nat, b: nat): nat {
    a * b
  }

  function Mul(a: Decimal, b: Decimal): Decimal {
    ContextRound(Decimal(Times(a.coeff, b.coeff), a.exp + b.exp))
  }

  function Add(a: Decimal, b: Decimal): Decimal {
    var e := if a.exp <= b.exp then a.exp else b.exp;
    ContextRound(Decimal(Shift(a.coeff, a.exp - e) + Shift(b.coeff, b.exp - e), e))
  }

  /** The value stored in a column with two decimals, in hundredths. */
  function StoreHundredths(d: Decimal): nat {
    if d.exp >= -2 then Shift(d.coeff, d.exp + 2) else HalfUp(d.coeff, -2 - d.exp)
  }

  /** `x / d` rounded to the nearest integer, ties away from zero, as one division. */
  function RoundHalfUp(x: nat, d: nat): nat
    requires d >= 1
  {
    (2 * x + d) / (2 * d)
  }

  /** The number a decimal stands for. */
  ghost function Value(d: Decimal): real {
    if d.exp >= 0 then (d.coeff * Pow10(d.exp)) as real else d.coeff as real / Pow10(-d.exp) as real
  }

  lemma {:induction false} DigitsBound(c: nat, n: nat)
    requires n >= 1
    ensures Digits(c) <= n <==> c < Pow10(n)
  {
    if n == 1 {
      assert Pow10(1) == 10 * Pow10(0) == 10;
    } else if c >= 10 {
      DigitsBound(c / 10, n - 1);
      assert Pow10(n) == 10 * Pow10(n - 1);
    }
  }

  lemma {:induction false} Pow10Sum(a: nat, b: nat)
    ensures Pow10(a + b) == Pow10(a) * Pow10(b)
  {
    if a > 0 {
      Pow10Sum(a - 1, b);
      assert Pow10(a + b) == 10 * Pow10(a - 1 + b) == 10 * (Pow10(a - 1) * Pow10(b));
    }
  }

  lemma Pow10Values()
    ensures Pow10(2) == 100 && Pow10(4) == 10000 && Pow10(6) == 1000000
    ensures Pow10(27) == 1000000000000000000000000000 && Pow10(28) == 10000000000000000000000000000
  {
    assert Pow10(2) == 10 * Pow10(1) == 100 * Pow10(0);
    Pow10Sum(2, 2);
    Pow10Sum(4, 2);
    Pow10Sum(4, 4);
    Pow10Sum(8, 8);
    Pow10Sum(16, 8);
    Pow10Sum(24, 4);
  }

  /** A result that fits the context's precision is exact. */
  lemma ExactWithinPrecision(d: Decimal)
    requires d.coeff < 10000000000000000000000000000
    ensures ContextRound(d) == d
  {
    Pow10Values();
    DigitsBound(d.coeff, PRECISION);
  }

  lemma DropOne(p: nat, h: nat, c: nat)
    requires p * h <= c < p * (h + 1)
    ensures 10 * p * (h / 10) <= c < 10 * p * (h / 10 + 1)
  {
    var q := h / 10;
    MulLe(p, 10 * q, h);
    MulLe(p, h + 1, 10 * q + 10);
    assert 10 * p * q == p * (10 * q);
    assert 10 * p * (q + 1) == p * (10 * q + 10);
  }

  /** A result that does not fit loses its last digits. */
  lemma RoundsBeyondPrecision(d: Decimal)
    requires d.coeff >= 10000000000000000000000000000
    ensures ContextRound(d).exp > d.exp
  {
    Pow10Values();
    DigitsBound(d.coeff, PRECISION);
  }

  lemma {:induction false} DropDigits(c: nat, k: nat)
    requires k < Digits(c)
    ensures Digits(Drop(c, k)) == Digits(c) - k
  {
    if k > 0 {
      DropDigits(c, k - 1);
    }
  }

  lemma ValueOfFraction(c: nat, k: int)
    requires k >= 0
    ensures Value(Decimal(c, -k)) == c as real / Pow10(k) as real
  {
    if k == 0 {
      assert Pow10(0) == 1;
    }
  }

  lemma RealProduct(a: nat, b: nat)
    ensures (a * b) as real == a as real * b as real
  {
  }

  /** Dropping digits is division by a power of ten. */
  lemma {:induction false} DropBounds(c: nat, k: nat)
    ensures Pow10(k) * Drop(c, k) <= c < Pow10(k) * (Drop(c, k) + 1)
  {
    if k > 0 {
      DropBounds(c, k - 1);
      DropOne(Pow10(k - 1), Drop(c, k - 1), c);
    }
  }

  lemma MulLe(p: nat, a: int, b: int)
    requires a <= b
    ensures p * a <= p * b
  {
  }

  lemma MulGap(d: nat, q: nat, p: nat)
    ensures q < p ==> d * q + d <= d * p
  {
    if q < p {
      MulLe(d, q + 1, p);
      assert d * (q + 1) == d * q + d;
    }
  }

  lemma DivUnique(y: nat, m: nat, q: nat)
    requires m >= 1 && m * q <= y < m * q + m
    ensures y / m == q
  {
    var r := y / m;
    assert y == m * r + y % m;
    if r < q {
      MulLe(m, r + 1, q);
    } else if r > q {
      MulLe(m, q + 1, r);
    }
  }

  lemma RoundOne(p: nat, h: nat, c: nat, q: nat)
    requires p >= 1 && p * h <= c < p * (h + 1) && 10 * q <= h + 5 <= 10 * q + 9
    ensures RoundHalfUp(c, 10 * p) == q
  {
    MulLe(p, 10 * q, h + 5);
    MulLe(p, h + 1, 10 * q + 5);
    var m := 20 * p;
    assert m * q == 2 * (p * (10 * q));
    assert p * (h + 5) == p * h + 5 * p;
    assert p * (10 * q + 5) == p * (10 * q) + 5 * p;
    DivUnique(2 * c + 10 * p, m, q);
  }

  /** Rounding on digits is rounding of the quotient. */
  lemma HalfUpIsRounding(c: nat, k: nat)
    ensures HalfUp(c, k) == RoundHalfUp(c, Pow10(k))
  {
    if k == 0 {
      assert (2 * c + 1) / 2 == c;
    } else {
      DropBounds(c, k - 1);
      RoundOne(Pow10(k - 1), Drop(c, k - 1), c, HalfUp(c, k));
    }
  }

  /** The stored number is within half a unit of the exact quotient. */
  lemma RoundingError(x: nat, d: nat)
    requires d >= 1
    ensures 2 * (d * RoundHalfUp(x, d)) - d <= 2 * x < 2 * (d * RoundHalfUp(x, d)) + d
  {
    var q := RoundHalfUp(x, d);
    assert 2 * x + d == 2 * d * q + (2 * x + d) % (2 * d);
    assert 2 * d * q == 2 * (d * q);
  }

  lemma {:induction false} ShiftIsMul(c: nat, n: nat)
    ensures Shift(c, n) == Pow10(n) * c
  {
    if n > 0 {
      ShiftIsMul(c, n - 1);
      assert Pow10(n) * c == 10 * (Pow10(n - 1) * c);
    }
  }

  /** One step of rounding to even, on the digit `h % 10` that goes and the rest `low` after it. */
  lemma EvenOne(p: nat, h: nat, low: nat, q: nat)
    requires low < p
    requires q == if h % 10 > 5 || (h % 10 == 5 && (low > 0 || (h / 10) % 2 == 1)) then h / 10 + 1 else h / 10
    ensures -10 * p <= 2 * (p * h + low) - 20 * (p * q) <= 10 * p
    ensures 2 * (p * h + low) - 20 * (p * q) == -10 * p || 2 * (p * h + low) - 20 * (p * q) == 10 * p ==> q % 2 == 0
  {
    var head, t := h / 10, h % 10;
    assert p * h == 10 * (p * head) + p * t by { assert h == 10 * head + t; }
    assert p * (head + 1) == p * head + p;
    MulLe(p, t, 9);
    if t > 5 {
      MulLe(p, 6, t);
    } else if t < 5 {
      MulLe(p, 0, t);
      MulLe(p, t, 4);
    }
  }

  /** The context rounds to the nearest coefficient, and to the even one when two are equally near. */
  lemma HalfEvenNearest(c: nat, k: nat)
    requires k >= 1
    ensures var d, q := Pow10(k), HalfEven(c, k);
            && 2 * (d * q) - d <= 2 * c <= 2 * (d * q) + d
            && (2 * c == 2 * (d * q) - d || 2 * c == 2 * (d * q) + d ==> q % 2 == 0)
  {
    var p, h, q := Pow10(k - 1), Drop(c, k - 1), HalfEven(c, k);
    DropBounds(c, k - 1);
    ShiftIsMul(h, k - 1);
    NextMultiple(p, h);
    var low := c - p * h;
    assert Sticky(c, k - 1) <==> low > 0;
    EvenOne(p, h, low, q);
    assert Pow10(k) == 10 * p;
    hide HalfEven, Drop, Sticky, Pow10;
    TenTimes(p, q);
  }

  lemma NextMultiple(p: nat, h: nat)
    ensures p * (h + 1) == p * h + p
  {
  }

  lemma TenTimes(p: nat, q: nat)
    ensures (10 * p) * q == 10 * (p * q)
  {
  }

  /** A larger quotient never rounds to less. */
  lemma RoundHalfUpMonotone(x: nat, a: nat, y: nat, b: nat)
    requires a >= 1 && b >= 1 && x * b <= y * a
    ensures RoundHalfUp(x, a) <= RoundHalfUp(y, b)
  {
    hide RoundHalfUp;
    var p, q, n := RoundHalfUp(x, a), RoundHalfUp(y, b), a * b;
    RoundingError(x, a);
    RoundingError(y, b);
    ScaledOrder(x, a, y, b, p, q);
    MulGap(n, q, p);
  }

  lemma Reorder(a: nat, b: nat, p: nat)
    ensures b * (a * p) == (a * b) * p
  {
  }

  lemma ScaledLow(x: nat, a: nat, b: nat, p: nat)
    requires 2 * (a * p) - a <= 2 * x
    ensures 2 * ((a * b) * p) - a * b <= 2 * (x * b)
  {
    var ap := a * p;
    MulLe(b, 2 * ap - a, 2 * x);
    assert b * (2 * ap - a) == 2 * (b * ap) - a * b;
    Reorder(a, b, p);
  }

  lemma ScaledHigh(y: nat, a: nat, b: nat, q: nat)
    requires a >= 1 && 2 * y < 2 * (b * q) + b
    ensures 2 * (y * a) < 2 * ((a * b) * q) + a * b
  {
    var bq := b * q;
    MulLe(a, 2 * y + 1, 2 * bq + b);
    assert a * (2 * bq + b) == 2 * (a * bq) + a * b;
    assert a * (2 * y + 1) == 2 * (y * a) + a;
    Reorder(b, a, q);
  }

  lemma ScaledOrder(x: nat, a: nat, y: nat, b: nat, p: nat, q: nat)
    requires a >= 1 && b >= 1 && x * b <= y * a
    requires 2 * (a * p) - a <= 2 * x && 2 * y < 2 * (b * q) + b
    ensures (a * b) * p < (a * b) * q + a * b
  {
    ScaledLow(x, a, b, p);
    ScaledHigh(y, a, b, q);
  }
}
