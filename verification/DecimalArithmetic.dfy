/** The arithmetic behind every percentage: General Decimal Arithmetic in the default context
    (28 significant digits, round half to even), and how close its two roundings come to one. */
module DecimalArithmetic {
  import opened Arithmetic
  import opened Outcomes

  /** The finite number coefficient * 10^exponent. */
  datatype Decimal = Decimal(coefficient: int, exponent: int)

  datatype ArithmeticError = InvalidOperation

  const LOW := 1_000_000_000_000_000_000_000_000_000 // 10^27, the least 28-digit coefficient
  const HIGH := 10_000_000_000_000_000_000_000_000_000 // 10^28

  /** n / d to the nearest integer, ties to the even neighbour. */
  function HalfEven(n: int, d: int): int
    requires d > 0
  {
    var q, twice := n / d, 2 * (n % d);
    if twice < d || (twice == d && q % 2 == 0) then q else q + 1
  }

  /** What it means for k to be n / d rounded half to even. */
  predicate IsHalfEven(n: int, d: int, k: int)
    requires d > 0
  {
    && -d <= 2 * (n - k * d) <= d
    && ((2 * (n - k * d) == d || 2 * (n - k * d) == -d) ==> k % 2 == 0)
  }

  lemma HalfEvenIsNearest(n: int, d: int)
    requires d > 0
    ensures IsHalfEven(n, d, HalfEven(n, d))
  {
    var q := n / d;
    assert n == q * d + n % d;
    assert n - (q + 1) * d == n % d - d;
  }

  /** At most one integer is nearest under the half-even rule, and rounding respects the order of quotients. */
  lemma HalfEvenMonotone(n: int, d: int, k: int, n': int, d': int, k': int)
    requires d > 0 && d' > 0
    requires IsHalfEven(n, d, k) && IsHalfEven(n', d', k')
    requires n * d' <= n' * d
    ensures k <= k'
  {
    // If k > k', then k - 1/2 <= n/d <= n'/d' <= k' + 1/2 <= k - 1/2: both are ties at neighbouring integers.
    var low, high := 2 * k - 1, 2 * k' + 1;
    assert low * d == 2 * (k * d) - d && high * d' == 2 * (k' * d') + d';
    CrossMultiply(low, 2 * n, d, 2 * n', high, d');
  }

  /** a <= x/d <= x'/d' <= b gives a <= b, with equality only if all four are equal. */
  lemma CrossMultiply(a: int, x: int, d: int, x': int, b: int, d': int)
    requires d > 0 && d' > 0 && a * d <= x && x' <= b * d'
    requires x * d' <= x' * d
    ensures a <= b
    ensures a == b ==> x == a * d && x' == b * d'
  {
    MulMonotone(a * d, x, d');
    MulMonotone(x', b * d', d);
    MulRegroup(a, d, d');
    MulRegroup(b, d', d);
    var w := d * d';
    assert a * w <= b * w;
    if a > b {
      MulStrict(b, a, w);
    }
    if a == b {
      MulCancel(a * d, x, d');
      MulCancel(x', b * d', d);
    }
  }

  lemma HalfEvenUnique(n: int, d: int, k: int)
    requires d > 0 && IsHalfEven(n, d, k)
    ensures k == HalfEven(n, d)
  {
    HalfEvenIsNearest(n, d);
    HalfEvenMonotone(n, d, k, n, d, HalfEven(n, d));
    HalfEvenMonotone(n, d, HalfEven(n, d), n, d, k);
  }

  lemma HalfEvenRange(n: int, d: int, low: int, high: int)
    requires d > 0 && low * d <= n <= high * d
    ensures low <= HalfEven(n, d) <= high
  {
    HalfEvenIsNearest(n, d);
    var k := HalfEven(n, d);
    assert (k + 1) * d == k * d + d && (high + 1) * d == high * d + d;
    if k < low {
      MulMonotone(k + 1, low, d);
    }
    if k > high {
      MulMonotone(high + 1, k, d);
    }
  }

  // The operations.

  /** n / d rounded to 28 significant digits: scale until the quotient has 28 integer digits, then round. */
  function Quotient(n: nat, d: nat): (q: Decimal)
    requires d > 0
    ensures n == 0 ==> q == Decimal(0, 0)
    ensures n > 0 ==> LOW <= q.coefficient <= HIGH
    ensures n > 0 ==> (q.exponent < 0 <==> n < LOW * d) && (q.exponent > 0 <==> n >= HIGH * d)
    decreases n < LOW * d, if n < LOW * d then LOW * d - n else n - LOW * d
  {
    if n == 0 then Decimal(0, 0)
    else if n < LOW * d then
      var q := Quotient(10 * n, d);
      Decimal(q.coefficient, q.exponent - 1)
    else if n >= HIGH * d then
      var q := Quotient(n, 10 * d);
      Decimal(q.coefficient, q.exponent + 1)
    else
      HalfEvenRange(n, d, LOW, HIGH);
      Decimal(HalfEven(n, d), 0)
  }

  function Negate(q: Decimal): Decimal {
    Decimal(-q.coefficient, q.exponent)
  }

  function Divide(n: int, d: nat): Decimal
    requires d > 0
  {
    if n >= 0 then Quotient(n, d) else Negate(Quotient(-n, d))
  }

  /** The product with 100, rounded to 28 significant digits like every result. */
  function TimesHundred(q: Decimal): Decimal {
    var c := Divide(q.coefficient * 100, 1);
    Decimal(c.coefficient, c.exponent + q.exponent)
  }

  /** Rounds to two decimal places, as a count of hundredths; more than 28 digits is an error. */
  function Quantize(q: Decimal): Result<int, ArithmeticError> {
    var hundredths :=
      if q.exponent >= -2 then q.coefficient * Pow10(q.exponent + 2)
      else HalfEven(q.coefficient, Pow10(-2 - q.exponent));
    if -HIGH < hundredths < HIGH then Ok(hundredths) else Err(InvalidOperation)
  }

  /** The percentage the reports print, in hundredths of a percent: 0 when there is nothing to compare with. */
  function Percent(numerator: int, denominator: int): Result<int, ArithmeticError> {
    if denominator <= 0 then Ok(0)
    else Quantize(TimesHundred(Divide(numerator, denominator)))
  }

  // How the three roundings compose.

  /** What TimesHundred and Quantize leave of a 28-digit quotient, before the size check. */
  ghost function Hundredths(q: Decimal): int {
    if q.exponent >= -4 then q.coefficient * Pow10(q.exponent + 4)
    else HalfEven(q.coefficient, Pow10(-4 - q.exponent))
  }

  function Checked(hundredths: int): Result<int, ArithmeticError> {
    if -HIGH < hundredths < HIGH then Ok(hundredths) else Err(InvalidOperation)
  }

  lemma HalfEvenExact(k: int, d: int)
    requires d > 0
    ensures HalfEven(k * d, d) == k
  {
    HalfEvenUnique(k * d, d, k);
  }

  lemma HalfEvenOdd(n: int, d: int)
    requires d > 0
    ensures HalfEven(-n, d) == -HalfEven(n, d)
  {
    HalfEvenIsNearest(n, d);
    var k := HalfEven(n, d);
    assert -n - (-k) * d == -(n - k * d);
    HalfEvenUnique(-n, d, -k);
  }

  lemma HalfEvenTenfold(n: int, d: int)
    requires d > 0
    ensures HalfEven(10 * n, 10 * d) == HalfEven(n, d)
  {
    HalfEvenIsNearest(n, d);
    var k := HalfEven(n, d);
    assert 10 * n - k * (10 * d) == 10 * (n - k * d);
    HalfEvenUnique(10 * n, 10 * d, k);
  }

  /** Multiplying a 28-digit coefficient by 100 is exact. */
  lemma TimesHundredExact(q: Decimal)
    requires LOW <= q.coefficient <= HIGH
    ensures TimesHundred(q) == if q.coefficient < HIGH then Decimal(q.coefficient, q.exponent + 2)
                               else Decimal(LOW, q.exponent + 3)
  {
    var c := q.coefficient;
    var product := c * 100;
    assert Quotient(product, 1) == (var r := Quotient(product, 10); Decimal(r.coefficient, r.exponent + 1));
    assert Quotient(product, 10) == (var r := Quotient(product, 100); Decimal(r.coefficient, r.exponent + 1));
    if c < HIGH {
      HalfEvenExact(c, 100);
    } else {
      assert Quotient(product, 100) == (var r := Quotient(product, 1000); Decimal(r.coefficient, r.exponent + 1));
      HalfEvenExact(LOW, 1000);
    }
  }

  lemma ScaledQuotient(q: Decimal)
    requires LOW <= q.coefficient <= HIGH
    ensures Quantize(TimesHundred(q)) == Checked(Hundredths(q))
  {
    hide HalfEven, TimesHundred;
    TimesHundredExact(q);
    if q.coefficient == HIGH {
      if q.exponent >= -4 {
        assert Pow10(q.exponent + 5) == 10 * Pow10(q.exponent + 4);
        assert HIGH * Pow10(q.exponent + 4) == LOW * Pow10(q.exponent + 5);
      } else if q.exponent == -5 {
        HalfEvenExact(LOW, 10);
        assert Pow10(1) == 10 && Pow10(0) == 1;
      } else {
        HalfEvenTenfold(LOW, Pow10(-5 - q.exponent));
        assert Pow10(-4 - q.exponent) == 10 * Pow10(-5 - q.exponent);
      }
    }
  }

  /** A quotient below 28 integer digits is one scaling by a power of ten and one rounding. */
  lemma {:induction false} QuotientScale(n: nat, d: nat) returns (a: int)
    requires d > 0 && 0 < n < LOW * d
    ensures a >= 1
    ensures LOW * d <= n * Pow10(a) < HIGH * d
    ensures Quotient(n, d) == Decimal(HalfEven(n * Pow10(a), d), -a)
    decreases LOW * d - n
  {
    if 10 * n >= LOW * d {
      a := 1;
      assert Pow10(1) == 10;
    } else {
      var b := QuotientScale(10 * n, d);
      a := b + 1;
      assert n * Pow10(a) == 10 * n * Pow10(b);
    }
  }

  // Rounding to a grid of 1/p and then to integers, against rounding once.

  /** The first rounding of m / d, to a multiple of 1/p, lands on the midpoint between two integers;
      m / d itself is off / 2d away from it. */
  predicate LandsOnMidpoint(off: int, d: int, p: int) {
    var gap := if off < 0 then -off * p else off * p;
    gap < d || (gap == d && p % 4 == 0)
  }

  /** How much the two roundings end below the one. They differ only when the first rounding moves m / d onto a
      midpoint, and the second, seeing a tie, then picks the even side although m / d is on the odd one. */
  function SlipOnGrid(m: int, d: int, p: int): int
    requires d > 0
  {
    var q, off := m / d, 2 * (m % d) - d;
    if !LandsOnMidpoint(off, d, p) then 0
    else if off > 0 && q % 2 == 0 then 1
    else if off < 0 && q % 2 == 1 then -1
    else 0
  }

  /** Exactly what rounding twice gives, when the midpoints between integers are multiples of 1/p. */
  lemma TwoRoundings(m: int, d: int, p: int)
    requires d > 0 && p > 0 && p % 2 == 0
    ensures HalfEven(HalfEven(m * p, d), p) == HalfEven(m, d) - SlipOnGrid(m, d, p)
  {
    var g := FirstRounding(m, d, p);
    SecondRounding(m / d, p / 2, g);
  }

  /** The error of the first rounding, measured from the midpoint above m / d rounded down. */
  lemma FromMidpoint(m: int, d: int, p: int, c: int)
    requires d > 0 && p > 0 && p % 2 == 0
    ensures var q, off := m / d, 2 * (m % d) - d;
      2 * (m * p - c * d) == off * p - 2 * ((c - (q * p + p / 2)) * d)
  {
    var q, r, h := m / d, m % d, p / 2;
    assert m == q * d + r && p == 2 * h;
    calc {
      m * p;
      (q * d + r) * p;
      (q * d) * p + r * p;
      { MulRegroup(q, d, p); MulRegroup(q, p, d); }
      (q * p) * d + r * p;
    }
    assert (c - (q * p + h)) * d == c * d - (q * p) * d - h * d;
    assert (2 * r - d) * p == 2 * (r * p) - d * p;
    assert d * p == 2 * (h * d);
  }

  /** A value w / 2d from a midpoint rounds to g whole steps from it; the midpoint itself wins a tie when it is even. */
  lemma StepsFromMidpoint(w: int, d: int, midpoint: int, g: int)
    requires d > 0 && -d <= w - 2 * (g * d) <= d
    requires w - 2 * (g * d) == d || w - 2 * (g * d) == -d ==> (midpoint + g) % 2 == 0
    ensures g == 0 <==> -d < w < d || ((w == d || w == -d) && midpoint % 2 == 0)
    ensures (w >= 0 ==> g >= 0) && (w <= 0 ==> g <= 0)
  {
    if g >= 1 {
      MulMonotone(1, g, d);
      assert g >= 2 ==> g * d >= 2 * d by { if g >= 2 { MulMonotone(2, g, d); } }
    } else if g <= -1 {
      MulMonotone(g, -1, d);
      assert g <= -2 ==> g * d <= -2 * d by { if g <= -2 { MulMonotone(g, -2, d); } }
    }
  }

  /** Where the first rounding lands: g steps of 1/p above the midpoint. */
  lemma FirstRounding(m: int, d: int, p: int) returns (g: int)
    requires d > 0 && p > 0 && p % 2 == 0
    ensures HalfEven(m * p, d) == m / d * p + p / 2 + g
    ensures -(p / 2) <= g <= p / 2
    ensures var off := 2 * (m % d) - d;
      && (g == 0 <==> LandsOnMidpoint(off, d, p))
      && (off >= 0 ==> g >= 0) && (off <= 0 ==> g <= 0)
  {
    hide HalfEven;
    var q, off := m / d, 2 * (m % d) - d;
    var c := HalfEven(m * p, d);
    g := c - (q * p + p / 2);
    FromMidpoint(m, d, p, c);
    HalfEvenIsNearest(m * p, d);
    WithinUnit(m, d, p);
    LandingMeans(off, d, p, q * p + p / 2, g) by {
      assert q * p == 2 * (q * (p / 2));
    }
  }

  lemma LandingMeans(off: int, d: int, p: int, midpoint: int, g: int)
    requires d > 0 && p > 0 && p % 2 == 0 && (midpoint - p / 2) % 2 == 0
    requires -d <= off * p - 2 * (g * d) <= d
    requires off * p - 2 * (g * d) == d || off * p - 2 * (g * d) == -d ==> (midpoint + g) % 2 == 0
    ensures g == 0 <==> LandsOnMidpoint(off, d, p)
    ensures (off >= 0 ==> g >= 0) && (off <= 0 ==> g <= 0)
  {
    StepsFromMidpoint(off * p, d, midpoint, g);
    if off >= 0 {
      MulMonotone(0, off, p);
    } else {
      MulMonotone(off, 0, p);
    }
    assert -off * p == -(off * p);
  }

  lemma WithinUnit(m: int, d: int, p: int)
    requires d > 0 && p > 0
    ensures m / d * p <= HalfEven(m * p, d) <= m / d * p + p
  {
    hide HalfEven;
    QuotientBounds(m, d, p);
    HalfEvenRange(m * p, d, m / d * p, m / d * p + p);
  }

  lemma QuotientBounds(m: int, d: int, p: int)
    requires d > 0 && p > 0
    ensures (m / d * p) * d <= m * p <= (m / d * p + p) * d
  {
    var q := m / d;
    MulMonotone(q * d, m, p);
    MulMonotone(m, q * d + d, p);
    MulRegroup(q, d, p);
    MulRegroup(q, p, d);
    assert (q * d + d) * p == q * d * p + d * p;
    assert (q * p + p) * d == q * p * d + p * d;
  }

  lemma SecondRounding(q: int, h: int, g: int)
    requires h > 0 && -h <= g <= h
    ensures HalfEven(q * (2 * h) + h + g, 2 * h)
            == if g < 0 || (g == 0 && q % 2 == 0) then q else q + 1
  {
    var p := 2 * h;
    var c := q * p + h + g;
    assert (q + 1) * p == q * p + p;
    HalfEvenUnique(c, p, if g < 0 || (g == 0 && q % 2 == 0) then q else q + 1);
  }

  /** Rounding to a multiple of 1/p and then to an integer is rounding once, when 1/p is finer than 1/d: then no
      exact quotient m/d can be pushed onto a midpoint it does not lie on. */
  lemma RoundingTwice(m: int, d: int, p: int)
    requires 0 < d < p && p % 2 == 0
    ensures HalfEven(HalfEven(m * p, d), p) == HalfEven(m, d)
  {
    TwoRoundings(m, d, p);
    FineGridNeverSlips(m, d, p);
  }

  lemma FineGridNeverSlips(m: int, d: int, p: int)
    requires 0 < d < p
    ensures SlipOnGrid(m, d, p) == 0
  {
    var off := 2 * (m % d) - d;
    if off > 0 {
      MulMonotone(1, off, p);
    } else if off < 0 {
      MulMonotone(1, -off, p);
    }
  }

  // The printed percentage in closed form.

  /** The number of steps per integer on which a 28-digit quotient of m by d lies; 1 when the integer part
      already has 28 digits. */
  function Grid(m: nat, d: nat): (p: nat)
    requires m > 0 && d > 0
    ensures p == 1 || p % 10 == 0
    ensures LOW * d <= m * p
    decreases LOW * d - m
  {
    if m >= LOW * d then 1
    else
      var p := Grid(10 * m, d);
      assert m * (10 * p) == 10 * m * p;
      10 * p
  }

  lemma {:induction false} GridIs(m: nat, d: nat, j: nat)
    requires m > 0 && d > 0 && LOW * d <= m * Pow10(j) < HIGH * d
    ensures Grid(m, d) == Pow10(j)
    decreases j
  {
    if j > 0 {
      assert m * Pow10(j) == 10 * m * Pow10(j - 1);
      MulMonotone(1, Pow10(j - 1), 10 * m);
      GridIs(10 * m, d, j - 1);
    }
  }

  /** How much the printed value of m / d, in units of the last place, lies below m / d rounded once. */
  function Slip(m: int, d: int): int
    requires d > 0
    decreases m < 0
  {
    if m < 0 then -Slip(-m, d)
    else if m == 0 || Grid(m, d) == 1 then 0
    else SlipOnGrid(m, d, Grid(m, d))
  }

  lemma PercentOfNegative(n: int, d: int)
    requires n > 0 && d > 0
    ensures Percent(-n, d) == match Percent(n, d) case Ok(h) => Ok(-h) case Err(e) => Err(e)
  {
    var q := Quotient(n, d);
    var up, down := TimesHundred(q), TimesHundred(Negate(q));
    assert down == Negate(up);
    if up.exponent < -2 {
      HalfEvenOdd(up.coefficient, Pow10(-2 - up.exponent));
    } else {
      assert -up.coefficient * Pow10(up.exponent + 2) == -(up.coefficient * Pow10(up.exponent + 2));
    }
  }

  lemma PercentOfZero(d: int)
    requires d > 0
    ensures Percent(0, d) == Ok(HalfEven(0, d)) == Ok(0)
  {
    HalfEvenUnique(0, d, 0);
    var zero := Decimal(0, 0);
    assert Divide(0, d) == zero;
    assert Quantize(TimesHundred(zero)) == Ok(0) by {
      assert Divide(0, 1) == zero;
      assert TimesHundred(zero) == zero;
    }
  }

  /** Against a positive denominator the printed percentage is the exact ratio rounded once, less the slip, if
      that has at most 28 digits; otherwise it is an error. No bound on either number. */
  lemma PercentInClosedForm(n: int, d: int)
    requires d > 0
    ensures Percent(n, d) == Checked(HalfEven(n * 10000, d) - Slip(n * 10000, d))
  {
    hide HalfEven, Percent;
    if n < 0 {
      PositivePercent(-n, d);
      PercentOfNegative(-n, d);
      HalfEvenOdd(-n * 10000, d);
      assert -(n * 10000) == -n * 10000;
    } else if n == 0 {
      PercentOfZero(d);
    } else {
      PositivePercent(n, d);
    }
  }

  lemma PercentOfPositive(n: int, d: int)
    requires d > 0 && n > 0
    ensures Percent(n, d) == Checked(Hundredths(Quotient(n, d)))
  {
    hide HalfEven, Hundredths, Checked, Quantize, TimesHundred;
    ScaledQuotient(Quotient(n, d));
  }

  lemma PositivePercent(n: int, d: int)
    requires d > 0 && n > 0
    ensures Percent(n, d) == Checked(HalfEven(n * 10000, d) - Slip(n * 10000, d))
  {
    hide HalfEven, Percent, Hundredths, Quotient, Slip;
    PercentOfPositive(n, d);
    if n * 10000 >= HIGH * d {
      TooManyDigits(n, d);
    } else {
      var a := QuotientScale(n, d);
      ScaleIsFine(n, d, a);
      ScaleSplits(n, a);
      HundredthsOnGrid(n * 10000, d, a);
    }
  }

  lemma SlipIs(m: int, d: int, j: nat)
    requires d > 0 && m > 0 && LOW * d <= m * Pow10(j) < HIGH * d
    ensures Slip(m, d) == if j == 0 then 0 else SlipOnGrid(m, d, Pow10(j))
  {
    hide SlipOnGrid, Grid;
    GridIs(m, d, j);
    assert j > 0 ==> Pow10(j) == 10 * Pow10(j - 1);
  }

  lemma HundredthsOnGrid(m: int, d: int, a: int)
    requires d > 0 && m > 0 && a >= 4 && LOW * d <= m * Pow10(a - 4) < HIGH * d
    ensures Hundredths(Decimal(HalfEven(m * Pow10(a - 4), d), -a)) == HalfEven(m, d) - Slip(m, d)
  {
    hide HalfEven, SlipOnGrid, Slip;
    SlipIs(m, d, a - 4);
    var p := Pow10(a - 4);
    if a == 4 {
      assert p == 1 && m * p == m;
    } else {
      assert p == 10 * Pow10(a - 5);
      hide Pow10;
      TwoRoundings(m, d, p);
    }
  }

  lemma TooManyDigits(n: int, d: int)
    requires d > 0 && n * 10000 >= HIGH * d
    ensures Hundredths(Quotient(n, d)) >= HIGH
    ensures HalfEven(n * 10000, d) >= HIGH && Slip(n * 10000, d) == 0
  {
    hide HalfEven, SlipOnGrid, Quotient;
    HalfEvenRange(n * 10000, d, HIGH, n * 10000) by { MulMonotone(1, d, n * 10000); }
    var q := Quotient(n, d);
    CoarseQuotient(n, d);
    Pow10Monotone(1, q.exponent + 4);
    PowersOfTen();
    MulMonotone(10, Pow10(q.exponent + 4), q.coefficient);
  }

  lemma CoarseQuotient(n: int, d: int)
    requires d > 0 && n * 10000 >= HIGH * d
    ensures Quotient(n, d).exponent >= -3
  {
    hide HalfEven;
    if n < LOW * d {
      var a := QuotientScale(n, d);
      if a >= 4 {
        Pow10Monotone(4, a);
        PowersOfTen();
        MulMonotone(10000, Pow10(a), n);
      }
    }
  }

  lemma ScaleIsFine(n: int, d: int, a: nat)
    requires d > 0 && n > 0 && n * 10000 < HIGH * d && LOW * d <= n * Pow10(a)
    ensures a >= 4
  {
    if a <= 3 {
      PowersOfTen();
      Pow10Monotone(a, 3);
      MulMonotone(Pow10(a), 1000, n);
    }
  }

  lemma ScaleSplits(n: int, a: nat)
    requires a >= 4
    ensures n * Pow10(a) == (n * 10000) * Pow10(a - 4)
  {
    Pow10Add(4, a - 4);
    PowersOfTen();
    MulRegroup(n, 10000, Pow10(a - 4));
  }

  /** A ratio whose integer part already has 28 digits is rounded only once. */
  lemma SlipNeedsGrid(m: int, d: int)
    requires d > 0 && (m >= LOW * d || m <= -LOW * d)
    ensures Slip(m, d) == 0
  {
  }

  // When the printed percentage is the exact ratio rounded once.

  /** The exact ratio in hundredths of a percent, rounded once; 0 without a positive whole. */
  function RoundedRatio(part: int, whole: int): int {
    if whole > 0 then HalfEven(part * 10000, whole) else 0
  }

  function RatioSlip(part: int, whole: int): int {
    if whole > 0 then Slip(part * 10000, whole) else 0
  }

  /** The rounded ratio has at most 28 digits. */
  predicate IsPrintable(part: int, whole: int) {
    -HIGH < RoundedRatio(part, whole) < HIGH
  }

  /** For all amounts: a percentage is printed exactly when the rounded ratio has at most 28 digits, and it is
      that rounded ratio exactly when the two roundings do not slip. */
  lemma PercentExactly(part: int, whole: int)
    ensures Percent(part, whole).Ok? <==> IsPrintable(part, whole)
    ensures Percent(part, whole).Ok? ==>
      Percent(part, whole).value == RoundedRatio(part, whole) - RatioSlip(part, whole)
  {
    hide HalfEven, Percent, Slip;
    if whole > 0 {
      var m := part * 10000;
      PercentInClosedForm(part, whole);
      if -LOW * whole < m < LOW * whole {
        HalfEvenRange(m, whole, -LOW, LOW);
        SlipIsSmall(m, whole);
      } else {
        SlipNeedsGrid(m, whole);
      }
    } else {
      assert Percent(part, whole) == Ok(0) by { NothingToCompare(part, whole); }
    }
  }

  lemma NothingToCompare(part: int, whole: int)
    requires whole <= 0
    ensures Percent(part, whole) == Ok(0)
  {
  }

  lemma SlipIsSmall(m: int, d: int)
    requires d > 0
    ensures -1 <= Slip(m, d) <= 1
  {
    assert m < 0 ==> -1 <= Slip(-m, d) <= 1;
  }

  const ONE_ROUNDING_LIMIT := 100_000_000_000_000_000_000_000 // 10^23

  predicate IsModest(amount: int) {
    -ONE_ROUNDING_LIMIT < amount < ONE_ROUNDING_LIMIT
  }

  lemma SmallNeverSlips(m: int, d: int)
    requires d > 0 && -LOW < m < LOW
    ensures Slip(m, d) == 0
    decreases m < 0
  {
    hide SlipOnGrid;
    if m < 0 {
      SmallNeverSlips(-m, d);
    } else if m > 0 {
      var p := Grid(m, d);
      if p <= d {
        MulMonotone(m, LOW - 1, p);
      }
      FineGridNeverSlips(m, d, p);
    }
  }

  /** For every numerator below 10^23 cents, dividing in 28 digits, multiplying by 100 and quantizing
      is the exact ratio rounded once, half to even, and never fails. */
  lemma PercentRoundsOnce(n: int, d: int)
    requires d > 0 && IsModest(n)
    ensures Percent(n, d) == Ok(HalfEven(n * 10000, d))
  {
    hide HalfEven, Percent, Slip;
    var m := n * 10000;
    PercentInClosedForm(n, d);
    SmallNeverSlips(m, d);
    MulMonotone(1, d, LOW);
    HalfEvenRange(m, d, -LOW, LOW);
  }

  lemma ModestPercent(part: int, whole: int)
    requires IsModest(part)
    ensures Percent(part, whole) == Ok(RoundedRatio(part, whole))
  {
    hide HalfEven;
    if whole > 0 {
      PercentRoundsOnce(part, whole);
    }
  }

  /** The limit is tight to eleven digits: less than 10^12 cents above it, a ratio is printed one hundredth of a
      percent away from its correct rounding. It lies 1 / 2d below an odd midpoint of a grid of 10^12 steps. */
  lemma LimitIsNearlySharp()
    ensures Percent(ONE_ROUNDING_LIMIT + 633_350_000_001, 1_000_000_000_003) == Ok(1_000_000_000_003_334)
    ensures HalfEven((ONE_ROUNDING_LIMIT + 633_350_000_001) * 10000, 1_000_000_000_003) == 1_000_000_000_003_333
  {
    var n, d := ONE_ROUNDING_LIMIT + 633_350_000_001, 1_000_000_000_003;
    PowersOfTen();
    assert Pow10(12) == 1_000_000_000_000 by {
      Pow10Add(4, 4);
      Pow10Add(4, 8);
    }
    GridIs(n * 10000, d, 12);
    hide Percent;
    PercentInClosedForm(n, d);
  }

  /** How far a printed percentage is from the exact ratio: at most half a unit without a slip; with one, more
      than half a unit but less than 11/20; and at most 21/40 when the amount is not huge against the whole. */
  lemma PrintedError(m: int, d: int)
    requires d > 0
    ensures var error := 2 * (m - (HalfEven(m, d) - Slip(m, d)) * d);
      && (Slip(m, d) == 0 ==> -d <= error <= d)
      && (Slip(m, d) == 1 ==> d < error && 10 * error < 11 * d)
      && (Slip(m, d) == -1 ==> error < -d && -(11 * d) < 10 * error)
      && (-(LOW * d) < 10 * m < LOW * d ==> -(21 * d) <= 20 * error <= 21 * d)
  {
    hide HalfEven, SlipOnGrid;
    if m < 0 {
      PositivePrintedError(-m, d);
      HalfEvenOdd(-m, d);
      var k := HalfEven(-m, d) - Slip(-m, d);
      assert -k * d == -(k * d);
    } else {
      PositivePrintedError(m, d);
    }
  }

  lemma PositivePrintedError(m: nat, d: int)
    requires d > 0
    ensures var error := 2 * (m - (HalfEven(m, d) - Slip(m, d)) * d);
      && (Slip(m, d) == 0 ==> -d <= error <= d)
      && (Slip(m, d) == 1 ==> d < error && 10 * error < 11 * d)
      && (Slip(m, d) == -1 ==> error < -d && -(11 * d) < 10 * error)
      && (10 * m < LOW * d ==> -(21 * d) <= 20 * error <= 21 * d)
  {
    hide HalfEven, SlipOnGrid;
    var slip := Slip(m, d);
    if slip == 0 {
      HalfEvenIsNearest(m, d);
    } else {
      var p := Grid(m, d);
      assert slip == SlipOnGrid(m, d, p);
      SlippedError(m, d, p);
      SlipIsSmall(m, d);
    }
  }

  lemma SlippedError(m: nat, d: int, p: int)
    requires d > 0 && p > 0 && p % 10 == 0 && SlipOnGrid(m, d, p) != 0 && LOW * d <= m * p
    ensures var off := 2 * (m % d) - d;
      var error := 2 * (m - (HalfEven(m, d) - SlipOnGrid(m, d, p)) * d);
      && (SlipOnGrid(m, d, p) == 1 ==> error == d + off && 0 < 10 * off < d)
      && (SlipOnGrid(m, d, p) == -1 ==> error == off - d && -d < 10 * off < 0)
      && (10 * m < LOW * d ==> -d <= 20 * off <= d)
  {
    var q, off := m / d, 2 * (m % d) - d;
    assert m == q * d + m % d;
    assert (q + 1) * d == q * d + d;
    NarrowGap(m, d, p, if off < 0 then -off else off);
  }

  /** A slip needs m / d within 1 / 2p of a midpoint, so within 1/20, and within 1/40 unless p is 10. */
  lemma NarrowGap(m: nat, d: int, p: int, gap: nat)
    requires d > 0 && p > 0 && p % 10 == 0 && LOW * d <= m * p
    requires gap > 0 && (gap * p < d || (gap * p == d && p % 4 == 0))
    ensures 10 * gap < d
    ensures 10 * m < LOW * d ==> 20 * gap <= d
  {
    if p > 10 {
      MulMonotone(20, p, gap);
    }
  }

  // Percentages never fall as the numerator grows.

  /** In value, coefficient * 10^exponent, q is at most q'. */
  ghost predicate NoLarger(q: Decimal, q': Decimal) {
    q.exponent <= q'.exponent && q.coefficient <= q'.coefficient * Pow10(q'.exponent - q.exponent)
  }

  lemma {:induction false} QuotientMonotone(n: nat, n': nat, d: nat)
    requires d > 0 && 0 < n <= n'
    ensures NoLarger(Quotient(n, d), Quotient(n', d))
    decreases n < LOW * d, if n < LOW * d then LOW * d - n else n - LOW * d
  {
    hide HalfEven;
    var q, q' := Quotient(n, d), Quotient(n', d);
    if n' < LOW * d {
      QuotientMonotone(10 * n, 10 * n', d);
    } else if n >= HIGH * d {
      QuotientMonotone(n, n', 10 * d);
    } else if q.exponent < q'.exponent {
      CoarserIsLarger(q, q');
    } else {
      SameScaleMonotone(n, n', d);
      assert Pow10(0) == 1;
    }
  }

  lemma CoarserIsLarger(q: Decimal, q': Decimal)
    requires q.coefficient <= HIGH && LOW <= q'.coefficient && q.exponent < q'.exponent
    ensures NoLarger(q, q')
  {
    Pow10Monotone(1, q'.exponent - q.exponent);
    assert Pow10(1) == 10;
    MulMonotone(10, Pow10(q'.exponent - q.exponent), q'.coefficient);
  }

  lemma SameScaleMonotone(n: int, n': int, d: int)
    requires d > 0 && n <= n'
    ensures HalfEven(n, d) <= HalfEven(n', d)
  {
    HalfEvenIsNearest(n, d);
    HalfEvenIsNearest(n', d);
    MulMonotone(n, n', d);
    HalfEvenMonotone(n, d, HalfEven(n, d), n', d, HalfEven(n', d));
  }

  lemma HundredthsMonotone(q: Decimal, q': Decimal)
    requires NoLarger(q, q') && q.coefficient >= 0
    ensures 0 <= Hundredths(q) <= Hundredths(q')
  {
    var gap := Pow10(q'.exponent - q.exponent);
    if q.exponent >= -4 {
      var scale := Pow10(q.exponent + 4);
      Pow10Add(q'.exponent - q.exponent, q.exponent + 4);
      MulMonotone(q.coefficient, q'.coefficient * gap, scale);
      MulMonotone(0, q.coefficient, scale);
      MulRegroup(q'.coefficient, gap, scale);
    } else {
      var p := Pow10(-4 - q.exponent);
      var h := Hundredths(q');
      HalfEvenIsNearest(q.coefficient, p);
      HalfEvenRange(q.coefficient, p, 0, q.coefficient) by { MulMonotone(1, p, q.coefficient); }
      if q'.exponent >= -4 {
        Pow10Add(-4 - q.exponent, q'.exponent + 4);
        MulRegroup(q'.coefficient, Pow10(q'.exponent + 4), p);
        HalfEvenMonotone(q.coefficient, p, HalfEven(q.coefficient, p), h, 1, h);
      } else {
        var p' := Pow10(-4 - q'.exponent);
        HalfEvenIsNearest(q'.coefficient, p');
        Pow10Add(q'.exponent - q.exponent, -4 - q'.exponent);
        MulMonotone(q.coefficient, q'.coefficient * gap, p');
        MulRegroup(q'.coefficient, gap, p');
        HalfEvenMonotone(q.coefficient, p, HalfEven(q.coefficient, p), q'.coefficient, p', h);
      }
    }
  }

  /** A larger amount against the same total never prints a smaller percentage; and if the larger one
      can be printed at all, so can the smaller. */
  lemma PercentMonotone(n: int, n': int, d: int)
    requires 0 <= n <= n' && Percent(n', d).Ok?
    ensures Percent(n, d).Ok? && 0 <= Percent(n, d).value <= Percent(n', d).value
  {
    if d > 0 && n' > 0 {
      ScaledQuotient(Quotient(n', d));
      if n == 0 {
        PercentOfZero(d);
        QuotientMonotone(n', n', d);
        HundredthsMonotone(Quotient(n', d), Quotient(n', d));
      } else {
        ScaledQuotient(Quotient(n, d));
        QuotientMonotone(n, n', d);
        HundredthsMonotone(Quotient(n, d), Quotient(n', d));
      }
    } else if d > 0 {
      PercentOfZero(d);
    }
  }
}
