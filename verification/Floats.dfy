/**
  Rounding of single-precision floats (binary32 of IEEE 754) to nearest, ties to
  even. In units of 2^-149 it is rounding a whole number to 24 significant bits.
*/
module Floats {

  const SIGNIFICAND := 0x100_0000

  function Pow2(n: nat): (p: nat)
    ensures p > 0
  {
    if n == 0 then 1 else 2 * Pow2(n - 1)
  }

  /** The units of 1.0. */
  const ONE: nat := Pow2(149)

  /** How many bits n has beyond 24. */
  function Excess(n: nat): nat {
    if n < SIGNIFICAND then 0 else 1 + Excess(n / 2)
  }

  /** The distance between neighbouring floats around n. */
  function Grid(n: nat): (g: nat)
    ensures g > 0
  {
    Pow2(Excess(n))
  }

  /** Some f32 has this many units. */
  predicate Representable(n: nat) {
    n % Grid(n) == 0
  }

  /** To the nearest representable number; of two, to the one with the even significand. */
  function Rounded(n: nat): nat {
    var g := Grid(n);
    var q, r := n / g, n % g;
    if 2 * r < g || (2 * r == g && q % 2 == 0) then q * g else (q + 1) * g
  }

  // ---- Multiples ----

  lemma DivMod(n: nat, g: nat)
    requires g > 0
    ensures n == n / g * g + n % g && 0 <= n % g < g
  {
  }

  lemma Quotients(x: nat, g: nat)
    requires g > 0 && x % g == 0
    ensures x == x / g * g
  {
    DivMod(x, g);
  }

  lemma NonNegative(a: nat, b: nat)
    ensures a * b >= 0
  {
  }

  /** Multiples of g that differ do so by at least g. */
  lemma MultiplesApart(k: nat, q: nat, g: nat)
    ensures k <= q ==> k * g <= q * g
    ensures k < q ==> (k + 1) * g <= q * g && (k + 1) * g == k * g + g
  {
    if k <= q {
      NonNegative(q - k, g);
      assert (q - k) * g == q * g - k * g;
    }
    if k < q {
      NonNegative(q - k - 1, g);
      assert (q - k - 1) * g == q * g - (k + 1) * g;
      assert (k + 1) * g == k * g + g;
    }
  }

  lemma ModOfMultiple(k: nat, g: nat)
    requires g > 0
    ensures k * g % g == 0
  {
    DivMod(k * g, g);
    var q := k * g / g;
    MultiplesApart(q, k, g);
    MultiplesApart(k, q, g);
  }

  lemma OneMore(x: nat, g: nat)
    requires g > 0 && x % g == 0
    ensures (x + g) % g == 0
  {
    Quotients(x, g);
    ModOfMultiple(x / g + 1, g);
    assert (x / g + 1) * g == x / g * g + g;
  }

  lemma DoubleMod(x: nat, g: nat)
    requires g > 0 && x % g == 0
    ensures 2 * x % (2 * g) == 0
  {
    Quotients(x, g);
    ModOfMultiple(x / g, 2 * g);
    assert x / g * (2 * g) == 2 * (x / g * g);
  }

  lemma MulDouble(x: nat, p: nat)
    ensures x * (2 * p) == 2 * (x * p)
  {
  }

  // ---- The grid ----

  lemma {:induction false} GridBounds(n: nat)
    ensures n < Grid(n) * SIGNIFICAND
    ensures n >= SIGNIFICAND ==> 2 * n >= Grid(n) * SIGNIFICAND
  {
    if n >= SIGNIFICAND {
      GridBounds(n / 2);
    }
  }

  lemma {:induction false} GridIs(n: nat, k: nat)
    requires Pow2(k) * SIGNIFICAND <= 2 * n < 2 * (Pow2(k) * SIGNIFICAND)
    ensures Excess(n) == k && Grid(n) == Pow2(k)
  {
    if k > 0 {
      HalfRange(n, Pow2(k - 1));
      GridIs(n / 2, k - 1);
    }
  }

  lemma HalfRange(n: nat, p: nat)
    requires p >= 1 && 2 * p * SIGNIFICAND <= 2 * n < 2 * (2 * p * SIGNIFICAND)
    ensures p * SIGNIFICAND <= 2 * (n / 2) < 2 * (p * SIGNIFICAND) && n >= SIGNIFICAND
  {
  }

  lemma {:induction false} GridMonotone(x: nat, y: nat)
    requires x <= y
    ensures Grid(x) == Grid(y) || (2 * Grid(x) <= Grid(y) && y >= SIGNIFICAND)
  {
    if x >= SIGNIFICAND {
      GridMonotone(x / 2, y / 2);
    }
  }

  lemma RoundedNear(n: nat)
    ensures var g := Grid(n); var q := n / g;
            && (Rounded(n) == q * g || Rounded(n) == q * g + g)
            && (n % g == 0 ==> Rounded(n) == n)
            && q * g <= n < q * g + g
            && 2 * Rounded(n) <= 2 * n + g && 2 * n <= 2 * Rounded(n) + g
  {
    var g := Grid(n);
    DivMod(n, g);
    assert (n / g + 1) * g == n / g * g + g;
  }

  lemma FloorAtLeast(c: nat, n: nat, g: nat)
    requires g > 0 && c * g <= n
    ensures c * g <= n / g * g
  {
    DivMod(n, g);
    MultiplesApart(c, n / g, g);
    MultiplesApart(n / g, c, g);
  }

  lemma CeilingAtMost(c: nat, n: nat, g: nat)
    requires g > 0 && n < c * g
    ensures n / g * g + g <= c * g
  {
    DivMod(n, g);
    MultiplesApart(n / g, c, g);
    MultiplesApart(c, n / g, g);
  }

  // ---- Rounding keeps order ----

  /** A representable number from n on bounds what n rounds to. */
  lemma RoundedAtMost(n: nat, v: nat)
    requires Representable(v) && n <= v
    ensures Rounded(n) <= v
  {
    var g := Grid(n);
    RoundedNear(n);
    if n < v {
      GridMonotone(n, v);
      GridBounds(n);
      GridBounds(v);
      if g == Grid(v) {
        Quotients(v, g);
        CeilingAtMost(v / g, n, g);
      } else {
        CeilingAtMost(SIGNIFICAND, n, g);
      }
    }
  }

  lemma RoundedAtLeast(v: nat, n: nat)
    requires Representable(v) && v <= n
    ensures v <= Rounded(n)
  {
    var g := Grid(n);
    RoundedNear(n);
    GridMonotone(v, n);
    GridBounds(n);
    GridBounds(v);
    if g == Grid(v) {
      Quotients(v, g);
      FloorAtLeast(v / g, n, g);
    } else {
      FloorAtLeast(SIGNIFICAND / 2, n, g);
    }
  }

  lemma GapOnGrid(x: nat, c: nat, g: nat)
    requires g > 0 && x % g == 0 && x < c * g
    ensures x + g <= c * g
  {
    Quotients(x, g);
    CeilingAtMost(c, x, g);
  }

  lemma GapOnOneGrid(x: nat, y: nat, g: nat)
    requires g > 0 && x % g == 0 && y % g == 0 && x < y
    ensures x + g <= y
  {
    Quotients(y, g);
    GapOnGrid(x, y / g, g);
  }

  /** Neighbouring representable numbers lie at least a grid step apart. */
  lemma Gap(x: nat, y: nat)
    requires Representable(x) && Representable(y) && x < y
    ensures x + Grid(x) <= y
  {
    GridMonotone(x, y);
    GridBounds(x);
    GridBounds(y);
    GapOnTwoGrids(x, y, Grid(x), Grid(y));
  }

  lemma GapOnTwoGrids(x: nat, y: nat, g: nat, h: nat)
    requires g > 0 && h > 0 && x % g == 0 && y % h == 0 && x < y && x < g * SIGNIFICAND
    requires g == h || (2 * g <= h && 2 * y >= h * SIGNIFICAND)
    ensures x + g <= y
  {
    if g == h {
      GapOnOneGrid(x, y, g);
    } else {
      GapOnGrid(x, SIGNIFICAND, g);
    }
  }

  /** The next grid point is representable. */
  lemma NextUp(x: nat)
    requires Representable(x)
    ensures Representable(x + Grid(x))
  {
    var k := Excess(x);
    var g := Grid(x);
    GridBounds(x);
    OneMore(x, g);
    Quotients(x, g);
    CeilingAtMost(SIGNIFICAND, x, g);
    if x + g == SIGNIFICAND * g {
      GridIs(x + g, k + 1);
      ModOfMultiple(SIGNIFICAND / 2, 2 * g);
      assert SIGNIFICAND / 2 * (2 * g) == SIGNIFICAND * g;
    } else if x >= SIGNIFICAND {
      GridIs(x + g, k);
    }
  }

  /** What rounding gives is representable, and at least 2^23 steps of n's grid. */
  lemma RoundedIs(n: nat)
    ensures Representable(Rounded(n))
    ensures n >= SIGNIFICAND ==> Rounded(n) >= SIGNIFICAND / 2 * Grid(n)
    ensures n <= SIGNIFICAND ==> Rounded(n) == n
  {
    var g := Grid(n);
    var x := n / g * g;
    RoundedNear(n);
    if n >= SIGNIFICAND {
      GridBounds(n);
      FloorAtLeast(SIGNIFICAND / 2, n, g);
      GridIs(x, Excess(n));
      ModOfMultiple(n / g, g);
      NextUp(x);
      if n == SIGNIFICAND {
        assert Grid(n / 2) == 1 && g == 2;
      }
    } else {
      assert g == 1;
    }
  }

  // ---- Powers of two ----

  lemma Doubled(x: nat)
    ensures Representable(x) ==> Representable(2 * x)
    ensures 2 * x >= SIGNIFICAND ==> Grid(2 * x) == 2 * Grid(x)
  {
    if 2 * x >= SIGNIFICAND {
      assert 2 * x / 2 == x;
      assert Excess(2 * x) == 1 + Excess(x);
      if Representable(x) {
        DoubleMod(x, Grid(x));
      }
    }
  }

  /** Multiplying by a power of two keeps numbers representable, and moves the grid along from 2^23 on. */
  lemma {:induction false} Scaled(x: nat, k: nat)
    ensures Representable(x) ==> Representable(x * Pow2(k))
    ensures 2 * x >= SIGNIFICAND ==> Grid(x * Pow2(k)) == Grid(x) * Pow2(k)
  {
    if k > 0 {
      var p := Pow2(k - 1);
      Scaled(x, k - 1);
      Doubled(x * p);
      MulDouble(x, p);
      MulDouble(Grid(x), p);
      MultiplesApart(1, p, x);
    } else {
      assert x * Pow2(0) == x;
    }
  }

  lemma {:induction false} Pow2Sum(a: nat, b: nat)
    ensures Pow2(a + b) == Pow2(a) * Pow2(b)
  {
    if a > 0 {
      Pow2Sum(a - 1, b);
      MulDouble(Pow2(b), Pow2(a - 1));
    }
  }

  lemma Pow2Representable(k: nat)
    ensures Representable(Pow2(k))
  {
    Scaled(1, k);
    assert 1 * Pow2(k) == Pow2(k);
  }

  lemma Pow2Of23()
    ensures Pow2(23) == SIGNIFICAND / 2
  {
    assert Pow2(4) == 16;
    Pow2Sum(4, 4);
    Pow2Sum(8, 8);
    Pow2Sum(16, 4);
    assert Pow2(3) == 8;
    Pow2Sum(20, 3);
  }

  lemma {:induction false} Pow2Shift(k: nat)
    ensures 2 * Pow2(23 + k) == Pow2(k) * SIGNIFICAND
  {
    if k == 0 {
      Pow2Of23();
    } else {
      Pow2Shift(k - 1);
    }
  }

  /** The grid around a power of two from 2^23 on is 2^-23 of it. */
  lemma Pow2Grid(k: nat)
    ensures Grid(Pow2(23 + k)) * SIGNIFICAND == 2 * Pow2(23 + k)
  {
    Pow2Shift(k);
    GridIs(Pow2(23 + k), k);
  }

  // ---- Rounded products ----

  lemma MulLe(a: nat, b: nat, c: nat)
    requires a <= b
    ensures a * c <= b * c
  {
    MultiplesApart(a, b, c);
  }

  lemma MulAssoc(a: nat, b: nat, c: nat)
    ensures a * b * c == a * (b * c)
  {
  }

  lemma MulSum(a: nat, b: nat, c: nat)
    ensures (a + b) * c == a * c + b * c
  {
  }

  lemma ReachArithmetic(n: nat, m: nat, g: nat, h: nat, grid: nat)
    requires n > m && 2 * n <= 2 * m + g && SIGNIFICAND / 2 * g <= m && m * h < grid * SIGNIFICAND
    ensures n * h < m * h + grid
  {
    var d := n - m;
    assert 2 * (d * h) <= g * h by {
      MulLe(2 * d, g, h);
      MulAssoc(2, d, h);
    }
    assert SIGNIFICAND / 2 * (g * h) <= m * h by {
      MulLe(SIGNIFICAND / 2 * g, m, h);
      MulAssoc(SIGNIFICAND / 2, g, h);
    }
    assert n * h == m * h + d * h by {
      MulSum(m, d, h);
    }
    Small(d * h, g * h, m * h, grid);
  }

  lemma Small(dh: nat, gh: nat, mh: nat, grid: nat)
    requires 2 * dh <= gh && SIGNIFICAND / 2 * gh <= mh && mh < grid * SIGNIFICAND
    ensures dh < grid
  {
  }

  /** What n is rounded to is less than a grid step, at any scale, below n. */
  lemma RoundedReach(n: nat, h: nat)
    requires n > 0 && h > 0
    ensures Above(Rounded(n) * h, n * h)
  {
    var m := Rounded(n);
    RoundedIs(n);
    RoundedNear(n);
    if n > m {
      GridBounds(m * h);
      ReachArithmetic(n, m, Grid(n), h, Grid(m * h));
    } else {
      MulLe(n, m, h);
    }
  }

  /** The grid point after x is above y. */
  predicate Above(x: nat, y: nat) {
    y < x + Grid(x)
  }

  /**
    A rounded product with a representable factor above a power of two is above
    n times that power, for every n and although n is rounded first.
  */
  lemma ProductAbove(n: nat, u: nat, k: nat, h: nat)
    requires n > 0 && k > 0 && h == Pow2(23 + k) && Representable(u) && u > h
    ensures Rounded(Rounded(n) * u) > n * h
  {
    var m := Rounded(n);
    RoundedIs(n);
    assert Representable(m * h) by {
      Scaled(m, 23 + k);
    }
    assert m * h + Grid(m * h) <= m * u by {
      Pow2Representable(23 + k);
      Pow2Grid(k);
      Gap(h, u);
      Pow2Shift(k);
      StepFits(m, h, Grid(h), u);
    }
    NextUp(m * h);
    RoundedAtLeast(m * h + Grid(m * h), m * u);
    RoundedReach(n, h);
  }

  lemma StepFits(m: nat, h: nat, g: nat, u: nat)
    requires m > 0 && h >= SIGNIFICAND && g * SIGNIFICAND == 2 * h && h + g <= u
    ensures m * h + Grid(m * h) <= m * u
  {
    GridBounds(m * h);
    MulLe(1, m, h);
    StepArithmetic(m, h, g, u, Grid(m * h));
  }

  lemma StepArithmetic(m: nat, h: nat, g: nat, u: nat, grid: nat)
    requires g * SIGNIFICAND == 2 * h && h + g <= u && grid * SIGNIFICAND <= 2 * (m * h)
    ensures m * h + grid <= m * u
  {
    MulLe(h + g, u, m);
    MulSum(h, g, m);
    MulAssoc(m, g, SIGNIFICAND);
    MulDouble(m, h);
  }
}
