/** How near the encoder's integer levels come to the discrete cosine transform, and the samples to what a decoder
    makes of them. */
module JpegAccuracy {
  import opened JpegBlock
  import opened JpegDct
  import opened JpegCosine
  import O = Orthogonal
  import opened JpegBasis
  import opened JpegInverse

  /** The samples of a block by column and row. */
  ghost function Samples(p: Plane): O.Matrix {
    (x: nat, y: nat) => if x < 8 && y < 8 then Sample(p, x, y) as real else 0.0
  }

  // ---- the integer sums ----

  const TERM_ERROR: real := 1028608.0  // 128 * 8036

  lemma NonNegativeProduct(a: real, b: real)
    requires 0.0 <= a && 0.0 <= b
    ensures 0.0 <= a * b
  {
  }

  lemma ProductAtMost(a: real, b: real, m: real, k: real)
    requires -m <= a <= m && -k <= b <= k
    ensures -(m * k) <= a * b <= m * k
  {
    NonNegativeProduct(m - a, k + b);
    NonNegativeProduct(m + a, k - b);
    NonNegativeProduct(m - a, k - b);
    NonNegativeProduct(m + a, k + b);
    assert (m - a) * (k + b) + (m + a) * (k - b) == 2.0 * (m * k) - 2.0 * (a * b);
    assert (m - a) * (k - b) + (m + a) * (k + b) == 2.0 * (m * k) + 2.0 * (a * b);
  }

  /** The product of two rounded values. */
  lemma ProductNear(a: real, b: real, x: real, y: real)
    requires -8035.0 <= a <= 8035.0 && -8035.0 <= b <= 8035.0 && -0.5 <= a - x <= 0.5 && -0.5 <= b - y <= 0.5
    ensures -8036.0 <= a * b - x * y <= 8036.0
  {
    ProductAtMost(a, b - y, 8035.0, 0.5);
    ProductAtMost(y, a - x, 8035.5, 0.5);
    assert a * b - x * y == a * (b - y) + y * (a - x);
  }

  lemma SampleTimes(s: real, e: real)
    requires -128.0 <= s <= 128.0 && -8036.0 <= e <= 8036.0
    ensures -TERM_ERROR <= s * e <= TERM_ERROR
  {
    ProductAtMost(s, e, 128.0, 8036.0);
  }

  lemma EntryBound(u: nat, x: nat)
    requires u < 8 && x < 8
    ensures -8035 <= COS[u][x] <= 8035
  {
  }

  lemma SampleBound(p: Plane, x: nat, y: nat)
    requires x < 8 && y < 8
    ensures -128 <= Sample(p, x, y) <= 127
  {
  }

  lemma EntryNear(c: int -> real, u: nat, x: nat)
    requires IsCosine(c) && u < 8 && x < 8
    ensures -8035.0 <= COS[u][x] as real <= 8035.0
    ensures -0.5 <= COS[u][x] as real - 16384.0 * Basis(c, u, x) <= 0.5
  {
    hide IsCosine, COS;
    EntryBound(u, x);
    TableIsRounded(c, u, x);
  }

  /** A term of the integer sum is near 2^28 times that of the transform. */
  lemma TermNear(c: int -> real, p: Plane, u: nat, v: nat, x: nat, y: nat)
    requires IsCosine(c) && u < 8 && v < 8 && x < 8 && y < 8
    ensures var t := (Sample(p, x, y) * COS[u][x] * COS[v][y]) as real;
      -TERM_ERROR <= t - 268435456.0 * DctTerms(c, Samples(p), u, v)(y, x) <= TERM_ERROR
  {
    hide IsCosine, COS, Sample, Basis;
    EntryNear(c, u, x);
    EntryNear(c, v, y);
    SampleBound(p, x, y);
    var s, a, b := Sample(p, x, y) as real, COS[u][x] as real, COS[v][y] as real;
    var f, g := Basis(c, u, x), Basis(c, v, y);
    ProductNear(a, b, 16384.0 * f, 16384.0 * g);
    SampleTimes(s, a * b - 16384.0 * f * (16384.0 * g));
    TermRearranged(s, a, b, f, g);
    AsReals(Sample(p, x, y), COS[u][x], COS[v][y]);
  }

  lemma AsReals(i: int, j: int, k: int)
    ensures (i * j * k) as real == i as real * j as real * k as real
  {
  }

  lemma TermRearranged(s: real, a: real, b: real, f: real, g: real)
    ensures s * (a * b - 16384.0 * f * (16384.0 * g)) == s * a * b - 268435456.0 * O.Mul(g, O.Mul(f, s))
  {
    assert s * (16384.0 * f * (16384.0 * g)) == 268435456.0 * (g * (f * s));
    assert s * (a * b) == s * a * b;
  }

  lemma {:induction false} RowNear(c: int -> real, p: Plane, u: nat, v: nat, y: nat, n: nat)
    requires IsCosine(c) && u < 8 && v < 8 && y < 8 && n <= 8
    ensures var e := RowTerms(p, u, v, y, n) as real - 268435456.0 * O.Line(DctTerms(c, Samples(p), u, v), y, n);
      -(n as real * TERM_ERROR) <= e <= n as real * TERM_ERROR
  {
    hide IsCosine, DctTerms, COS, Sample;
    if n != 0 {
      RowNear(c, p, u, v, y, n - 1);
      TermNear(c, p, u, v, n - 1, y);
    }
  }

  lemma {:induction false} SumNear(c: int -> real, p: Plane, u: nat, v: nat, n: nat)
    requires IsCosine(c) && u < 8 && v < 8 && n <= 8
    ensures var e := DoubleSum(p, u, v, n) as real - 268435456.0 * O.Total(DctTerms(c, Samples(p), u, v), n, 8);
      -(n as real * (8.0 * TERM_ERROR)) <= e <= n as real * (8.0 * TERM_ERROR)
  {
    hide IsCosine, DctTerms, RowTerms;
    if n != 0 {
      SumNear(c, p, u, v, n - 1);
      RowNear(c, p, u, v, n - 1, 8);
    }
  }

  /** The unscaled integer coefficient is 2^28 times the transform, to within a quarter of that scale. */
  lemma CoefficientNear(c: int -> real, p: Plane, u: nat, v: nat)
    requires IsCosine(c) && u < 8 && v < 8
    ensures -67108864.0 <= Coefficient(p, u, v) as real - 268435456.0 * Dct(c, Samples(p), u, v) <= 67108864.0
  {
    hide IsCosine, DctTerms, DoubleSum, Coefficient;
    SeparableTransform(p, u, v);
    SumNear(c, p, u, v, 8);
  }

  // ---- the levels ----

  lemma Nearby(coefficient: int, d: int, w: int, q: int, f: real)
    requires -67108864.0 <= coefficient as real - 268435456.0 * f <= 67108864.0
    requires -0x0800_0000 <= coefficient - d * 0x1000_0000 <= 0x0800_0000
    requires -q <= 2 * (d - w) <= q
    ensures -(q as real / 2.0 + 0.75) <= f - w as real <= q as real / 2.0 + 0.75
  {
    assert -134217728.0 <= coefficient as real - d as real * 268435456.0 <= 134217728.0;
    assert -0.75 <= f - d as real <= 0.75;
    assert -(q as real) <= 2.0 * (d as real - w as real) <= q as real;
  }

  /** A level times its step is the transform of the samples to within half a step and three quarters. */
  lemma LevelNear(c: int -> real, p: Plane, q: Table8, u: nat, v: nat)
    requires IsCosine(c) && u < 8 && v < 8 && Steps(q)
    ensures var e := Dct(c, Samples(p), u, v) - (Level(p, q, u, v) * q[v][u]) as real;
      -(q[v][u] as real / 2.0 + 0.75) <= e <= q[v][u] as real / 2.0 + 0.75
  {
    hide *;
    CoefficientNear(c, p, u, v);
    LevelAccuracy(p, q, u, v);
    RoundNearest(Coefficient(p, u, v));
    RoundingScale();
    Nearby(Coefficient(p, u, v), RShiftRound28(Coefficient(p, u, v)), Level(p, q, u, v) * q[v][u], q[v][u],
           Dct(c, Samples(p), u, v));
  }

  lemma RoundingScale()
    ensures HALF == 0x0800_0000 && ONE == 0x1000_0000
  {
  }

  // ---- what a decoder makes of them ----

  /** The levels of a block with their steps restored. */
  ghost function Dequantised(p: Plane, q: Table8): O.Matrix
    requires Steps(q)
  {
    (u: nat, v: nat) => if u < 8 && v < 8 then (Level(p, q, u, v) * q[v][u]) as real else 0.0
  }

  ghost function StepSquares(q: Table8): O.Matrix {
    (u: nat, v: nat) =>
      if u < 8 && v < 8 then O.Mul(q[v][u] as real / 2.0 + 0.75, q[v][u] as real / 2.0 + 0.75) else 0.0
  }

  lemma SquareAtMost(e: real, b: real)
    requires -b <= e <= b
    ensures O.Mul(e, e) <= O.Mul(b, b)
  {
    assert b * b - e * e == (b - e) * (b + e);
  }

  lemma {:induction false} LineAtMost(f: O.Matrix, g: O.Matrix, i: nat, n: nat)
    requires forall j: nat :: j < n ==> f(i, j) <= g(i, j)
    ensures O.Line(f, i, n) <= O.Line(g, i, n)
  {
    if n != 0 {
      LineAtMost(f, g, i, n - 1);
    }
  }

  lemma {:induction false} TotalAtMost(f: O.Matrix, g: O.Matrix, m: nat)
    requires forall i: nat :: i < m ==> O.Line(f, i, 8) <= O.Line(g, i, 8)
    ensures O.Total(f, m, 8) <= O.Total(g, m, 8)
  {
    if m != 0 {
      TotalAtMost(f, g, m - 1);
    }
  }

  lemma EntryAtMost(c: int -> real, p: Plane, q: Table8, u: nat, v: nat)
    requires IsCosine(c) && Steps(q) && u < 8 && v < 8
    ensures Squared(Minus(DctOf(c, Samples(p)), Dequantised(p, q)))(u, v) <= StepSquares(q)(u, v)
  {
    hide IsCosine, Dct, Level, O.Mul, Steps;
    LevelNear(c, p, q, u, v);
    SquareAtMost(Dct(c, Samples(p), u, v) - (Level(p, q, u, v) * q[v][u]) as real, q[v][u] as real / 2.0 + 0.75);
  }

  /** The inverse transform of the dequantised levels gives the samples back, the squares of the 64 differences adding
      up to no more than the squares of half a step and three quarters, over all steps. */
  lemma SamplesComeBack(c: int -> real, p: Plane, q: Table8)
    requires IsCosine(c) && Steps(q)
    ensures SumSquares(Minus(Samples(p), InverseOf(c, Dequantised(p, q)))) <= O.Total(StepSquares(q), 8, 8)
  {
    hide IsCosine, Steps, DctOf, Minus, Squared, Dequantised, StepSquares, InverseOf;
    ErrorEnergy(c, Samples(p), Dequantised(p, q));
    var e := Minus(DctOf(c, Samples(p)), Dequantised(p, q));
    forall u: nat | u < 8
      ensures O.Line(Squared(e), u, 8) <= O.Line(StepSquares(q), u, 8)
    {
      forall v: nat | v < 8
        ensures Squared(e)(u, v) <= StepSquares(q)(u, v)
      {
        EntryAtMost(c, p, q, u, v);
      }
      LineAtMost(Squared(e), StepSquares(q), u, 8);
    }
    TotalAtMost(Squared(e), StepSquares(q), 8);
  }
}
