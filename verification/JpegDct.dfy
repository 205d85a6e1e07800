/** The fixed-point 8x8 DCT and its quantiser. */
module JpegDct {
  import opened Words
  import opened JpegBlock

  /** An 8x8 block of samples, row by row. */
  type Plane = p: seq<seq<byte>> | |p| == 8 && (forall y :: 0 <= y < 8 ==> |p[y]| == 8) witness seq(8, y => seq(8, x => 0))

  /** An 8x8 table, row by row. */
  type Table8 = t: seq<seq<int>> | |t| == 8 && (forall i :: 0 <= i < 8 ==> |t[i]| == 8) witness seq(8, y => seq(8, x => 0))

  // Quantisation steps in natural order.
  const QUANT_LUMA: Table8 := [
    [5, 3, 3, 5, 7, 12, 15, 18], [4, 4, 4, 6, 8, 17, 18, 17],
    [4, 4, 5, 7, 12, 17, 21, 17], [4, 5, 7, 9, 15, 26, 24, 19],
    [5, 7, 11, 17, 20, 33, 31, 23], [7, 11, 17, 19, 24, 31, 34, 28],
    [15, 19, 23, 26, 31, 36, 36, 30], [22, 28, 29, 29, 34, 30, 31, 30]]

  const QUANT_CHROMA: Table8 := [
    [5, 5, 7, 14, 30, 30, 30, 30], [5, 6, 8, 20, 30, 30, 30, 30],
    [7, 8, 17, 30, 30, 30, 30, 30], [14, 20, 30, 30, 30, 30, 30, 30],
    [30, 30, 30, 30, 30, 30, 30, 30], [30, 30, 30, 30, 30, 30, 30, 30],
    [30, 30, 30, 30, 30, 30, 30, 30], [30, 30, 30, 30, 30, 30, 30, 30]]

  // round(8192 * C(u) * cos((2x + 1) * u * pi / 16)), by u then x.
  const COS: Table8 := [
    [5793, 5793, 5793, 5793, 5793, 5793, 5793, 5793],
    [8035, 6811, 4551, 1598, -1598, -4551, -6811, -8035],
    [7568, 3135, -3135, -7568, -7568, -3135, 3135, 7568],
    [6811, -1598, -8035, -4551, 4551, 8035, 1598, -6811],
    [5793, -5793, -5793, 5793, 5793, -5793, -5793, 5793],
    [4551, -8035, 1598, 6811, -6811, -1598, 8035, -4551],
    [3135, -7568, 7568, -3135, -3135, 7568, -7568, 3135],
    [1598, -4551, 6811, -8035, 8035, -6811, 4551, -1598]]

  // The natural index of each scan position.
  const ZIGZAG: Table8 := [
    [0, 1, 8, 16, 9, 2, 3, 10], [17, 24, 32, 25, 18, 11, 4, 5],
    [12, 19, 26, 33, 40, 48, 41, 34], [27, 20, 13, 6, 7, 14, 21, 28],
    [35, 42, 49, 56, 57, 50, 43, 36], [29, 22, 15, 23, 30, 37, 44, 51],
    [58, 59, 52, 45, 38, 31, 39, 46], [53, 60, 61, 54, 47, 55, 62, 63]]

  // The scan position of each natural index.
  const SCAN_POSITION: Table8 := [
    [0, 1, 5, 6, 14, 15, 27, 28], [2, 4, 7, 13, 16, 26, 29, 42],
    [3, 8, 12, 17, 25, 30, 41, 43], [9, 11, 18, 24, 31, 40, 44, 53],
    [10, 19, 23, 32, 39, 45, 52, 54], [20, 22, 33, 38, 46, 51, 55, 60],
    [21, 34, 37, 47, 50, 56, 59, 61], [35, 36, 48, 49, 57, 58, 62, 63]]

  function Zigzag(j: nat): int
    requires j < 64
  {
    ZIGZAG[j / 8][j % 8]
  }

  function ScanPosition(n: nat): int
    requires n < 64
  {
    SCAN_POSITION[n / 8][n % 8]
  }

  lemma ZigzagRow(i: nat)
    requires i < 8
    ensures forall k :: 0 <= k < 8 ==>
              0 <= ZIGZAG[i][k] < 64 && SCAN_POSITION[ZIGZAG[i][k] / 8][ZIGZAG[i][k] % 8] == 8 * i + k
  {
  }

  lemma ScanRow(i: nat)
    requires i < 8
    ensures forall k :: 0 <= k < 8 ==>
              0 <= SCAN_POSITION[i][k] < 64 && ZIGZAG[SCAN_POSITION[i][k] / 8][SCAN_POSITION[i][k] % 8] == 8 * i + k
  {
  }

  /** The scan visits every coefficient exactly once. */
  lemma ZigzagIsPermutation(n: nat)
    requires n < 64
    ensures 0 <= Zigzag(n) < 64 && ScanPosition(Zigzag(n)) == n
    ensures 0 <= ScanPosition(n) < 64 && Zigzag(ScanPosition(n)) == n
  {
    ZigzagRow(n / 8);
    ScanRow(n / 8);
  }

  // ---- arithmetic ----

  const HALF: int := 0x0800_0000
  const ONE: int := 0x1000_0000

  /** Shift right by 28 bits, rounding to nearest. */
  function RShiftRound28(v: int): int {
    if v >= 0 then (v + HALF) / ONE else -((-v + HALF) / ONE)
  }

  /** Division rounding to nearest. */
  function QuantRound(v: int, q: int): int
    requires 0 < q
  {
    if v >= 0 then (v + q / 2) / q else -((-v + q / 2) / q)
  }

  function Clamp(v: int, lo: int, hi: int): int {
    if v < lo then lo else if v > hi then hi else v
  }

  lemma RoundNearest(v: int)
    ensures -HALF <= v - RShiftRound28(v) * ONE <= HALF
  {
  }

  lemma DivNearest(v: nat, q: int)
    requires 0 < q
    ensures var n := (v + q / 2) / q; -q <= 2 * (v - n * q) <= q
  {
    var n, r := (v + q / 2) / q, (v + q / 2) % q;
    assert v + q / 2 == n * q + r;
  }

  /** Dequantising gives back the coefficient to within half a step. */
  lemma QuantNearest(v: int, q: int)
    requires 0 < q
    ensures -q <= 2 * (v - QuantRound(v, q) * q) <= q
  {
    if v >= 0 {
      DivNearest(v, q);
    } else {
      DivNearest(-v, q);
      var n := (-v + q / 2) / q;
      assert -n * q == -(n * q);
    }
  }

  lemma DivBound(a: nat, q: int)
    requires 0 < q && a < 342 * q
    ensures a / q <= 341
  {
  }

  lemma QuantBound(v: int, q: int)
    requires 3 <= q && -1024 <= v <= 1024
    ensures -341 <= QuantRound(v, q) <= 341
  {
    if v >= 0 {
      DivBound(v + q / 2, q);
    } else {
      DivBound(-v + q / 2, q);
    }
  }

  // ---- the transform ----

  function Sample(p: Plane, x: nat, y: nat): int
    requires x < 8 && y < 8
  {
    var b: int := p[y][x];
    b - 128
  }

  /** The first `n` terms of the horizontal sum for frequency `u` in row `y`. */
  function HorizSum(p: Plane, u: nat, y: nat, n: nat): int
    requires u < 8 && y < 8 && n <= 8
  {
    if n == 0 then 0 else HorizSum(p, u, y, n - 1) + Sample(p, n - 1, y) * COS[u][n - 1]
  }

  function Horiz(p: Plane, u: nat, y: nat): int
    requires u < 8 && y < 8
  {
    HorizSum(p, u, y, 8)
  }

  function VertSum(p: Plane, u: nat, v: nat, n: nat): int
    requires u < 8 && v < 8 && n <= 8
  {
    if n == 0 then 0 else VertSum(p, u, v, n - 1) + Horiz(p, u, n - 1) * COS[v][n - 1]
  }

  /** The unscaled coefficient of horizontal frequency `u` and vertical frequency `v`. */
  function Coefficient(p: Plane, u: nat, v: nat): int
    requires u < 8 && v < 8
  {
    VertSum(p, u, v, 8)
  }

  ghost predicate Steps(q: Table8) {
    forall v, u :: 0 <= v < 8 && 0 <= u < 8 ==> 3 <= q[v][u]
  }

  function Level(p: Plane, q: Table8, u: nat, v: nat): int
    requires u < 8 && v < 8 && Steps(q)
  {
    Clamp(QuantRound(RShiftRound28(Coefficient(p, u, v)), q[v][u]), -1023, 1023)
  }

  /** The block of levels in scan order. */
  function Levels(p: Plane, q: Table8): (b: seq<int>)
    requires Steps(q)
    ensures IsBlock(b)
  {
    seq(64, j requires 0 <= j < 64 => ZigzagIsPermutation(j); Level(p, q, Zigzag(j) % 8, Zigzag(j) / 8))
  }

  lemma QuantTablesOk()
    ensures Steps(QUANT_LUMA) && Steps(QUANT_CHROMA)
  {
  }

  // ---- the double sum ----

  /** The first `n` terms of row `y` of the defining double sum. */
  function RowTerms(p: Plane, u: nat, v: nat, y: nat, n: nat): int
    requires u < 8 && v < 8 && y < 8 && n <= 8
  {
    if n == 0 then 0 else RowTerms(p, u, v, y, n - 1) + Sample(p, n - 1, y) * COS[u][n - 1] * COS[v][y]
  }

  function DoubleSum(p: Plane, u: nat, v: nat, n: nat): int
    requires u < 8 && v < 8 && n <= 8
  {
    if n == 0 then 0 else DoubleSum(p, u, v, n - 1) + RowTerms(p, u, v, n - 1, 8)
  }

  lemma DistributeLeft(a: int, b: int, c: int)
    ensures (a + b) * c == a * c + b * c
  {
  }

  lemma {:induction false} RowFactors(p: Plane, u: nat, v: nat, y: nat, n: nat)
    requires u < 8 && v < 8 && y < 8 && n <= 8
    ensures RowTerms(p, u, v, y, n) == HorizSum(p, u, y, n) * COS[v][y]
  {
    if n != 0 {
      RowFactors(p, u, v, y, n - 1);
      DistributeLeft(HorizSum(p, u, y, n - 1), Sample(p, n - 1, y) * COS[u][n - 1], COS[v][y]);
    }
  }

  lemma {:induction false} RowsThenColumns(p: Plane, u: nat, v: nat, n: nat)
    requires u < 8 && v < 8 && n <= 8
    ensures VertSum(p, u, v, n) == DoubleSum(p, u, v, n)
  {
    if n != 0 {
      RowsThenColumns(p, u, v, n - 1);
      RowFactors(p, u, v, n - 1, 8);
    }
  }

  /** Rows first, then columns, gives the two-dimensional transform. */
  lemma SeparableTransform(p: Plane, u: nat, v: nat)
    requires u < 8 && v < 8
    ensures Coefficient(p, u, v) == DoubleSum(p, u, v, 8)
  {
    RowsThenColumns(p, u, v, 8);
  }

  // ---- bounds ----

  /** The sum of the magnitudes of the first `n` basis values of frequency `u`. */
  function AbsRow(u: nat, n: nat): nat
    requires u < 8 && n <= 8
  {
    if n == 0 then 0 else AbsRow(u, n - 1) + Abs(COS[u][n - 1])
  }

  const MAX_ROW: int := 46344
  const MAX_HORIZ: int := 5932032  // 128 * MAX_ROW

  lemma AbsRowBound(u: nat)
    requires u < 8
    ensures AbsRow(u, 8) <= MAX_ROW
  {
    assert AbsRow(u, 1) == Abs(COS[u][0]);
    assert AbsRow(u, 2) == Abs(COS[u][0]) + Abs(COS[u][1]);
    assert AbsRow(u, 4) == Abs(COS[u][0]) + Abs(COS[u][1]) + Abs(COS[u][2]) + Abs(COS[u][3]);
    assert AbsRow(u, 6) == AbsRow(u, 4) + Abs(COS[u][4]) + Abs(COS[u][5]);
    assert AbsRow(u, 8) == AbsRow(u, 4) + Abs(COS[u][4]) + Abs(COS[u][5]) + Abs(COS[u][6]) + Abs(COS[u][7]);
  }

  lemma ProductBound(a: int, c: int, m: nat)
    requires Abs(a) <= m
    ensures -(m * Abs(c)) <= a * c <= m * Abs(c)
  {
    if c >= 0 {
      assert (m - a) * c >= 0 && (m + a) * c >= 0;
    } else {
      assert (m - a) * -c >= 0 && (m + a) * -c >= 0;
    }
  }

  lemma {:induction false} HorizBound(p: Plane, u: nat, y: nat, n: nat)
    requires u < 8 && y < 8 && n <= 8
    ensures -(128 * AbsRow(u, n)) <= HorizSum(p, u, y, n) <= 128 * AbsRow(u, n)
  {
    if n != 0 {
      HorizBound(p, u, y, n - 1);
      ProductBound(Sample(p, n - 1, y), COS[u][n - 1], 128);
    }
  }

  lemma {:induction false} VertBound(p: Plane, u: nat, v: nat, n: nat)
    requires u < 8 && v < 8 && n <= 8
    ensures -(MAX_HORIZ * AbsRow(v, n)) <= VertSum(p, u, v, n) <= MAX_HORIZ * AbsRow(v, n)
  {
    if n != 0 {
      VertBound(p, u, v, n - 1);
      RowBound(p, u, n - 1);
      ProductBound(Horiz(p, u, n - 1), COS[v][n - 1], MAX_HORIZ);
    }
  }

  lemma RowBound(p: Plane, u: nat, y: nat)
    requires u < 8 && y < 8
    ensures Abs(Horiz(p, u, y)) <= MAX_HORIZ
  {
    HorizBound(p, u, y, 8);
    AbsRowBound(u);
  }

  /** The 64-bit sums are nowhere near overflow, and no level comes near the clamp. */
  lemma LevelBound(p: Plane, q: Table8, u: nat, v: nat)
    requires u < 8 && v < 8 && Steps(q)
    ensures -0x80_0000_0000 < Coefficient(p, u, v) < 0x80_0000_0000
    ensures -1024 <= RShiftRound28(Coefficient(p, u, v)) <= 1024
    ensures -341 <= Level(p, q, u, v) <= 341
    ensures Level(p, q, u, v) == QuantRound(RShiftRound28(Coefficient(p, u, v)), q[v][u])
  {
    VertBound(p, u, v, 8);
    AbsRowBound(v);
    QuantBound(RShiftRound28(Coefficient(p, u, v)), q[v][u]);
  }

  /** Every 64-bit intermediate of the horizontal pass is small too. */
  lemma HorizRange(p: Plane, u: nat, y: nat, n: nat)
    requires u < 8 && y < 8 && n <= 8
    ensures -0x100_0000 < HorizSum(p, u, y, n) < 0x100_0000
  {
    HorizBound(p, u, y, n);
    AbsRowMonotone(u, n);
    AbsRowBound(u);
  }

  lemma {:induction false} AbsRowMonotone(u: nat, n: nat)
    requires u < 8 && n <= 8
    ensures AbsRow(u, n) <= AbsRow(u, 8)
    decreases 8 - n
  {
    if n < 8 {
      AbsRowMonotone(u, n + 1);
    }
  }

  /** Dequantised levels reproduce the scaled coefficients to within half a quantiser step. */
  lemma LevelAccuracy(p: Plane, q: Table8, u: nat, v: nat)
    requires u < 8 && v < 8 && Steps(q)
    ensures var d := RShiftRound28(Coefficient(p, u, v));
            -q[v][u] <= 2 * (d - Level(p, q, u, v) * q[v][u]) <= q[v][u]
  {
    LevelBound(p, q, u, v);
    QuantNearest(RShiftRound28(Coefficient(p, u, v)), q[v][u]);
  }

  // ---- flat blocks ----

  function RowSum(u: nat, n: nat): int
    requires u < 8 && n <= 8
  {
    if n == 0 then 0 else RowSum(u, n - 1) + COS[u][n - 1]
  }

  /** The AC basis functions sum to zero. */
  lemma RowSums(u: nat)
    requires u < 8
    ensures RowSum(u, 8) == if u == 0 then 46344 else 0
  {
    assert RowSum(u, 1) == COS[u][0];
    assert RowSum(u, 2) == COS[u][0] + COS[u][1];
    assert RowSum(u, 4) == COS[u][0] + COS[u][1] + COS[u][2] + COS[u][3];
    assert RowSum(u, 6) == RowSum(u, 4) + COS[u][4] + COS[u][5];
    assert RowSum(u, 8) == RowSum(u, 4) + COS[u][4] + COS[u][5] + COS[u][6] + COS[u][7];
  }

  ghost predicate Flat(p: Plane, c: int) {
    forall x: nat, y: nat :: x < 8 && y < 8 ==> Sample(p, x, y) == c
  }

  lemma {:induction false} FlatHoriz(p: Plane, c: int, u: nat, y: nat, n: nat)
    requires Flat(p, c) && u < 8 && y < 8 && n <= 8
    ensures HorizSum(p, u, y, n) == c * RowSum(u, n)
  {
    if n != 0 {
      FlatHoriz(p, c, u, y, n - 1);
      Distribute(c, RowSum(u, n - 1), COS[u][n - 1]);
    }
  }

  lemma Distribute(a: int, b: int, c: int)
    ensures a * (b + c) == a * b + a * c
  {
  }

  lemma {:induction false} FlatVert(p: Plane, c: int, u: nat, v: nat, n: nat)
    requires Flat(p, c) && u < 8 && v < 8 && n <= 8
    ensures VertSum(p, u, v, n) == c * RowSum(u, 8) * RowSum(v, n)
  {
    if n != 0 {
      FlatVert(p, c, u, v, n - 1);
      FlatHoriz(p, c, u, n - 1, 8);
      Distribute(c * RowSum(u, 8), RowSum(v, n - 1), COS[v][n - 1]);
    }
  }

  /** A flat block has no AC content. */
  lemma FlatBlockIsDcOnly(p: Plane, c: int, q: Table8, u: nat, v: nat)
    requires Flat(p, c) && u < 8 && v < 8 && Steps(q) && (u != 0 || v != 0)
    ensures Level(p, q, u, v) == 0
  {
    FlatVert(p, c, u, v, 8);
    RowSums(u);
    RowSums(v);
    assert Coefficient(p, u, v) == 0;
    assert q[v][u] / 2 / q[v][u] == 0;
  }

  /** A block of mid-level samples is all zeros. */
  lemma MidLevelBlockIsZero(p: Plane, q: Table8, u: nat, v: nat)
    requires Flat(p, 0) && u < 8 && v < 8 && Steps(q)
    ensures Level(p, q, u, v) == 0
  {
    FlatVert(p, 0, u, v, 8);
    assert 0 * RowSum(u, 8) * RowSum(v, 8) == 0;
    assert q[v][u] / 2 / q[v][u] == 0;
  }

  // ---- the encoder's transform ----

  ghost function PlaneOf(a: array2<byte>): Plane
    requires a.Length0 == 8 && a.Length1 == 8
    reads a
  {
    seq(8, y requires 0 <= y < 8 reads a => seq(8, x requires 0 <= x < 8 reads a => a[y, x]))
  }

  lemma LevelInOrder(p: Plane, q: Table8, j: nat)
    requires Steps(q) && j < 64
    ensures 0 <= Zigzag(j) < 64 && Levels(p, q)[j] == Level(p, q, Zigzag(j) % 8, Zigzag(j) / 8)
  {
    hide Level, Zigzag, ScanPosition;
    ZigzagIsPermutation(j);
  }

  /** Quantised DCT of the samples of `plane`, in scan order. */
  method DctQuantBlock(plane: array2<byte>, q: Table8, block: array<int>)
    requires plane.Length0 == 8 && plane.Length1 == 8 && block.Length == 64 && Steps(q)
    modifies block
    ensures block[..] == Levels(PlaneOf(plane), q)
  {
    hide Level, Levels, PlaneOf, Zigzag, ScanPosition, Steps;
    ghost var p := PlaneOf(plane);
    var s := Centre(plane);
    var horiz := HorizontalPass(s, p);
    var natural := VerticalPass(horiz, q, p);
    var j: nat := 0;
    while j < 64
      invariant j <= 64
      invariant forall i :: 0 <= i < j ==> block[i] == Levels(p, q)[i]
      invariant forall n :: 0 <= n < 64 ==> natural[n] == Level(p, q, n % 8, n / 8)
    {
      LevelInOrder(p, q, j);
      block[j] := natural[Zigzag(j)];
      j := j + 1;
    }
  }

  method Centre(plane: array2<byte>) returns (s: array2<int>)
    requires plane.Length0 == 8 && plane.Length1 == 8
    ensures fresh(s) && s.Length0 == 8 && s.Length1 == 8
    ensures forall x, y :: 0 <= x < 8 && 0 <= y < 8 ==> s[x, y] == Sample(PlaneOf(plane), x, y)
  {
    s := new int[8, 8];
    var y: nat := 0;
    while y < 8
      invariant y <= 8
      invariant forall x, y' :: 0 <= x < 8 && 0 <= y' < y ==> s[x, y'] == Sample(PlaneOf(plane), x, y')
    {
      var x: nat := 0;
      while x < 8
        invariant x <= 8
        invariant forall x', y' :: 0 <= x' < 8 && 0 <= y' < y ==> s[x', y'] == Sample(PlaneOf(plane), x', y')
        invariant forall x' :: 0 <= x' < x ==> s[x', y] == Sample(PlaneOf(plane), x', y)
      {
        var b: int := plane[y, x];
        s[x, y] := b - 128;
        x := x + 1;
      }
      y := y + 1;
    }
  }

  method HorizontalPass(s: array2<int>, ghost p: Plane) returns (horiz: array2<int>)
    requires s.Length0 == 8 && s.Length1 == 8
    requires forall x, y :: 0 <= x < 8 && 0 <= y < 8 ==> s[x, y] == Sample(p, x, y)
    ensures fresh(horiz) && horiz.Length0 == 8 && horiz.Length1 == 8
    ensures forall u, y :: 0 <= u < 8 && 0 <= y < 8 ==> horiz[u, y] == Horiz(p, u, y)
  {
    horiz := new int[8, 8];
    var u: nat := 0;
    while u < 8
      invariant u <= 8
      invariant forall u', y :: 0 <= u' < u && 0 <= y < 8 ==> horiz[u', y] == Horiz(p, u', y)
    {
      var y: nat := 0;
      while y < 8
        invariant y <= 8
        invariant forall u', y' :: 0 <= u' < u && 0 <= y' < 8 ==> horiz[u', y'] == Horiz(p, u', y')
        invariant forall y' :: 0 <= y' < y ==> horiz[u, y'] == Horiz(p, u, y')
      {
        var sum := 0;
        var x: nat := 0;
        while x < 8
          invariant x <= 8 && sum == HorizSum(p, u, y, x)
        {
          sum := sum + s[x, y] * COS[u][x];
          x := x + 1;
        }
        horiz[u, y] := sum;
        y := y + 1;
      }
      u := u + 1;
    }
  }

  /** The level of one pair of frequencies. */
  method VerticalLevel(horiz: array2<int>, q: Table8, u: nat, v: nat, ghost p: Plane) returns (level: int)
    requires horiz.Length0 == 8 && horiz.Length1 == 8 && u < 8 && v < 8 && Steps(q)
    requires forall y :: 0 <= y < 8 ==> horiz[u, y] == Horiz(p, u, y)
    ensures level == Level(p, q, u, v)
  {
    hide Horiz, Clamp, QuantRound, RShiftRound28;
    var sum := 0;
    var y: nat := 0;
    while y < 8
      invariant y <= 8 && sum == VertSum(p, u, v, y)
    {
      sum := sum + horiz[u, y] * COS[v][y];
      y := y + 1;
    }
    level := Clamp(QuantRound(RShiftRound28(sum), q[v][u]), -1023, 1023);
  }

  method VerticalPass(horiz: array2<int>, q: Table8, ghost p: Plane) returns (natural: array<int>)
    requires horiz.Length0 == 8 && horiz.Length1 == 8 && Steps(q)
    requires forall u, y :: 0 <= u < 8 && 0 <= y < 8 ==> horiz[u, y] == Horiz(p, u, y)
    ensures fresh(natural) && natural.Length == 64
    ensures forall n :: 0 <= n < 64 ==> natural[n] == Level(p, q, n % 8, n / 8)
  {
    hide Level, Horiz, Steps;
    natural := new int[64];
    var u: nat := 0;
    while u < 8
      invariant u <= 8
      invariant forall n :: 0 <= n < 64 && n % 8 < u ==> natural[n] == Level(p, q, n % 8, n / 8)
    {
      var v: nat := 0;
      while v < 8
        invariant v <= 8
        invariant forall n :: 0 <= n < 64 && (n % 8 < u || (n % 8 == u && n / 8 < v)) ==>
                    natural[n] == Level(p, q, n % 8, n / 8)
      {
        var level := VerticalLevel(horiz, q, u, v, p);
        natural[v * 8 + u] := level;
        v := v + 1;
      }
      u := u + 1;
    }
  }
}
