/** From the decoded file back to the picture: where each block stands, what its samples are, and how near they come
    to the pixels. */
module JpegPicture {
  import opened Results
  import opened Words
  import opened JpegDct
  import opened JpegScan
  import opened JpegEncoder
  import opened JpegDecoder
  import opened JpegCosine
  import O = Orthogonal
  import opened JpegBasis
  import opened JpegInverse
  import opened JpegAccuracy

  // ---- the tables of the standard ----

  // Tables K.1 and K.2 of T.81.
  const ANNEX_K_LUMA: Table8 := [
    [16, 11, 10, 16, 24, 40, 51, 61], [12, 12, 14, 19, 26, 58, 60, 55],
    [14, 13, 16, 24, 40, 57, 69, 56], [14, 17, 22, 29, 51, 87, 80, 62],
    [18, 22, 37, 56, 68, 109, 103, 77], [24, 35, 55, 64, 81, 104, 113, 92],
    [49, 64, 78, 87, 103, 121, 120, 101], [72, 92, 95, 98, 112, 100, 103, 99]]

  const ANNEX_K_CHROMA: Table8 := [
    [17, 18, 24, 47, 99, 99, 99, 99], [18, 21, 26, 66, 99, 99, 99, 99],
    [24, 26, 56, 99, 99, 99, 99, 99], [47, 66, 99, 99, 99, 99, 99, 99],
    [99, 99, 99, 99, 99, 99, 99, 99], [99, 99, 99, 99, 99, 99, 99, 99],
    [99, 99, 99, 99, 99, 99, 99, 99], [99, 99, 99, 99, 99, 99, 99, 99]]

  /** A table entry at quality 85. */
  function AtQuality85(v: int): int {
    (v * (200 - 2 * 85) + 50) / 100
  }

  lemma LumaIsAnnexK(v: nat, u: nat)
    requires v < 8 && u < 8
    ensures QUANT_LUMA[v][u] == AtQuality85(ANNEX_K_LUMA[v][u])
  {
  }

  lemma ChromaIsAnnexK(v: nat, u: nat)
    requires v < 8 && u < 8
    ensures QUANT_CHROMA[v][u] == AtQuality85(ANNEX_K_CHROMA[v][u])
  {
  }

  /** The encoder's quantisation steps are those of Annex K at quality 85. */
  lemma StepsAreAnnexK(v: nat, u: nat)
    requires v < 8 && u < 8
    ensures QUANT_LUMA[v][u] == AtQuality85(ANNEX_K_LUMA[v][u]) && QUANT_CHROMA[v][u] == AtQuality85(ANNEX_K_CHROMA[v][u])
  {
    LumaIsAnnexK(v, u);
    ChromaIsAnnexK(v, u);
  }

  /** The scan position after (v, u): along the diagonal, up on even and down on odd ones, turning at the edges. */
  function WalkOn(v: nat, u: nat): (nat, nat)
    requires v < 8 && u < 8
  {
    if (v + u) % 2 == 0 then
      if u == 7 then (v + 1, u) else if v == 0 then (v, u + 1) else (v - 1, u + 1)
    else
      if v == 7 then (v, u + 1) else if u == 0 then (v + 1, u) else (v + 1, u - 1)
  }

  /** The natural index that follows `n` on the walk. */
  function Walked(n: int): int
    requires 0 <= n < 64
  {
    var (v, u) := WalkOn(n / 8, n % 8);
    8 * v + u
  }

  lemma WalksAlongUpper(i: nat, k: nat)
    requires i < 4 && k < 7
    ensures 0 <= ZIGZAG[i][k] < 64 && ZIGZAG[i][k + 1] == Walked(ZIGZAG[i][k])
  {
  }

  lemma WalksAlongLower(i: nat, k: nat)
    requires 4 <= i < 8 && k < 7
    ensures 0 <= ZIGZAG[i][k] < 64 && ZIGZAG[i][k + 1] == Walked(ZIGZAG[i][k])
  {
  }

  lemma WalksOver(i: nat)
    requires i < 7
    ensures 0 <= ZIGZAG[i][7] < 64 && ZIGZAG[i + 1][0] == Walked(ZIGZAG[i][7]) && ZIGZAG[0][0] == 0
  {
  }

  /** The scan is the zigzag walk of T.81 figure A.6. */
  lemma ZigzagWalks(j: nat)
    requires j < 63
    ensures Zigzag(0) == 0 && 0 <= Zigzag(j) < 64 && Zigzag(j + 1) == Walked(Zigzag(j))
  {
    hide Walked, ZIGZAG;
    WalksOver(0);
    if j % 8 == 7 {
      WalksOver(j / 8);
      assert (j + 1) / 8 == j / 8 + 1 && (j + 1) % 8 == 0;
    } else {
      if j < 32 {
        WalksAlongUpper(j / 8, j % 8);
      } else {
        WalksAlongLower(j / 8, j % 8);
      }
      assert (j + 1) / 8 == j / 8 && (j + 1) % 8 == j % 8 + 1;
    }
  }

  // ---- the pixels ----

  /** Every pixel of the picture survives the conversion of its three bytes, to within rounding. */
  lemma PixelComesBack(img: Image, x: nat, y: nat)
    requires ValidImage(img) && x < img.width && y < img.height
    ensures var at := y * img.stride + 3 * x;
      && 0 <= at && at + 2 < |img.rgb|
      && GivesBack(PixelAt(img, x, y), img.rgb[at], img.rgb[at + 1], img.rgb[at + 2])
  {
    hide RgbToYcc, GivesBack;
    PixelInBuffer(img, x, y);
    var at := y * img.stride + 3 * x;
    ColourComesBack(img.rgb[at], img.rgb[at + 1], img.rgb[at + 2]);
  }

  /** Past its edges the picture goes on as its last column and row. */
  lemma EdgesGoOn(img: Image, x: nat, y: nat)
    requires ValidImage(img)
    ensures PixelAt(img, x, y)
         == PixelAt(img, if x < img.width then x else img.width - 1, if y < img.height then y else img.height - 1)
  {
  }

  /** The rounded average of four samples. */
  lemma AverageNear(a: byte, b: byte, c: byte, d: byte)
    ensures -2 <= 4 * Average(a, b, c, d) as int - (a as int + b as int + c as int + d as int) <= 2
  {
  }

  // ---- where blocks stand ----

  lemma {:induction false} RowBlockAt(img: Image, my: nat, n: nat, mx: nat, k: nat)
    requires ValidImage(img) && k < 6
    ensures |RowBlocks(img, my, n)| == 6 * n
    ensures mx < n ==> RowBlocks(img, my, n)[6 * mx + k] == UnitBlock(img, mx, my, k)
  {
    hide UnitBlock;
    if n != 0 {
      RowBlockAt(img, my, n - 1, mx, k);
    }
  }

  lemma {:induction false} ImageBlockAt(img: Image, n: nat, mx: nat, my: nat, k: nat)
    requires ValidImage(img) && k < 6 && mx < UnitsWide(img)
    ensures |ImageBlocks(img, n)| == 6 * (n * UnitsWide(img))
    ensures my < n ==> 6 * (my * UnitsWide(img) + mx) + k < |ImageBlocks(img, n)|
    ensures my < n ==> ImageBlocks(img, n)[6 * (my * UnitsWide(img) + mx) + k] == UnitBlock(img, mx, my, k)
  {
    hide UnitBlock, UnitsWide, RowBlocks;
    if n != 0 {
      var w := UnitsWide(img);
      ImageBlockAt(img, n - 1, mx, my, k);
      RowBlockAt(img, n - 1, w, mx, k);
      assert n * w == (n - 1) * w + w;
      if my < n - 1 {
        MulStep(my, n - 1, w);
      }
    }
  }

  /** The place in the scan of the block in column `col` of row `row` of component `k`, by the interleaving of T.81
      section A.2.3. */
  function BlockPlace(f: Frame, k: nat, col: nat, row: nat): int
    requires k < |f.comps| && 0 < f.comps[k].across && 0 < f.comps[k].down
  {
    var c := f.comps[k];
    var wide := Cover(f.width, 8 * Most(Across(f.comps)));
    |UnitOrder(f.comps, |f.comps|)| * (row / c.down * wide + col / c.across)
    + (|UnitOrder(f.comps, k)| + (row % c.down * c.across + col % c.across))
  }

  lemma LumaPlace(width: nat, height: nat, col: nat, row: nat)
    ensures BlockPlace(FrameOf(width, height), 0, col, row)
         == 6 * (row / 2 * ((width + 15) / 16) + col / 2) + (2 * (row % 2) + col % 2)
  {
    hide UnitOrder, Most, Across;
    FrameUnits(width, height);
    FirstOrders(width, height);
  }

  lemma ChromaPlace(width: nat, height: nat, k: nat, col: nat, row: nat)
    requires 1 <= k <= 2
    ensures BlockPlace(FrameOf(width, height), k, col, row) == 6 * (row * ((width + 15) / 16) + col) + (k + 3)
  {
    hide UnitOrder, Most, Across;
    FrameUnits(width, height);
    FirstOrders(width, height);
    assert row / 1 == row && col / 1 == col && row % 1 == 0 && col % 1 == 0;
  }

  lemma FirstOrders(width: nat, height: nat)
    ensures var comps := FrameOf(width, height).comps;
      |comps| == 3 && |UnitOrder(comps, 0)| == 0 && |UnitOrder(comps, 1)| == 4 && |UnitOrder(comps, 2)| == 5
  {
    var comps := FrameOf(width, height).comps;
    assert |Copies([0], 4)| == 4;
    assert |Copies([1], 1)| == 1;
  }

  // ---- what the blocks show ----

  /** The coefficients of a decoded block by frequency, restored with the table of its component. */
  ghost function Restored(d: Picture, i: nat): O.Matrix
    requires i < |d.blocks| && d.blocks[i].comp < |d.quants| && |d.quants[d.blocks[i].comp]| == 64
    requires |d.blocks[i].levels| == 64
  {
    (u: nat, v: nat) =>
      if u < 8 && v < 8 then
        ZigzagIsPermutation(8 * v + u);
        var j := ScanPosition(8 * v + u);
        (d.blocks[i].levels[j] * d.quants[d.blocks[i].comp][j] as int) as real
      else 0.0
  }

  /** A decoded block holds the levels of `p`, with the table `q`. */
  ghost predicate Shows(d: Picture, i: nat, p: Plane, q: Table8)
    requires Steps(q)
  {
    && i < |d.blocks| && d.blocks[i].comp < |d.quants|
    && d.blocks[i].levels == Levels(p, q) && d.quants[d.blocks[i].comp] == QuantBytes(q)
  }

  lemma RestoredIs(d: Picture, i: nat, p: Plane, q: Table8)
    requires (q == QUANT_LUMA || q == QUANT_CHROMA) && Steps(q) && Shows(d, i, p, q)
    ensures |QuantBytes(q)| == 64 && |Levels(p, q)| == 64
    ensures Agree(Restored(d, i), Dequantised(p, q))
  {
    hide Zigzag, ScanPosition, Level, QUANT_LUMA, QUANT_CHROMA;
    QuantBytesCount(q);
    forall u: nat, v: nat | u < 8 && v < 8
      ensures Restored(d, i)(u, v) == Dequantised(p, q)(u, v)
    {
      RestoredAt(d, i, p, q, u, v);
    }
  }

  lemma RestoredAt(d: Picture, i: nat, p: Plane, q: Table8, u: nat, v: nat)
    requires (q == QUANT_LUMA || q == QUANT_CHROMA) && Steps(q) && Shows(d, i, p, q) && u < 8 && v < 8
    requires |QuantBytes(q)| == 64 && |Levels(p, q)| == 64
    ensures Restored(d, i)(u, v) == Dequantised(p, q)(u, v)
  {
    hide Zigzag, ScanPosition, Level, Levels, QuantBytes, QUANT_LUMA, QUANT_CHROMA;
    var n := 8 * v + u;
    ZigzagIsPermutation(n);
    var j := ScanPosition(n);
    assert Zigzag(j) == n && n / 8 == v && n % 8 == u;
    QuantBytesAre(q, j);
    LevelInOrder(p, q, j);
  }

  /** A block that holds the levels of `p` shows the samples of `p`, the squares of the differences adding up to no more
      than the quantiser allows. */
  lemma ShownNear(c: int -> real, d: Picture, i: nat, p: Plane, q: Table8)
    requires IsCosine(c) && (q == QUANT_LUMA || q == QUANT_CHROMA) && Steps(q) && Shows(d, i, p, q)
    ensures |QuantBytes(q)| == 64 && |Levels(p, q)| == 64
    ensures SumSquares(Minus(Samples(p), InverseOf(c, Restored(d, i)))) <= O.Total(StepSquares(q), 8, 8)
  {
    hide IsCosine, Levels, QuantBytes, Samples, SumSquares, InverseOf, Restored, Dequantised, StepSquares, QUANT_LUMA, QUANT_CHROMA;
    RestoredIs(d, i, p, q);
    SamplesComeBack(c, p, q);
    InverseAgree(c, Restored(d, i), Dequantised(p, q));
    MinusAgree(Samples(p), InverseOf(c, Restored(d, i)), Samples(p), InverseOf(c, Dequantised(p, q)));
    SumSquaresAgree(Minus(Samples(p), InverseOf(c, Restored(d, i))), Minus(Samples(p), InverseOf(c, Dequantised(p, q))));
  }

  lemma InverseAgree(c: int -> real, f: O.Matrix, g: O.Matrix)
    requires Agree(f, g)
    ensures Agree(InverseOf(c, f), InverseOf(c, g))
  {
    hide O.Mul, Basis, Agree;
    forall x: nat, y: nat
      ensures Inverse(c, f, x, y) == Inverse(c, g, x, y)
    {
      InverseSame(c, f, g, x, y);
    }
    EverywhereAgree(c, f, g);
  }

  lemma EverywhereAgree(c: int -> real, f: O.Matrix, g: O.Matrix)
    requires forall x: nat, y: nat :: Inverse(c, f, x, y) == Inverse(c, g, x, y)
    ensures Agree(InverseOf(c, f), InverseOf(c, g))
  {
    hide Inverse;
  }

  lemma InverseSame(c: int -> real, f: O.Matrix, g: O.Matrix, x: nat, y: nat)
    requires Agree(f, g)
    ensures Inverse(c, f, x, y) == Inverse(c, g, x, y)
  {
    hide O.Mul, Basis;
    forall u: nat | u < 8
      ensures O.Line(InverseTerms(c, f, x, y), u, 8) == O.Line(InverseTerms(c, g, x, y), u, 8)
    {
      O.LineSame(InverseTerms(c, f, x, y), InverseTerms(c, g, x, y), u, 8);
    }
    O.TotalByLines(InverseTerms(c, f, x, y), InverseTerms(c, g, x, y), 8, 8);
  }

  // ---- the error budget ----

  /** The sum over the first `n` entries of row `v` of `(2 q + 3)^2`: sixteen times the squares of `q / 2 + 3 / 4`. */
  function RowBudget(q: Table8, v: nat, n: nat): int
    requires v < 8 && n <= 8
  {
    if n == 0 then 0 else RowBudget(q, v, n - 1) + (2 * q[v][n - 1] + 3) * (2 * q[v][n - 1] + 3)
  }

  function Budget(q: Table8, n: nat): int
    requires n <= 8
  {
    if n == 0 then 0 else Budget(q, n - 1) + RowBudget(q, n - 1, 8)
  }

  ghost function StepRows(q: Table8): O.Matrix {
    (v: nat, u: nat) => StepSquares(q)(u, v)
  }

  lemma {:induction false} RowBudgetIs(q: Table8, v: nat, n: nat)
    requires v < 8 && n <= 8
    ensures 16.0 * O.Line(StepRows(q), v, n) == RowBudget(q, v, n) as real
  {
    hide O.Mul;
    if n != 0 {
      var u: nat := n - 1;
      RowBudgetIs(q, v, u);
      StepSquareIs(q[v][u]);
      assert StepRows(q)(v, u) == StepSquares(q)(u, v);
      assert StepSquares(q)(u, v) == O.Mul(q[v][u] as real / 2.0 + 0.75, q[v][u] as real / 2.0 + 0.75);
    }
  }

  lemma StepSquareIs(s: int)
    ensures 16.0 * O.Mul(s as real / 2.0 + 0.75, s as real / 2.0 + 0.75) == ((2 * s + 3) * (2 * s + 3)) as real
  {
    var r := s as real;
    assert ((2 * s + 3) * (2 * s + 3)) as real == (2.0 * r + 3.0) * (2.0 * r + 3.0);
  }

  lemma {:induction false} BudgetIs(q: Table8, n: nat)
    requires n <= 8
    ensures 16.0 * O.Total(StepRows(q), n, 8) == Budget(q, n) as real
  {
    hide StepRows, RowBudget;
    if n != 0 {
      BudgetIs(q, n - 1);
      RowBudgetIs(q, n - 1, 8);
    }
  }

  lemma BudgetTotal(q: Table8)
    ensures 16.0 * O.Total(StepSquares(q), 8, 8) == Budget(q, 8) as real
  {
    hide StepSquares;
    BudgetIs(q, 8);
    O.TotalTransposed(StepSquares(q), StepRows(q), 8, 8);
  }

  lemma UpperLumaRows()
    ensures RowBudget(QUANT_LUMA, 0, 8) == 4128 && RowBudget(QUANT_LUMA, 1, 8) == 5208
    ensures RowBudget(QUANT_LUMA, 2, 8) == 6192 && RowBudget(QUANT_LUMA, 3, 8) == 9416
  {
    hide RowBudget;
    RowBudgetSum(QUANT_LUMA, 0);
    RowBudgetSum(QUANT_LUMA, 1);
    RowBudgetSum(QUANT_LUMA, 2);
    RowBudgetSum(QUANT_LUMA, 3);
  }

  lemma LowerLumaRows()
    ensures RowBudget(QUANT_LUMA, 4, 8) == 15688 && RowBudget(QUANT_LUMA, 5, 8) == 19312
    ensures RowBudget(QUANT_LUMA, 6, 8) == 27640 && RowBudget(QUANT_LUMA, 7, 8) == 30336
  {
    hide RowBudget;
    RowBudgetSum(QUANT_LUMA, 4);
    RowBudgetSum(QUANT_LUMA, 5);
    RowBudgetSum(QUANT_LUMA, 6);
    RowBudgetSum(QUANT_LUMA, 7);
  }

  lemma ChromaRows()
    ensures RowBudget(QUANT_CHROMA, 0, 8) == 17464 && RowBudget(QUANT_CHROMA, 1, 8) == 18480
    ensures RowBudget(QUANT_CHROMA, 2, 8) == 21864 && RowBudget(QUANT_CHROMA, 3, 8) == 26624
    ensures forall v :: 4 <= v < 8 ==> RowBudget(QUANT_CHROMA, v, 8) == 31752
  {
    hide RowBudget;
    RowBudgetSum(QUANT_CHROMA, 0);
    RowBudgetSum(QUANT_CHROMA, 1);
    RowBudgetSum(QUANT_CHROMA, 2);
    RowBudgetSum(QUANT_CHROMA, 3);
    RowBudgetSum(QUANT_CHROMA, 4);
    RowBudgetSum(QUANT_CHROMA, 5);
    RowBudgetSum(QUANT_CHROMA, 6);
    RowBudgetSum(QUANT_CHROMA, 7);
  }

  function SquareOf(s: int): int {
    (2 * s + 3) * (2 * s + 3)
  }

  function EightSquares(r: seq<int>): int
    requires |r| == 8
  {
    SquareOf(r[0]) + SquareOf(r[1]) + SquareOf(r[2]) + SquareOf(r[3])
    + SquareOf(r[4]) + SquareOf(r[5]) + SquareOf(r[6]) + SquareOf(r[7])
  }

  lemma RowBudgetSum(q: Table8, v: nat)
    requires v < 8
    ensures RowBudget(q, v, 8) == EightSquares(q[v])
  {
    assert RowBudget(q, v, 1) == SquareOf(q[v][0]);
    assert RowBudget(q, v, 2) == SquareOf(q[v][0]) + SquareOf(q[v][1]);
    assert RowBudget(q, v, 4) == RowBudget(q, v, 2) + SquareOf(q[v][2]) + SquareOf(q[v][3]);
    assert RowBudget(q, v, 6) == RowBudget(q, v, 4) + SquareOf(q[v][4]) + SquareOf(q[v][5]);
  }

  lemma BudgetSum(q: Table8)
    ensures Budget(q, 8) == RowBudget(q, 0, 8) + RowBudget(q, 1, 8) + RowBudget(q, 2, 8) + RowBudget(q, 3, 8)
                            + RowBudget(q, 4, 8) + RowBudget(q, 5, 8) + RowBudget(q, 6, 8) + RowBudget(q, 7, 8)
  {
    hide RowBudget;
    assert Budget(q, 1) == RowBudget(q, 0, 8);
    assert Budget(q, 2) == RowBudget(q, 0, 8) + RowBudget(q, 1, 8);
    assert Budget(q, 4) == Budget(q, 2) + RowBudget(q, 2, 8) + RowBudget(q, 3, 8);
    assert Budget(q, 6) == Budget(q, 4) + RowBudget(q, 4, 8) + RowBudget(q, 5, 8);
  }

  lemma Budgets()
    ensures O.Total(StepSquares(QUANT_LUMA), 8, 8) == 7370.0 && O.Total(StepSquares(QUANT_CHROMA), 8, 8) == 13215.0
  {
    hide RowBudget, Budget, StepSquares, QUANT_LUMA, QUANT_CHROMA;
    BudgetTotal(QUANT_LUMA);
    BudgetSum(QUANT_LUMA);
    UpperLumaRows();
    LowerLumaRows();
    BudgetTotal(QUANT_CHROMA);
    BudgetSum(QUANT_CHROMA);
    ChromaRows();
  }

  // ---- the picture comes back ----

  /** The luminance of the 64 pixels of a block, less 128. */
  ghost function LumaSamples(img: Image, col: nat, row: nat): O.Matrix
    requires ValidImage(img)
  {
    (x: nat, y: nat) => PixelAt(img, 8 * col + x, 8 * row + y).y as int as real - 128.0
  }

  /** One chrominance of four pixels, averaged, for each of the 64 places of a block, less 128. */
  ghost function ChromaSamples(img: Image, k: nat, col: nat, row: nat): O.Matrix
    requires ValidImage(img) && 1 <= k <= 2
  {
    (x: nat, y: nat) => ChromaAt(img, k, 16 * col + 2 * x, 16 * row + 2 * y) as int as real - 128.0
  }

  lemma LumaShown(img: Image, col: nat, row: nat)
    requires ValidImage(img) && col < 2 * UnitsWide(img) && row < 2 * UnitsHigh(img)
    ensures Steps(QUANT_LUMA)
    ensures var i := BlockPlace(FrameOf(img.width, img.height), 0, col, row);
      0 <= i && Shows(AsDecoded(img), i, LumaPlane(img, col, row), QUANT_LUMA)
      && AsDecoded(img).blocks[i].comp == 0
  {
    hide ImageBlocks, BlockPlace, Levels, QuantBytes, LumaPlane, QUANT_LUMA, QUANT_CHROMA;
    QuantTablesOk();
    LumaPlace(img.width, img.height, col, row);
    var k: nat := 2 * (row % 2) + col % 2;
    ImageBlockAt(img, UnitsHigh(img), col / 2, row / 2, k);
    NotNegative(row / 2, UnitsWide(img));
    assert k % 2 == col % 2 && k / 2 == row % 2;
    assert col / 2 * 2 + k % 2 == col && row / 2 * 2 + k / 2 == row;
  }

  lemma NotNegative(a: nat, b: nat)
    ensures 0 <= a * b
  {
  }

  lemma ChromaShown(img: Image, k: nat, col: nat, row: nat)
    requires ValidImage(img) && 1 <= k <= 2 && col < UnitsWide(img) && row < UnitsHigh(img)
    ensures Steps(QUANT_CHROMA)
    ensures var i := BlockPlace(FrameOf(img.width, img.height), k, col, row);
      0 <= i && Shows(AsDecoded(img), i, ChromaPlane(img, k, col * 16, row * 16), QUANT_CHROMA)
      && AsDecoded(img).blocks[i].comp == k
  {
    hide ImageBlocks, BlockPlace, Levels, QuantBytes, ChromaPlane, QUANT_LUMA, QUANT_CHROMA;
    QuantTablesOk();
    ChromaPlace(img.width, img.height, k, col, row);
    ImageBlockAt(img, UnitsHigh(img), col, row, k + 3);
    NotNegative(row, UnitsWide(img));
  }

  /** What the decoded file shows of the luminance of a block of pixels, by the inverse transform and at its place in
      the scan: the squares of the 64 differences add up to at most 7370. */
  lemma LumaComesBack(c: int -> real, img: Image, col: nat, row: nat)
    requires IsCosine(c) && ValidImage(img) && col < 2 * UnitsWide(img) && row < 2 * UnitsHigh(img)
    ensures var d, i := AsDecoded(img), BlockPlace(FrameOf(img.width, img.height), 0, col, row);
      && 0 <= i < |d.blocks| && d.blocks[i].comp == 0 && |d.blocks[i].levels| == 64 && |d.quants[0]| == 64
      && SumSquares(Minus(LumaSamples(img, col, row), InverseOf(c, Restored(d, i)))) <= 7370.0
  {
    hide IsCosine, BlockPlace, AsDecoded, SumSquares, InverseOf, Restored, StepSquares, QUANT_LUMA, QUANT_CHROMA, ImageBlocks;
    var d, i := AsDecoded(img), BlockPlace(FrameOf(img.width, img.height), 0, col, row);
    var p := LumaPlane(img, col, row);
    LumaShown(img, col, row);
    ShownNear(c, d, i, p, QUANT_LUMA);
    Budgets();
    LumaSamplesAre(img, col, row);
    MinusAgree(LumaSamples(img, col, row), InverseOf(c, Restored(d, i)), Samples(p), InverseOf(c, Restored(d, i)));
    SumSquaresAgree(Minus(LumaSamples(img, col, row), InverseOf(c, Restored(d, i))),
                    Minus(Samples(p), InverseOf(c, Restored(d, i))));
  }

  lemma LumaSamplesAre(img: Image, col: nat, row: nat)
    requires ValidImage(img)
    ensures Agree(LumaSamples(img, col, row), Samples(LumaPlane(img, col, row)))
  {
    hide LumaPlane, PixelAt;
  }

  lemma ChromaSamplesAre(img: Image, k: nat, col: nat, row: nat)
    requires ValidImage(img) && 1 <= k <= 2
    ensures Agree(ChromaSamples(img, k, col, row), Samples(ChromaPlane(img, k, col * 16, row * 16)))
  {
    hide ChromaPlane, ChromaAt;
  }

  /** The same for either chrominance, each sample standing for four pixels: at most 13215. */
  lemma ChromaComesBack(c: int -> real, img: Image, k: nat, col: nat, row: nat)
    requires IsCosine(c) && ValidImage(img) && 1 <= k <= 2 && col < UnitsWide(img) && row < UnitsHigh(img)
    ensures var d, i := AsDecoded(img), BlockPlace(FrameOf(img.width, img.height), k, col, row);
      && 0 <= i < |d.blocks| && d.blocks[i].comp == k && |d.blocks[i].levels| == 64 && |d.quants[k]| == 64
      && SumSquares(Minus(ChromaSamples(img, k, col, row), InverseOf(c, Restored(d, i)))) <= 13215.0
  {
    hide IsCosine, BlockPlace, AsDecoded, SumSquares, InverseOf, Restored, StepSquares, QUANT_LUMA, QUANT_CHROMA, ImageBlocks;
    var d, i := AsDecoded(img), BlockPlace(FrameOf(img.width, img.height), k, col, row);
    var p := ChromaPlane(img, k, col * 16, row * 16);
    ChromaShown(img, k, col, row);
    ShownNear(c, d, i, p, QUANT_CHROMA);
    Budgets();
    ChromaSamplesAre(img, k, col, row);
    MinusAgree(ChromaSamples(img, k, col, row), InverseOf(c, Restored(d, i)), Samples(p), InverseOf(c, Restored(d, i)));
    SumSquaresAgree(Minus(ChromaSamples(img, k, col, row), InverseOf(c, Restored(d, i))),
                    Minus(Samples(p), InverseOf(c, Restored(d, i))));
  }

  /** A chrominance sample is the rounded average of its four pixels: twice the column and row, and one on. */
  lemma ChromaSampleNear(img: Image, k: nat, x: nat, y: nat)
    requires ValidImage(img) && 1 <= k <= 2
    ensures var a, b, c, d := PixelAt(img, x, y), PixelAt(img, x + 1, y), PixelAt(img, x, y + 1), PixelAt(img, x + 1, y + 1);
      var sum := if k == 1 then a.cb as int + b.cb as int + c.cb as int + d.cb as int
                 else a.cr as int + b.cr as int + c.cr as int + d.cr as int;
      -2 <= 4 * ChromaAt(img, k, x, y) as int - sum <= 2
  {
    hide PixelAt, Average;
    var a, b, c, d := PixelAt(img, x, y), PixelAt(img, x + 1, y), PixelAt(img, x, y + 1), PixelAt(img, x + 1, y + 1);
    AverageNear(a.cb, b.cb, c.cb, d.cb);
    AverageNear(a.cr, b.cr, c.cr, d.cr);
  }
}
