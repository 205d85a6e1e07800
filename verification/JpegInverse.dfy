/** What the encoder's levels mean: they are the discrete cosine transform of T.81 section A.3.3 of the samples, and the
    inverse transform gives the samples back as nearly as the quantiser allows. */
module JpegInverse {
  import opened JpegCosine
  import opened Orthogonal
  import opened JpegBasis

  // ---- transforms in two directions ----

  ghost function Row(g: Matrix, y: nat): Vector {
    (x: nat) => g(x, y)
  }

  ghost function Column(g: Matrix, x: nat): Vector {
    (y: nat) => g(x, y)
  }

  ghost function Horizontal(m: Matrix, g: Matrix): Matrix {
    (u: nat, y: nat) => Times(m, Row(g, y), u, 8)
  }

  ghost function Vertical(m: Matrix, g: Matrix): Matrix {
    (x: nat, v: nat) => Times(m, Column(g, x), v, 8)
  }

  ghost function Minus(f: Matrix, g: Matrix): Matrix {
    (i: nat, j: nat) => f(i, j) - g(i, j)
  }

  ghost predicate Agree(f: Matrix, g: Matrix) {
    forall i: nat, j: nat :: i < 8 && j < 8 ==> f(i, j) == g(i, j)
  }

  ghost function Squared(g: Matrix): Matrix {
    (i: nat, j: nat) => Mul(g(i, j), g(i, j))
  }

  ghost function SumSquares(g: Matrix): real {
    Total(Squared(g), 8, 8)
  }

  lemma HorizontalMinus(m: Matrix, f: Matrix, g: Matrix, d: Matrix)
    requires Agree(d, Minus(f, g))
    ensures Agree(Horizontal(m, d), Minus(Horizontal(m, f), Horizontal(m, g)))
  {
    hide Mul;
    forall u: nat, y: nat | u < 8 && y < 8
      ensures Horizontal(m, d)(u, y) == Horizontal(m, f)(u, y) - Horizontal(m, g)(u, y)
    {
      assert forall x: nat :: x < 8 ==> d(x, y) == Minus(f, g)(x, y);
      TimesMinus(m, Row(f, y), Row(g, y), Row(d, y), u, 8);
    }
  }

  lemma VerticalMinus(m: Matrix, f: Matrix, g: Matrix, d: Matrix)
    requires Agree(d, Minus(f, g))
    ensures Agree(Vertical(m, d), Minus(Vertical(m, f), Vertical(m, g)))
  {
    hide Mul;
    forall x: nat, v: nat | x < 8 && v < 8
      ensures Vertical(m, d)(x, v) == Vertical(m, f)(x, v) - Vertical(m, g)(x, v)
    {
      assert forall y: nat :: y < 8 ==> d(x, y) == Minus(f, g)(x, y);
      TimesMinus(m, Column(f, x), Column(g, x), Column(d, x), v, 8);
    }
  }

  lemma VerticalAgree(m: Matrix, f: Matrix, g: Matrix)
    requires Agree(f, g)
    ensures Agree(Vertical(m, f), Vertical(m, g))
  {
    forall x: nat, v: nat | x < 8 && v < 8
      ensures Vertical(m, f)(x, v) == Vertical(m, g)(x, v)
    {
      TimesSame(m, Column(f, x), Column(g, x), v, 8);
    }
  }

  lemma HorizontalUndoes(m: Matrix, t: Matrix, g: Matrix)
    requires Orthonormal(m) && Transposes(m, t)
    ensures Agree(Horizontal(m, Horizontal(t, g)), g)
  {
    hide Orthonormal, Transposes, Mul;
    forall u: nat, y: nat | u < 8 && y < 8
      ensures Horizontal(m, Horizontal(t, g))(u, y) == g(u, y)
    {
      Undoes(m, t, Row(g, y), Row(Horizontal(t, g), y));
      assert Row(g, y)(u) == Times(m, Row(Horizontal(t, g), y), u, 8);
    }
  }

  lemma VerticalUndoes(m: Matrix, t: Matrix, g: Matrix)
    requires Orthonormal(m) && Transposes(m, t)
    ensures Agree(Vertical(m, Vertical(t, g)), g)
  {
    hide Orthonormal, Transposes, Mul;
    forall x: nat, v: nat | x < 8 && v < 8
      ensures Vertical(m, Vertical(t, g))(x, v) == g(x, v)
    {
      Undoes(m, t, Column(g, x), Column(Vertical(t, g), x));
      assert Column(g, x)(v) == Times(m, Column(Vertical(t, g), x), v, 8);
    }
  }

  lemma VerticalEnergy(m: Matrix, t: Matrix, g: Matrix)
    requires Orthonormal(t) && Transposes(m, t)
    ensures SumSquares(Vertical(m, g)) == SumSquares(g)
  {
    hide Orthonormal, Transposes, Mul;
    var h := Vertical(m, g);
    forall x: nat | x < 8
      ensures Line(Squared(h), x, 8) == Line(Squared(g), x, 8)
    {
      Energy(m, t, Column(g, x), Column(h, x));
      LineSquares(Squared(h), Column(h, x), x, 8);
      LineSquares(Squared(g), Column(g, x), x, 8);
    }
    TotalByLines(Squared(h), Squared(g), 8, 8);
  }

  ghost function Turned(g: Matrix): Matrix {
    (i: nat, j: nat) => g(j, i)
  }

  lemma HorizontalEnergy(m: Matrix, t: Matrix, g: Matrix)
    requires Orthonormal(t) && Transposes(m, t)
    ensures SumSquares(Horizontal(m, g)) == SumSquares(g)
  {
    hide Orthonormal, Transposes, Mul;
    var h := Horizontal(m, g);
    TotalTransposed(Squared(h), Turned(Squared(h)), 8, 8);
    TotalTransposed(Squared(g), Turned(Squared(g)), 8, 8);
    forall y: nat | y < 8
      ensures Line(Turned(Squared(h)), y, 8) == Line(Turned(Squared(g)), y, 8)
    {
      Energy(m, t, Row(g, y), Row(h, y));
      LineSquares(Turned(Squared(h)), Row(h, y), y, 8);
      LineSquares(Turned(Squared(g)), Row(g, y), y, 8);
    }
    TotalByLines(Turned(Squared(h)), Turned(Squared(g)), 8, 8);
  }

  lemma SumSquaresAgree(f: Matrix, g: Matrix)
    requires Agree(f, g)
    ensures SumSquares(f) == SumSquares(g)
  {
    hide Mul;
    forall i: nat | i < 8
      ensures Line(Squared(f), i, 8) == Line(Squared(g), i, 8)
    {
      LineSame(Squared(f), Squared(g), i, 8);
    }
    TotalByLines(Squared(f), Squared(g), 8, 8);
  }

  // ---- the transform and its inverse ----

  /** The terms of the double sum of T.81 section A.3.3 for frequencies `u` and `v`, by row and column. */
  ghost function DctTerms(c: int -> real, s: Matrix, u: nat, v: nat): Matrix {
    (y: nat, x: nat) => Mul(Basis(c, v, y), Mul(Basis(c, u, x), s(x, y)))
  }

  /** The discrete cosine transform of samples by column and row. */
  ghost function Dct(c: int -> real, s: Matrix, u: nat, v: nat): real {
    Total(DctTerms(c, s, u, v), 8, 8)
  }

  ghost function DctOf(c: int -> real, s: Matrix): Matrix {
    (u: nat, v: nat) => Dct(c, s, u, v)
  }

  /** The terms of the inverse for the sample in column `x` of row `y`. */
  ghost function InverseTerms(c: int -> real, d: Matrix, x: nat, y: nat): Matrix {
    (u: nat, v: nat) => Mul(Basis(c, u, x), Mul(Basis(c, v, y), d(u, v)))
  }

  ghost function Inverse(c: int -> real, d: Matrix, x: nat, y: nat): real {
    Total(InverseTerms(c, d, x, y), 8, 8)
  }

  ghost function InverseOf(c: int -> real, d: Matrix): Matrix {
    (x: nat, y: nat) => Inverse(c, d, x, y)
  }

  lemma {:induction false} LineFactor(f: Matrix, m: Matrix, g: Vector, k: real, i: nat, w: nat, n: nat)
    requires forall j: nat :: j < n ==> f(i, j) == Mul(k, Mul(m(w, j), g(j)))
    ensures Line(f, i, n) == Mul(k, Times(m, g, w, n))
  {
    hide Mul;
    if n == 0 {
      ByZero(k);
    } else {
      LineFactor(f, m, g, k, i, w, n - 1);
      Distributes(k, Times(m, g, w, n - 1), Mul(m(w, n - 1), g(n - 1)));
    }
  }

  lemma {:induction false} TotalFactors(f: Matrix, m: Matrix, g: Vector, w: nat, n: nat)
    requires forall i: nat :: i < n ==> Line(f, i, 8) == Mul(m(w, i), g(i))
    ensures Total(f, n, 8) == Times(m, g, w, n)
  {
    if n != 0 {
      TotalFactors(f, m, g, w, n - 1);
    }
  }

  /** The double sum, rows first. */
  lemma DctSeparates(c: int -> real, s: Matrix)
    ensures Agree(DctOf(c, s), Vertical(Forward(c), Horizontal(Forward(c), s)))
  {
    hide Mul, Basis;
    var h := Horizontal(Forward(c), s);
    forall u: nat, v: nat | u < 8 && v < 8
      ensures Dct(c, s, u, v) == Vertical(Forward(c), h)(u, v)
    {
      var f := DctTerms(c, s, u, v);
      forall y: nat | y < 8
        ensures Line(f, y, 8) == Mul(Forward(c)(v, y), Column(h, u)(y))
      {
        LineFactor(f, Forward(c), Row(s, y), Basis(c, v, y), y, u, 8);
      }
      TotalFactors(f, Forward(c), Column(h, u), v, 8);
    }
  }

  lemma InverseSeparates(c: int -> real, d: Matrix)
    ensures Agree(InverseOf(c, d), Horizontal(Backward(c), Vertical(Backward(c), d)))
  {
    hide Mul, Basis;
    var h := Vertical(Backward(c), d);
    forall x: nat, y: nat | x < 8 && y < 8
      ensures Inverse(c, d, x, y) == Horizontal(Backward(c), h)(x, y)
    {
      var f := InverseTerms(c, d, x, y);
      forall u: nat | u < 8
        ensures Line(f, u, 8) == Mul(Backward(c)(x, u), Row(h, y)(u))
      {
        LineFactor(f, Backward(c), Column(d, u), Basis(c, u, x), u, y, 8);
      }
      TotalFactors(f, Backward(c), Row(h, y), x, 8);
    }
  }

  /** The squared difference between samples and an inverse transform is that between the transform and what was
      inverted. */
  lemma ErrorEnergy(c: int -> real, s: Matrix, d: Matrix)
    requires IsCosine(c)
    ensures SumSquares(Minus(s, InverseOf(c, d))) == SumSquares(Minus(DctOf(c, s), d))
  {
    hide IsCosine, Orthonormal, Transposes, SumSquares, Horizontal, Vertical, InverseOf, DctOf, Agree, Forward, Backward;
    RowsOrthonormal(c);
    ColumnsOrthonormal(c);
    BasisTransposes(c);
    var m, t := Forward(c), Backward(c);
    var w := Vertical(t, d);
    var i := Horizontal(t, w);
    InverseSeparates(c, d);
    DctSeparates(c, s);
    var e := Minus(s, i);
    HorizontalEnergy(m, t, e);
    VerticalEnergy(m, t, Horizontal(m, e));
    HorizontalUndoes(m, t, w);
    VerticalUndoes(m, t, d);
    ErrorTransform(m, t, s, d, e);
    MinusAgree(s, InverseOf(c, d), s, i);
    MinusAgree(DctOf(c, s), d, Vertical(m, Horizontal(m, s)), d);
    SumSquaresAgree(Minus(s, InverseOf(c, d)), e);
    SumSquaresAgree(Vertical(m, Horizontal(m, e)), Minus(Vertical(m, Horizontal(m, s)), d));
    SumSquaresAgree(Minus(DctOf(c, s), d), Minus(Vertical(m, Horizontal(m, s)), d));
  }

  lemma MinusAgree(f: Matrix, g: Matrix, f': Matrix, g': Matrix)
    requires (f == f' || Agree(f, f')) && (g == g' || Agree(g, g'))
    ensures Agree(Minus(f, g), Minus(f', g'))
  {
  }

  lemma AgreeTrans(f: Matrix, g: Matrix, h: Matrix)
    requires Agree(f, g) && Agree(g, h)
    ensures Agree(f, h)
  {
  }

  lemma ErrorTransform(m: Matrix, t: Matrix, s: Matrix, d: Matrix, e: Matrix)
    requires var w := Vertical(t, d); var i := Horizontal(t, w);
      e == Minus(s, i) && Agree(Horizontal(m, i), w) && Agree(Vertical(m, w), d)
    ensures Agree(Vertical(m, Horizontal(m, e)), Minus(Vertical(m, Horizontal(m, s)), d))
  {
    hide Agree, Horizontal, Vertical, Minus;
    var w := Vertical(t, d);
    var i := Horizontal(t, w);
    AgreeSelf(e);
    HorizontalMinus(m, s, i, e);
    MinusAgree(Horizontal(m, s), Horizontal(m, i), Horizontal(m, s), w);
    AgreeTrans(Horizontal(m, e), Minus(Horizontal(m, s), Horizontal(m, i)), Minus(Horizontal(m, s), w));
    VerticalMinus(m, Horizontal(m, s), w, Horizontal(m, e));
    MinusAgree(Vertical(m, Horizontal(m, s)), Vertical(m, w), Vertical(m, Horizontal(m, s)), d);
    AgreeTrans(Vertical(m, Horizontal(m, e)), Minus(Vertical(m, Horizontal(m, s)), Vertical(m, w)),
               Minus(Vertical(m, Horizontal(m, s)), d));
  }

  lemma AgreeSelf(f: Matrix)
    ensures Agree(f, f)
  {
  }
}
