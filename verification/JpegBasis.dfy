/** The basis of the 8x8 transform of T.81 section A.3.3 is orthonormal. */
module JpegBasis {
  import opened JpegCosine
  import opened Orthogonal

  /** C(u) / 2 times cos((2x + 1) u pi / 16). */
  ghost function Basis(c: int -> real, u: nat, x: nat): real {
    Scale(c, u) * c((2 * x + 1) * u) / 2.0
  }

  /** The matrix of the transform, by frequency and place. */
  ghost function Forward(c: int -> real): Matrix {
    (u: nat, x: nat) => Basis(c, u, x)
  }

  /** Its transpose. */
  ghost function Backward(c: int -> real): Matrix {
    (x: nat, u: nat) => Basis(c, u, x)
  }

  lemma BasisTransposes(c: int -> real)
    ensures Transposes(Forward(c), Backward(c)) && Transposes(Backward(c), Forward(c))
  {
  }

  // ---- rows ----

  /** `c(m) + c(3 m) + ...`, `n` terms. */
  ghost function OddSum(c: int -> real, m: int, n: nat): real {
    if n == 0 then 0.0 else OddSum(c, m, n - 1) + c((2 * (n - 1) + 1) * m)
  }

  lemma BasisProduct(c: int -> real, a: nat, b: nat, x: nat, z: nat)
    requires IsCosine(c)
    ensures var p, q := (2 * x + 1) * a, (2 * z + 1) * b;
      Mul(Basis(c, a, x), Basis(c, b, z)) == Mul(Scale(c, a) * Scale(c, b) / 8.0, c(p + q) + c(p - q))
  {
    hide IsCosine;
    var p, q := (2 * x + 1) * a, (2 * z + 1) * b;
    Product(c, p, q);
    FourFactors(Scale(c, a), c(p), Scale(c, b), c(q));
  }

  lemma FourFactors(s: real, p: real, t: real, q: real)
    ensures Mul(s * p / 2.0, t * q / 2.0) == Mul(s * t / 8.0, 2.0 * p * q)
  {
    assert (s * p) * (t * q) == (s * t) * (p * q);
  }

  lemma {:induction false} RowOverlap(c: int -> real, a: nat, b: nat, n: nat)
    requires IsCosine(c)
    ensures Overlap(Forward(c), a, b, n) == Mul(Scale(c, a) * Scale(c, b) / 8.0, OddSum(c, a + b, n) + OddSum(c, a - b, n))
  {
    hide IsCosine, Mul, Basis, Scale;
    var k := Scale(c, a) * Scale(c, b) / 8.0;
    if n == 0 {
      ByZero(k);
    } else {
      RowOverlap(c, a, b, n - 1);
      var x: nat := n - 1;
      BasisProduct(c, a, b, x, x);
      Spread(x, a, b);
      Distributes(k, OddSum(c, a + b, x) + OddSum(c, a - b, x), c((2 * x + 1) * (a + b)) + c((2 * x + 1) * (a - b)));
    }
  }

  lemma Spread(x: nat, a: nat, b: nat)
    ensures (2 * x + 1) * a + (2 * x + 1) * b == (2 * x + 1) * (a + b)
    ensures (2 * x + 1) * a - (2 * x + 1) * b == (2 * x + 1) * (a - b)
  {
  }

  /** The eight terms. */
  lemma OddSumIs(c: int -> real, m: int)
    ensures OddSum(c, m, 8) == c(m) + c(3 * m) + c(5 * m) + c(7 * m) + c(9 * m) + c(11 * m) + c(13 * m) + c(15 * m)
  {
    assert OddSum(c, m, 1) == c(m) by {
      assert (2 * 0 + 1) * m == m;
    }
    assert OddSum(c, m, 2) == c(m) + c(3 * m);
    assert OddSum(c, m, 4) == OddSum(c, m, 2) + c(5 * m) + c(7 * m);
    assert OddSum(c, m, 6) == OddSum(c, m, 4) + c(9 * m) + c(11 * m);
  }

  /** The reflection of an angle at whole numbers of half turns. */
  lemma Opposite(c: int -> real, m: nat, k: int)
    requires IsCosine(c)
    ensures c(16 * m - k) == if m % 2 == 0 then c(k) else -c(k)
  {
    hide IsCosine;
    HalfTurns(c, m, -k);
    Even(c, k);
    assert 16 * m - k == 16 * m + -k;
  }

  lemma OddSumVanishes(c: int -> real, m: nat)
    requires IsCosine(c) && 0 < m < 16
    ensures OddSum(c, m, 8) == 0.0
  {
    hide IsCosine, OddSum;
    OddSumIs(c, m);
    Opposite(c, m, m);
    Opposite(c, m, 3 * m);
    Opposite(c, m, 5 * m);
    Opposite(c, m, 7 * m);
    if m % 2 == 0 {
      EvenMultiples(c, m / 2);
    }
  }

  lemma EvenMultiples(c: int -> real, k: nat)
    requires IsCosine(c) && 0 < k < 8
    ensures c(2 * k) + c(6 * k) + c(10 * k) + c(14 * k) == 0.0
  {
    hide IsCosine;
    Opposite(c, k, 2 * k);
    Opposite(c, k, 6 * k);
    if k % 2 == 0 {
      var j := k / 2;
      Opposite(c, j, 4 * j);
      if j % 2 == 0 {
        Product(c, 0, 0);
        HalfTurns(c, 1, 8);
        assert j == 2;
      }
    }
  }

  lemma OddSumOfZero(c: int -> real)
    requires IsCosine(c)
    ensures OddSum(c, 0, 8) == 8.0
  {
    hide IsCosine, OddSum;
    Product(c, 0, 0);
    OddSumIs(c, 0);
  }

  lemma OddSumEven(c: int -> real, m: int)
    requires IsCosine(c)
    ensures OddSum(c, -m, 8) == OddSum(c, m, 8)
  {
    hide IsCosine, OddSum;
    OddSumIs(c, m);
    OddSumIs(c, -m);
    Even(c, m);
    Even(c, 3 * m);
    Even(c, 5 * m);
    Even(c, 7 * m);
    Even(c, 9 * m);
    Even(c, 11 * m);
    Even(c, 13 * m);
    Even(c, 15 * m);
  }

  lemma HalfSquared(c: int -> real)
    requires IsCosine(c)
    ensures c(4) * c(4) == 0.5
  {
    hide IsCosine;
    Product(c, 0, 0);
    Square(c, 4);
  }

  lemma RowsOrthonormal(c: int -> real)
    requires IsCosine(c)
    ensures Orthonormal(Forward(c))
  {
    hide IsCosine;
    forall a: nat, b: nat | a < 8 && b < 8
      ensures Overlap(Forward(c), a, b, 8) == if a == b then 1.0 else 0.0
    {
      RowPair(c, a, b);
    }
  }

  lemma RowPair(c: int -> real, a: nat, b: nat)
    requires IsCosine(c) && a < 8 && b < 8
    ensures Overlap(Forward(c), a, b, 8) == if a == b then 1.0 else 0.0
  {
    hide IsCosine, OddSum, Overlap, Mul;
    var k := Scale(c, a) * Scale(c, b) / 8.0;
    RowOverlap(c, a, b, 8);
    OddSumOfZero(c);
    ByZero(k);
    if a != b {
      OddSumVanishes(c, a + b);
      OddSumEven(c, a - b);
      OddSumVanishes(c, if a < b then b - a else a - b);
    } else if a == 0 {
      HalfSquared(c);
      assert Mul(k, 16.0) == 1.0 by {
        Product16(k);
      }
    } else {
      OddSumVanishes(c, a + b);
      Product16(k);
    }
  }

  lemma Product16(k: real)
    ensures Mul(k, 16.0) == 16.0 * k && Mul(k, 8.0) == 8.0 * k
  {
  }

  // ---- columns ----

  /** `c(2 m) + c(4 m) + ...`, the multiples below `n`. */
  ghost function EvenSum(c: int -> real, m: int, n: nat): real {
    if n <= 1 then 0.0 else EvenSum(c, m, n - 1) + c(2 * (n - 1) * m)
  }

  lemma {:induction false} ColumnOverlap(c: int -> real, x: nat, z: nat, n: nat)
    requires IsCosine(c) && 1 <= n
    ensures Overlap(Backward(c), x, z, n) == Mul(1.0 / 8.0, 1.0 + (EvenSum(c, x + z + 1, n) + EvenSum(c, x - z, n)))
  {
    hide IsCosine, Mul, Basis;
    if n == 1 {
      FirstPair(c, x, z);
      Product16(1.0 / 8.0);
      assert EvenSum(c, x + z + 1, 1) == 0.0 && EvenSum(c, x - z, 1) == 0.0;
      assert Overlap(Backward(c), x, z, 1) == Overlap(Backward(c), x, z, 0) + Mul(Basis(c, 0, x), Basis(c, 0, z));
      assert 1.0 + (0.0 + 0.0) == 1.0;
    } else {
      ColumnOverlap(c, x, z, n - 1);
      var u: nat := n - 1;
      BasisProduct(c, u, u, x, z);
      SpreadColumns(x, z, u);
      assert Scale(c, u) * Scale(c, u) / 8.0 == 1.0 / 8.0;
      Distributes(1.0 / 8.0, 1.0 + (EvenSum(c, x + z + 1, u) + EvenSum(c, x - z, u)),
                  c(2 * u * (x + z + 1)) + c(2 * u * (x - z)));
    }
  }

  lemma FirstPair(c: int -> real, x: nat, z: nat)
    requires IsCosine(c)
    ensures Mul(Basis(c, 0, x), Basis(c, 0, z)) == Mul(1.0 / 8.0, 1.0)
  {
    hide IsCosine;
    HalfSquared(c);
    Product(c, 0, 0);
    assert (2 * x + 1) * 0 == 0 && (2 * z + 1) * 0 == 0;
    assert Basis(c, 0, x) == c(4) / 2.0 && Basis(c, 0, z) == c(4) / 2.0;
    Quartered(c(4));
  }

  lemma Quartered(s: real)
    requires s * s == 0.5
    ensures Mul(s / 2.0, s / 2.0) == Mul(1.0 / 8.0, 1.0)
  {
    assert (s / 2.0) * (s / 2.0) == s * s / 4.0;
  }

  lemma SpreadColumns(x: nat, z: nat, u: nat)
    ensures (2 * x + 1) * u + (2 * z + 1) * u == 2 * u * (x + z + 1)
    ensures (2 * x + 1) * u - (2 * z + 1) * u == 2 * u * (x - z)
  {
  }

  lemma EvenSumIs(c: int -> real, m: int)
    ensures EvenSum(c, m, 8) == c(2 * m) + c(4 * m) + c(6 * m) + c(8 * m) + c(10 * m) + c(12 * m) + c(14 * m)
  {
    assert EvenSum(c, m, 2) == c(2 * m);
    assert EvenSum(c, m, 4) == EvenSum(c, m, 2) + c(4 * m) + c(6 * m);
    assert EvenSum(c, m, 6) == EvenSum(c, m, 4) + c(8 * m) + c(10 * m);
  }

  lemma EvenSumOf(c: int -> real, m: nat)
    requires IsCosine(c) && m < 16
    ensures EvenSum(c, m, 8) == if m == 0 then 7.0 else if m % 2 == 0 then -1.0 else 0.0
  {
    hide IsCosine, EvenSum;
    EvenSumIs(c, m);
    Product(c, 0, 0);
    if m != 0 {
      Opposite(c, m, 2 * m);
      Opposite(c, m, 4 * m);
      Opposite(c, m, 6 * m);
      if m % 2 == 0 {
        FourMultiples(c, m / 2);
      } else {
        HalfTurns(c, m / 2, 8);
        assert 8 * m == 16 * (m / 2) + 8;
      }
    }
  }

  lemma FourMultiples(c: int -> real, k: nat)
    requires IsCosine(c) && 0 < k < 8
    ensures 2.0 * (c(4 * k) + c(8 * k) + c(12 * k)) + c(16 * k) == -1.0
  {
    hide IsCosine;
    Product(c, 0, 0);
    Opposite(c, k, 4 * k);
    HalfTurns(c, k, 0);
    if k % 2 == 0 {
      var j := k / 2;
      HalfTurns(c, j, 0);
      EighthTurns(c, j);
    } else {
      HalfTurns(c, k / 2, 8);
      assert 8 * k == 16 * (k / 2) + 8;
    }
  }

  lemma EighthTurns(c: int -> real, j: nat)
    requires IsCosine(c) && 0 < j < 4
    ensures 4.0 * c(8 * j) + 2.0 * (if j % 2 == 0 then 1.0 else -1.0) + 1.0 == -1.0
  {
    hide IsCosine;
    Product(c, 0, 0);
    HalfTurns(c, 1, 0);
    HalfTurns(c, 1, 8);
  }

  lemma EvenSumEven(c: int -> real, m: int)
    requires IsCosine(c)
    ensures EvenSum(c, -m, 8) == EvenSum(c, m, 8)
  {
    hide IsCosine, EvenSum;
    EvenSumIs(c, m);
    EvenSumIs(c, -m);
    Even(c, 2 * m);
    Even(c, 4 * m);
    Even(c, 6 * m);
    Even(c, 8 * m);
    Even(c, 10 * m);
    Even(c, 12 * m);
    Even(c, 14 * m);
  }

  lemma ColumnPair(c: int -> real, x: nat, z: nat)
    requires IsCosine(c) && x < 8 && z < 8
    ensures Overlap(Backward(c), x, z, 8) == if x == z then 1.0 else 0.0
  {
    hide IsCosine, EvenSum, Overlap, Mul;
    ColumnOverlap(c, x, z, 8);
    EvenSumOf(c, x + z + 1);
    EvenSumEven(c, x - z);
    EvenSumOf(c, if x < z then z - x else x - z);
    ByZero(1.0 / 8.0);
    Product16(1.0 / 8.0);
  }

  lemma ColumnsOrthonormal(c: int -> real)
    requires IsCosine(c)
    ensures Orthonormal(Backward(c))
  {
    hide IsCosine;
    forall x: nat, z: nat | x < 8 && z < 8
      ensures Overlap(Backward(c), x, z, 8) == if x == z then 1.0 else 0.0
    {
      ColumnPair(c, x, z);
    }
  }
}
