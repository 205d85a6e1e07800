/** Eight-point orthonormal transforms: each undoes its transpose and keeps energy. */
module Orthogonal {

  type Vector = nat -> real

  type Matrix = (nat, nat) -> real

  // ---- sums ----

  ghost function Mul(x: real, y: real): real {
    x * y
  }

  lemma ByZero(x: real)
    ensures Mul(x, 0.0) == 0.0 && Mul(0.0, x) == 0.0 && Mul(1.0, x) == x
  {
  }

  lemma Distributes(f: real, p: real, q: real)
    ensures Mul(f, p + q) == Mul(f, p) + Mul(f, q) && Mul(f, p - q) == Mul(f, p) - Mul(f, q)
  {
  }

  lemma OneTerm(a: real, b: real, b0: real, m: real, f: real)
    requires b == b0 + Mul(m, f)
    ensures Mul(a, b) == Mul(a, b0) + Mul(f, Mul(m, a))
  {
    Distributes(a, b0, Mul(m, f));
    assert a * (m * f) == f * (m * a);
  }

  /** The first `n` terms of entry `i` of a matrix times a vector. */
  ghost function Times(m: Matrix, g: Vector, i: nat, n: nat): real {
    if n == 0 then 0.0 else Times(m, g, i, n - 1) + Mul(m(i, n - 1), g(n - 1))
  }

  /** The first `n` terms of the product of two rows. */
  ghost function Overlap(m: Matrix, a: nat, b: nat, n: nat): real {
    if n == 0 then 0.0 else Overlap(m, a, b, n - 1) + Mul(m(a, n - 1), m(b, n - 1))
  }

  ghost function Inner(a: Vector, b: Vector, n: nat): real {
    if n == 0 then 0.0 else Inner(a, b, n - 1) + Mul(a(n - 1), b(n - 1))
  }

  ghost predicate Orthonormal(m: Matrix) {
    forall a: nat, b: nat :: a < 8 && b < 8 ==> Overlap(m, a, b, 8) == if a == b then 1.0 else 0.0
  }

  ghost predicate Transposes(m: Matrix, t: Matrix) {
    forall a: nat, b: nat {:trigger m(b, a)} {:trigger t(a, b)} :: a < 8 && b < 8 ==> t(a, b) == m(b, a)
  }

  /** `h` is the matrix times `g`. */
  ghost predicate IsProduct(m: Matrix, g: Vector, h: Vector) {
    forall i: nat :: i < 8 ==> h(i) == Times(m, g, i, 8)
  }

  lemma {:induction false} TimesSame(m: Matrix, g: Vector, h: Vector, i: nat, n: nat)
    requires forall k: nat :: k < n ==> g(k) == h(k)
    ensures Times(m, g, i, n) == Times(m, h, i, n)
  {
    if n != 0 {
      TimesSame(m, g, h, i, n - 1);
    }
  }

  lemma {:induction false} TimesMinus(m: Matrix, g: Vector, h: Vector, d: Vector, i: nat, n: nat)
    requires forall k: nat :: k < n ==> d(k) == g(k) - h(k)
    ensures Times(m, d, i, n) == Times(m, g, i, n) - Times(m, h, i, n)
  {
    if n != 0 {
      TimesMinus(m, g, h, d, i, n - 1);
      Distributes(m(i, n - 1), g(n - 1), h(n - 1));
    }
  }

  lemma {:induction false} InnerSame(a: Vector, b: Vector, x: Vector, y: Vector, n: nat)
    requires forall k: nat :: k < n ==> a(k) == x(k) && b(k) == y(k)
    ensures Inner(a, b, n) == Inner(x, y, n)
  {
    if n != 0 {
      InnerSame(a, b, x, y, n - 1);
    }
  }

  // ---- undoing ----

  /** A vector with one more basis function in it. */
  lemma {:induction false} AddTerm(m: Matrix, h: Vector, h0: Vector, w: nat, j: nat, f: real, n: nat)
    requires forall x: nat :: x < n ==> h(x) == h0(x) + Mul(m(j, x), f)
    ensures Times(m, h, w, n) == Times(m, h0, w, n) + Mul(f, Overlap(m, w, j, n))
  {
    hide Mul;
    if n == 0 {
      ByZero(f);
    } else {
      AddTerm(m, h, h0, w, j, f, n - 1);
      var x: nat := n - 1;
      OneTerm(m(w, x), h(x), h0(x), m(j, x), f);
      Commutes(m(j, x), m(w, x));
      Distributes(f, Overlap(m, w, j, x), Mul(m(w, x), m(j, x)));
    }
  }

  lemma Commutes(x: real, y: real)
    ensures Mul(x, y) == Mul(y, x)
  {
  }

  lemma {:induction false} NoTerms(m: Matrix, h: Vector, w: nat, n: nat)
    requires forall x: nat :: x < n ==> h(x) == 0.0
    ensures Times(m, h, w, n) == 0.0
  {
    if n != 0 {
      NoTerms(m, h, w, n - 1);
      ByZero(m(w, n - 1));
    }
  }

  lemma {:induction false} UndoesFirst(m: Matrix, t: Matrix, g: Vector, h: Vector, w: nat, n: nat)
    requires Orthonormal(m) && Transposes(m, t) && w < 8 && n <= 8
    requires forall x: nat :: x < 8 ==> h(x) == Times(t, g, x, n)
    ensures Times(m, h, w, 8) == if w < n then g(w) else 0.0
  {
    hide Mul, Transposes, Orthonormal;
    if n == 0 {
      NoTerms(m, h, w, 8);
    } else {
      var k: nat := n - 1;
      var h0: Vector := (x: nat) => Times(t, g, x, k);
      UndoesFirst(m, t, g, h0, w, k);
      forall x: nat | x < 8
        ensures h(x) == h0(x) + Mul(m(k, x), g(k))
      {
        At(m, t, x, k);
      }
      AddTerm(m, h, h0, w, k, g(k), 8);
      OverlapAt(m, w, k);
      ByZero(g(k));
      Commutes(g(k), 1.0);
    }
  }

  lemma OverlapAt(m: Matrix, a: nat, b: nat)
    requires Orthonormal(m) && a < 8 && b < 8
    ensures Overlap(m, a, b, 8) == if a == b then 1.0 else 0.0
  {
  }

  /** A matrix with orthonormal rows undoes its transpose. */
  lemma Undoes(m: Matrix, t: Matrix, g: Vector, h: Vector)
    requires Orthonormal(m) && Transposes(m, t) && IsProduct(t, g, h)
    ensures IsProduct(m, h, g)
  {
    hide Orthonormal, Transposes;
    forall w: nat | w < 8
      ensures g(w) == Times(m, h, w, 8)
    {
      UndoesFirst(m, t, g, h, w, 8);
    }
  }

  // ---- energy ----

  lemma At(m: Matrix, t: Matrix, j: nat, u: nat)
    requires Transposes(m, t) && j < 8 && u < 8
    ensures t(j, u) == m(u, j)
  {
  }

  lemma {:induction false} InnerTerm(m: Matrix, t: Matrix, a: Vector, b: Vector, b0: Vector, j: nat, f: real, n: nat)
    requires Transposes(m, t) && j < 8 && n <= 8
    requires forall u: nat :: u < n ==> b(u) == b0(u) + Mul(m(u, j), f)
    ensures Inner(a, b, n) == Inner(a, b0, n) + Mul(f, Times(t, a, j, n))
  {
    hide Mul, Transposes;
    if n == 0 {
      ByZero(f);
    } else {
      InnerTerm(m, t, a, b, b0, j, f, n - 1);
      var u: nat := n - 1;
      At(m, t, j, u);
      OneTerm(a(u), b(u), b0(u), t(j, u), f);
      Distributes(f, Times(t, a, j, u), Mul(t(j, u), a(u)));
    }
  }

  lemma {:induction false} NoInner(a: Vector, b: Vector, n: nat)
    requires forall u: nat :: u < n ==> b(u) == 0.0
    ensures Inner(a, b, n) == 0.0
  {
    if n != 0 {
      NoInner(a, b, n - 1);
      ByZero(a(n - 1));
    }
  }

  /** Moving a matrix across an inner product. */
  lemma {:induction false} Adjoint(m: Matrix, t: Matrix, a: Vector, b: Vector, g: Vector, e: Vector, n: nat)
    requires Transposes(m, t) && n <= 8
    requires forall u: nat :: u < 8 ==> b(u) == Times(m, g, u, n)
    requires IsProduct(t, a, e)
    ensures Inner(a, b, 8) == Inner(g, e, n)
  {
    hide Mul, Transposes;
    if n == 0 {
      NoInner(a, b, 8);
    } else {
      var k: nat := n - 1;
      var b0: Vector := (u: nat) => Times(m, g, u, k);
      Adjoint(m, t, a, b0, g, e, k);
      InnerTerm(m, t, a, b, b0, k, g(k), 8);
    }
  }

  /** A matrix with orthonormal columns keeps the sum of squares. */
  lemma Energy(m: Matrix, t: Matrix, g: Vector, b: Vector)
    requires Orthonormal(t) && Transposes(m, t) && IsProduct(m, g, b)
    ensures Inner(b, b, 8) == Inner(g, g, 8)
  {
    hide Orthonormal;
    assert Transposes(t, m);
    Undoes(t, m, g, b);
    hide Transposes;
    Adjoint(m, t, b, b, g, g, 8);
  }

  // ---- grids ----

  ghost function Line(f: Matrix, i: nat, n: nat): real {
    if n == 0 then 0.0 else Line(f, i, n - 1) + f(i, n - 1)
  }

  ghost function Total(f: Matrix, m: nat, n: nat): real {
    if m == 0 then 0.0 else Total(f, m - 1, n) + Line(f, m - 1, n)
  }

  lemma {:induction false} LineSame(f: Matrix, g: Matrix, i: nat, n: nat)
    requires forall j: nat :: j < n ==> f(i, j) == g(i, j)
    ensures Line(f, i, n) == Line(g, i, n)
  {
    if n != 0 {
      LineSame(f, g, i, n - 1);
    }
  }

  lemma {:induction false} LineSquares(f: Matrix, a: Vector, i: nat, n: nat)
    requires forall j: nat :: j < n ==> f(i, j) == Mul(a(j), a(j))
    ensures Line(f, i, n) == Inner(a, a, n)
  {
    if n != 0 {
      LineSquares(f, a, i, n - 1);
    }
  }

  lemma {:induction false} TotalByLines(f: Matrix, g: Matrix, m: nat, n: nat)
    requires forall i: nat :: i < m ==> Line(f, i, n) == Line(g, i, n)
    ensures Total(f, m, n) == Total(g, m, n)
  {
    if m != 0 {
      TotalByLines(f, g, m - 1, n);
    }
  }

  /** One column more. */
  lemma {:induction false} TotalColumn(f: Matrix, g: Matrix, m: nat, n: nat)
    requires forall i: nat :: i < m ==> g(n, i) == f(i, n)
    ensures Total(f, m, n + 1) == Total(f, m, n) + Line(g, n, m)
  {
    if m != 0 {
      TotalColumn(f, g, m - 1, n);
    }
  }

  lemma {:induction false} TotalNoColumns(f: Matrix, m: nat)
    ensures Total(f, m, 0) == 0.0
  {
    if m != 0 {
      TotalNoColumns(f, m - 1);
    }
  }

  /** Adding up by rows or by columns is the same. */
  lemma {:induction false} TotalTransposed(f: Matrix, g: Matrix, m: nat, n: nat)
    requires forall i: nat, j: nat {:trigger f(i, j)} {:trigger g(j, i)} :: i < m && j < n ==> g(j, i) == f(i, j)
    ensures Total(f, m, n) == Total(g, n, m)
  {
    if n == 0 {
      TotalNoColumns(f, m);
    } else {
      TotalTransposed(f, g, m, n - 1);
      TotalColumn(f, g, m, n - 1);
    }
  }
}
