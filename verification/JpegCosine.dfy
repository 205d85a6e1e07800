/** The transform against the cosine: what the integer tables and sums of the encoder stand for. */
module JpegCosine {
  import opened JpegBlock
  import opened JpegDct

  // ---- the cosine ----

  /** `2 cos a cos b == cos (a + b) + cos (a - b)`. */
  ghost predicate ProductLaw(c: int -> real, a: int, b: int) {
    2.0 * c(a) * c(b) == c(a + b) + c(a - b)
  }

  /** `c(k)` is the cosine of k sixteenths of a half turn; no other function has these laws. */
  ghost predicate IsCosine(c: int -> real) {
    && c(0) == 1.0 && c(8) == 0.0
    && (forall k :: 0 <= k < 8 ==> 0.0 < c(k))
    && (forall a, b :: ProductLaw(c, a, b))
  }

  lemma Product(c: int -> real, a: int, b: int)
    requires IsCosine(c)
    ensures 2.0 * c(a) * c(b) == c(a + b) + c(a - b)
    ensures c(0) == 1.0 && c(8) == 0.0
  {
    assert ProductLaw(c, a, b);
  }

  lemma Even(c: int -> real, k: int)
    requires IsCosine(c)
    ensures c(-k) == c(k)
  {
    hide IsCosine;
    Product(c, 0, k);
    assert 0 + k == k && 0 - k == -k;
  }

  lemma HalfTurn(c: int -> real, k: int)
    requires IsCosine(c)
    ensures c(k + 16) == -c(k)
  {
    hide IsCosine;
    Product(c, 8, 8 + k);
    assert 8 + (8 + k) == k + 16 && 8 - (8 + k) == -k;
    assert 2.0 * c(8) * c(8 + k) == 0.0;
    Even(c, k);
  }

  /** Whole numbers of half turns. */
  lemma {:induction false} HalfTurns(c: int -> real, m: nat, k: int)
    requires IsCosine(c)
    ensures c(16 * m + k) == if m % 2 == 0 then c(k) else -c(k)
  {
    hide IsCosine;
    if m == 0 {
      assert 16 * m + k == k;
    } else {
      HalfTurns(c, m - 1, k);
      HalfTurn(c, 16 * (m - 1) + k);
      assert 16 * m + k == 16 * (m - 1) + k + 16;
      assert (m - 1) % 2 == 0 <==> m % 2 != 0;
    }
  }

  lemma Square(c: int -> real, k: int)
    requires IsCosine(c)
    ensures 2.0 * c(k) * c(k) == c(2 * k) + 1.0
  {
    hide IsCosine;
    Product(c, k, k);
    assert k + k == 2 * k && k - k == 0;
  }

  // ---- its values ----

  lemma SquareGrows(a: real, b: real)
    requires 0.0 < a && 0.0 < b
    ensures a < b ==> a * a < b * b
  {
    assert b * b - a * a == (b - a) * (b + a);
  }

  lemma RootBetween(x: real, lo: real, hi: real)
    requires 0.0 < x && 0.0 < lo && 0.0 < hi && lo * lo <= x * x <= hi * hi
    ensures lo <= x <= hi
  {
    SquareGrows(x, lo);
    SquareGrows(hi, x);
  }

  /** From bounds on the cosine of twice the angle. */
  lemma FromDouble(c: int -> real, k: int, double: real, lo: real, hi: real)
    requires IsCosine(c) && 0 < k < 8 && c(2 * k) == double && 0.0 < lo && 0.0 < hi
    requires 2.0 * lo * lo <= double + 1.0 <= 2.0 * hi * hi
    ensures lo <= c(k) <= hi
  {
    assert 0.0 < c(k);
    hide IsCosine;
    Square(c, k);
    assert lo * lo <= c(k) * c(k) <= hi * hi;
    RootBetween(c(k), lo, hi);
  }

  lemma Values(c: int -> real)
    requires IsCosine(c)
    ensures 0.7071067 <= c(4) <= 0.7071068 && 0.923878 <= c(2) <= 0.923882 && 0.382681 <= c(6) <= 0.382685
    ensures 0.980783 <= c(1) <= 0.980787 && 0.195087 <= c(7) <= 0.195093
    ensures 0.831468 <= c(3) <= 0.831472 && 0.555568 <= c(5) <= 0.555572
  {
    hide IsCosine;
    Product(c, 0, 0);
    FromDouble(c, 4, 0.0, 0.7071067, 0.7071068);
    FromDouble(c, 2, c(4), 0.923878, 0.923882);
    HalfTurn(c, -4);
    Even(c, 4);
    FromDouble(c, 6, c(12), 0.382681, 0.382685);
    FromDouble(c, 1, c(2), 0.980783, 0.980787);
    HalfTurn(c, -2);
    Even(c, 2);
    FromDouble(c, 7, c(14), 0.195087, 0.195093);
    FromDouble(c, 3, c(6), 0.831468, 0.831472);
    HalfTurn(c, -6);
    Even(c, 6);
    FromDouble(c, 5, c(10), 0.555568, 0.555572);
  }

  // ---- the table ----

  /** 8192 times the cosine, rounded, for the first quarter. */
  function Quarter(k: nat): int {
    match k
    case 0 => 8192
    case 1 => 8035
    case 2 => 7568
    case 3 => 6811
    case 4 => 5793
    case 5 => 4551
    case 6 => 3135
    case 7 => 1598
    case _ => 0
  }

  lemma QuarterIsRounded(c: int -> real, k: nat)
    requires IsCosine(c) && k <= 8
    ensures -0.5 <= Quarter(k) as real - 8192.0 * c(k) <= 0.5
  {
    hide IsCosine;
    Product(c, 0, 0);
    Values(c);
    assert k == 0 || k == 1 || k == 2 || k == 3 || k == 4 || k == 5 || k == 6 || k == 7 || k == 8;
  }

  /** Where an angle falls in the first quarter, and with which sign. */
  function Fold(k: nat): (int, nat) {
    var r := k % 32;
    if r <= 8 then (1, r) else if r <= 16 then (-1, 16 - r) else if r <= 24 then (-1, r - 16) else (1, 32 - r)
  }

  lemma Folded(c: int -> real, k: nat)
    requires IsCosine(c)
    ensures var (sign, r) := Fold(k); r <= 8 && c(k) == sign as real * c(r)
  {
    hide IsCosine;
    var r := k % 32;
    HalfTurns(c, 2 * (k / 32), r);
    assert 16 * (2 * (k / 32)) + r == k;
    HalfTurn(c, r - 16);
    HalfTurn(c, r - 32);
    Even(c, r - 16);
    Even(c, r - 32);
    assert -(r - 16) == 16 - r && -(r - 32) == 32 - r && r - 16 + 16 == r && r - 32 + 16 == r - 16;
  }

  function Rounded(k: nat): int {
    Fold(k).0 * Quarter(Fold(k).1)
  }

  lemma TableRow1()
    ensures COS[1] == [Rounded(1), Rounded(3), Rounded(5), Rounded(7), Rounded(9), Rounded(11), Rounded(13), Rounded(15)]
  {
    assert Rounded(1) == 8035 && Rounded(3) == 6811 && Rounded(5) == 4551 && Rounded(7) == 1598;
    assert Rounded(9) == -1598 && Rounded(11) == -4551 && Rounded(13) == -6811 && Rounded(15) == -8035;
    hide Rounded;
  }

  lemma TableRow2()
    ensures COS[2] == [Rounded(2), Rounded(6), Rounded(10), Rounded(14), Rounded(18), Rounded(22), Rounded(26), Rounded(30)]
  {
    assert Rounded(2) == 7568 && Rounded(6) == 3135 && Rounded(10) == -3135 && Rounded(14) == -7568;
    assert Rounded(18) == -7568 && Rounded(22) == -3135 && Rounded(26) == 3135 && Rounded(30) == 7568;
    hide Rounded;
  }

  lemma TableRow3()
    ensures COS[3] == [Rounded(3), Rounded(9), Rounded(15), Rounded(21), Rounded(27), Rounded(33), Rounded(39), Rounded(45)]
  {
    assert Rounded(3) == 6811 && Rounded(9) == -1598 && Rounded(15) == -8035 && Rounded(21) == -4551;
    assert Rounded(27) == 4551 && Rounded(33) == 8035 && Rounded(39) == 1598 && Rounded(45) == -6811;
    hide Rounded;
  }

  lemma TableRow4()
    ensures COS[4] == [Rounded(4), Rounded(12), Rounded(20), Rounded(28), Rounded(36), Rounded(44), Rounded(52), Rounded(60)]
  {
    assert Rounded(4) == 5793 && Rounded(12) == -5793 && Rounded(20) == -5793 && Rounded(28) == 5793;
    assert Rounded(36) == 5793 && Rounded(44) == -5793 && Rounded(52) == -5793 && Rounded(60) == 5793;
    hide Rounded;
  }

  lemma TableRow5()
    ensures COS[5] == [Rounded(5), Rounded(15), Rounded(25), Rounded(35), Rounded(45), Rounded(55), Rounded(65), Rounded(75)]
  {
    assert Rounded(5) == 4551 && Rounded(15) == -8035 && Rounded(25) == 1598 && Rounded(35) == 6811;
    assert Rounded(45) == -6811 && Rounded(55) == -1598 && Rounded(65) == 8035 && Rounded(75) == -4551;
    hide Rounded;
  }

  lemma TableRow6()
    ensures COS[6] == [Rounded(6), Rounded(18), Rounded(30), Rounded(42), Rounded(54), Rounded(66), Rounded(78), Rounded(90)]
  {
    assert Rounded(6) == 3135 && Rounded(18) == -7568 && Rounded(30) == 7568 && Rounded(42) == -3135;
    assert Rounded(54) == -3135 && Rounded(66) == 7568 && Rounded(78) == -7568 && Rounded(90) == 3135;
    hide Rounded;
  }

  lemma TableRow7()
    ensures COS[7] == [Rounded(7), Rounded(21), Rounded(35), Rounded(49), Rounded(63), Rounded(77), Rounded(91), Rounded(105)]
  {
    assert Rounded(7) == 1598 && Rounded(21) == -4551 && Rounded(35) == 6811 && Rounded(49) == -8035;
    assert Rounded(63) == 8035 && Rounded(77) == -6811 && Rounded(91) == 4551 && Rounded(105) == -1598;
    hide Rounded;
  }

  /** The rows of the table from the second on, by their angles. */
  lemma TableRow(u: nat, x: nat)
    requires 1 <= u < 8 && x < 8
    ensures COS[u][x] == Rounded((2 * x + 1) * u)
  {
    hide Rounded, COS;
    TableRow1();
    TableRow2();
    TableRow3();
    TableRow4();
    TableRow5();
    TableRow6();
    TableRow7();
    var k := 2 * x + 1;
    assert x == 0 || x == 1 || x == 2 || x == 3 || x == 4 || x == 5 || x == 6 || x == 7;
    assert u == 1 || u == 2 || u == 3 || u == 4 || u == 5 || u == 6 || u == 7;
  }

  /** C(u) of T.81 section A.3.3: the square root of a half for frequency 0. */
  ghost function Scale(c: int -> real, u: nat): real {
    if u == 0 then c(4) else 1.0
  }

  lemma RoundedNear(c: int -> real, k: nat)
    requires IsCosine(c)
    ensures -0.5 <= Rounded(k) as real - 8192.0 * c(k) <= 0.5
  {
    hide IsCosine, Quarter, Fold;
    Folded(c, k);
    FoldSign(k);
    var (sign, r) := Fold(k);
    QuarterIsRounded(c, r);
    if sign == 1 {
      assert Rounded(k) == Quarter(r);
      assert 1 as real * c(r) == c(r);
    } else {
      assert Rounded(k) == -Quarter(r);
      assert (-1) as real * c(r) == -c(r);
    }
  }

  lemma FoldSign(k: nat)
    ensures Fold(k).0 == 1 || Fold(k).0 == -1
  {
  }

  lemma FlatRow(x: nat)
    requires x < 8
    ensures COS[0][x] == 5793
  {
    assert COS[0] == [5793, 5793, 5793, 5793, 5793, 5793, 5793, 5793];
  }

  /** Every entry of the table is 8192 C(u) cos((2x + 1) u pi / 16) to within a half. */
  lemma TableIsRounded(c: int -> real, u: nat, x: nat)
    requires IsCosine(c) && u < 8 && x < 8
    ensures -0.5 <= COS[u][x] as real - 8192.0 * (Scale(c, u) * c((2 * x + 1) * u)) <= 0.5
  {
    hide IsCosine, COS, Rounded;
    var k := (2 * x + 1) * u;
    if u == 0 {
      Product(c, 0, 0);
      QuarterIsRounded(c, 4);
      FlatRow(x);
      assert k == 0 && Scale(c, 0) * c(0) == c(4);
    } else {
      TableRow(u, x);
      RoundedNear(c, k);
      assert Scale(c, u) * c(k) == c(k);
    }
  }
}
