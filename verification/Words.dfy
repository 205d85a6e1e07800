/** Machine words as bounded naturals: their bits, most significant first, and the bitwise operators,
    each defined bit by bit. */
module Words {

  type byte = x: int | 0 <= x < 256

  lemma ConcatAssoc<T>(a: seq<T>, b: seq<T>, c: seq<T>)
    ensures a + (b + c) == a + b + c
  {
  }

  lemma SliceOfPrefix<T>(a: seq<T>, b: seq<T>, s: seq<T>)
    requires a + b <= s
    ensures s[|a|..|a| + |b|] == b
  {
    assert s[..|a| + |b|] == a + b;
    assert s[|a|..|a| + |b|] == s[..|a| + |b|][|a|..];
  }

  lemma SliceOfSlice<T>(s: seq<T>, p: nat, n: nat, i: nat, j: nat)
    requires p + n <= |s| && i <= j <= n
    ensures s[p..p + n][i..j] == s[p + i..p + j]
  {
    var a, b := s[p..p + n][i..j], s[p + i..p + j];
    forall x | 0 <= x < j - i
      ensures a[x] == b[x]
    {
    }
  }

  /** Row-major indices: what `/` and `%` take them back to. */
  lemma IndexSplit(q: nat, r: nat, m: nat)
    requires r < m
    ensures (q * m + r) / m == q && (q * m + r) % m == r
  {
    var v := q * m + r;
    var q', r' := v / m, v % m;
    DivModIdentity(v, m);
    if q' < q {
      MulStep(q', q, m);
    } else if q < q' {
      MulStep(q, q', m);
    }
  }

  lemma DivModIdentity(v: nat, m: nat)
    requires 0 < m
    ensures v == v / m * m + v % m && 0 <= v / m && 0 <= v % m < m
  {
  }

  lemma {:induction false} MulStep(a: nat, b: nat, m: nat)
    requires a < b
    ensures a * m + m <= b * m
  {
    assert (b - 1) * m + m == b * m;
    if a < b - 1 {
      MulStep(a, b - 1, m);
    }
  }

  function Pow2(n: nat): (p: nat)
    ensures 1 <= p
  {
    if n == 0 then 1 else 2 * Pow2(n - 1)
  }

  lemma {:induction false} Pow2Monotone(m: nat, n: nat)
    requires m <= n
    ensures Pow2(m) <= Pow2(n)
  {
    if m < n {
      Pow2Monotone(m, n - 1);
    }
  }

  lemma {:induction false} Pow2Add(m: nat, n: nat)
    ensures Pow2(m + n) == Shl(Pow2(m), n)
  {
    if n != 0 {
      Pow2Add(m, n - 1);
    }
  }

  lemma Pow2Of16()
    ensures Pow2(8) == 256 && Pow2(16) == 0x1_0000
  {
    assert Pow2(8) == 256;
    assert Pow2(12) == 4096;
    assert Pow2(16) == 0x1_0000;
  }

  /** The low `n` bits of `v`. */
  function BitsOf(v: nat, n: nat): (bits: seq<bool>)
    ensures |bits| == n
  {
    if n == 0 then [] else BitsOf(v / 2, n - 1) + [v % 2 == 1]
  }

  function ValueOf(bits: seq<bool>): (v: nat)
    ensures v < Pow2(|bits|)
  {
    if bits == [] then 0 else 2 * ValueOf(bits[..|bits| - 1]) + if bits[|bits| - 1] then 1 else 0
  }

  lemma {:induction false} ValueOfBitsOf(v: nat, n: nat)
    requires v < Pow2(n)
    ensures ValueOf(BitsOf(v, n)) == v
  {
    if n != 0 {
      ValueOfBitsOf(v / 2, n - 1);
      assert BitsOf(v, n)[..n - 1] == BitsOf(v / 2, n - 1);
    }
  }

  lemma {:induction false} BitsOfValueOf(bits: seq<bool>)
    ensures BitsOf(ValueOf(bits), |bits|) == bits
  {
    if bits != [] {
      BitsOfValueOf(bits[..|bits| - 1]);
      assert bits == bits[..|bits| - 1] + [bits[|bits| - 1]];
    }
  }

  lemma {:induction false} BitsOfZero(n: nat)
    ensures BitsOf(0, n) == seq(n, i => false)
  {
    if n != 0 {
      BitsOfZero(n - 1);
    }
  }

  // ---- shifts and masks ----

  function Shl(v: nat, n: nat): (r: nat) {
    if n == 0 then v else 2 * Shl(v, n - 1)
  }

  function Shr(v: nat, n: nat): (r: nat) {
    if n == 0 then v else Shr(v / 2, n - 1)
  }

  /** `v` truncated to its low `n` bits. */
  function Low(v: nat, n: nat): (r: nat) {
    if n == 0 then 0 else 2 * Low(v / 2, n - 1) + v % 2
  }

  lemma {:induction false} ShlZero(n: nat)
    ensures Shl(0, n) == 0
  {
    if n != 0 {
      ShlZero(n - 1);
    }
  }

  lemma {:induction false} ShlOne(n: nat)
    ensures Shl(1, n) == Pow2(n)
  {
    if n != 0 {
      ShlOne(n - 1);
    }
  }

  lemma {:induction false} ShlShl(v: nat, m: nat, n: nat)
    ensures Shl(Shl(v, m), n) == Shl(v, m + n)
  {
    if n != 0 {
      ShlShl(v, m, n - 1);
    }
  }

  lemma {:induction false} ShlAdd(a: nat, b: nat, n: nat)
    ensures Shl(a + b, n) == Shl(a, n) + Shl(b, n)
  {
    if n != 0 {
      ShlAdd(a, b, n - 1);
    }
  }

  lemma {:induction false} ShlMonotone(a: nat, b: nat, n: nat)
    requires a <= b
    ensures Shl(a, n) <= Shl(b, n)
    ensures a < b ==> Shl(a, n) < Shl(b, n)
  {
    if n != 0 {
      ShlMonotone(a, b, n - 1);
    }
  }

  lemma {:induction false} ShlBound(v: nat, m: nat, n: nat)
    requires v < Pow2(m)
    ensures Shl(v, n) < Pow2(m + n)
  {
    if n != 0 {
      ShlBound(v, m, n - 1);
    }
  }

  /** What fits below `2^(m + n)` when shifted by `n` fits below `2^m`. */
  lemma {:induction false} ShlFits(v: nat, m: nat, n: nat)
    requires Shl(v, n) + Pow2(n) <= Pow2(m + n)
    ensures v < Pow2(m)
  {
    if n != 0 {
      ShlFits(v, m, n - 1);
    }
  }

  /** A word splits at any bit into a shifted high part and a low part. */
  lemma {:induction false} SplitWord(hi: nat, lo: nat, n: nat)
    requires lo < Pow2(n)
    ensures Shr(Shl(hi, n) + lo, n) == hi && Low(Shl(hi, n) + lo, n) == lo
  {
    if n != 0 {
      var v := Shl(hi, n) + lo;
      assert v / 2 == Shl(hi, n - 1) + lo / 2 && v % 2 == lo % 2;
      SplitWord(hi, lo / 2, n - 1);
    }
  }

  lemma {:induction false} LowBound(v: nat, n: nat)
    ensures Low(v, n) < Pow2(n)
    ensures v < Pow2(n) ==> Low(v, n) == v
  {
    if n != 0 {
      LowBound(v / 2, n - 1);
    }
  }

  lemma {:induction false} ShrLow(v: nat, n: nat)
    ensures v == Shl(Shr(v, n), n) + Low(v, n)
  {
    if n != 0 {
      ShrLow(v / 2, n - 1);
      ShrHalf(v, n);
    }
  }

  lemma ShrHalf(v: nat, n: nat)
    requires n != 0
    ensures Shr(v, n) == Shr(v / 2, n - 1)
  {
  }

  /** Juxtaposing bit strings shifts the first past the second. */
  lemma {:induction false} ValueOfConcat(a: seq<bool>, b: seq<bool>)
    ensures ValueOf(a + b) == Shl(ValueOf(a), |b|) + ValueOf(b)
  {
    if b == [] {
      assert a + b == a;
    } else {
      var c := a + b;
      assert c[..|c| - 1] == a + b[..|b| - 1];
      ValueOfConcat(a, b[..|b| - 1]);
    }
  }

  lemma ValueOfSplit(bits: seq<bool>, n: nat)
    requires n <= |bits|
    ensures ValueOf(bits) == Shl(ValueOf(bits[..n]), |bits| - n) + ValueOf(bits[n..])
  {
    assert bits == bits[..n] + bits[n..];
    ValueOfConcat(bits[..n], bits[n..]);
  }

  // ---- or, exclusive or ----

  function Or(a: nat, b: nat): (r: nat)
    decreases a + b
  {
    if a == 0 && b == 0 then 0
    else 2 * Or(a / 2, b / 2) + if a % 2 == 1 || b % 2 == 1 then 1 else 0
  }

  lemma {:induction false} OrZero(a: nat)
    ensures Or(a, 0) == a
  {
    if a != 0 {
      OrZero(a / 2);
    }
  }

  /** Oring a field into zero bits adds it. */
  lemma {:induction false} OrDisjoint(hi: nat, lo: nat, n: nat)
    requires lo < Pow2(n)
    ensures Or(Shl(hi, n), lo) == Shl(hi, n) + lo
  {
    if n == 0 {
      OrZero(hi);
    } else {
      OrDisjoint(hi, lo / 2, n - 1);
      assert Shl(hi, n) / 2 == Shl(hi, n - 1);
    }
  }

  function Xor(a: nat, b: nat): (r: nat)
    decreases a + b
  {
    if a == 0 && b == 0 then 0
    else 2 * Xor(a / 2, b / 2) + if a % 2 != b % 2 then 1 else 0
  }

  lemma {:induction false} XorAssoc(a: nat, b: nat, c: nat)
    ensures Xor(Xor(a, b), c) == Xor(a, Xor(b, c))
    decreases a + b + c
  {
    if a != 0 || b != 0 || c != 0 {
      XorAssoc(a / 2, b / 2, c / 2);
      assert Xor(a, b) / 2 == Xor(a / 2, b / 2) && Xor(b, c) / 2 == Xor(b / 2, c / 2);
    }
  }

  lemma {:induction false} XorComm(a: nat, b: nat)
    ensures Xor(a, b) == Xor(b, a)
    decreases a + b
  {
    if a != 0 || b != 0 {
      XorComm(a / 2, b / 2);
    }
  }

  lemma {:induction false} XorSelf(a: nat)
    ensures Xor(a, a) == 0
  {
    if a != 0 {
      XorSelf(a / 2);
    }
  }

  lemma {:induction false} XorZero(a: nat)
    ensures Xor(0, a) == a && Xor(a, 0) == a
  {
    if a != 0 {
      XorZero(a / 2);
    }
  }

  lemma XorCancel(a: nat, b: nat, c: nat)
    requires Xor(a, b) == Xor(a, c)
    ensures b == c
  {
    XorAssoc(a, a, b);
    XorAssoc(a, a, c);
    XorSelf(a);
    XorZero(b);
    XorZero(c);
  }

  lemma {:induction false} XorBound(a: nat, b: nat, n: nat)
    requires a < Pow2(n) && b < Pow2(n)
    ensures Xor(a, b) < Pow2(n)
  {
    if n != 0 && (a != 0 || b != 0) {
      XorBound(a / 2, b / 2, n - 1);
    }
  }

  lemma {:induction false} XorShr(a: nat, b: nat, n: nat)
    ensures Shr(Xor(a, b), n) == Xor(Shr(a, n), Shr(b, n))
  {
    if n != 0 {
      assert Xor(a, b) / 2 == Xor(a / 2, b / 2);
      XorShr(a / 2, b / 2, n - 1);
    }
  }

  // ---- bytes, most significant first ----

  /** The low `8 * n` bits of `v` as bytes, most significant first. */
  function Octets(v: nat, n: nat): (r: seq<byte>)
    ensures |r| == n
  {
    if n == 0 then [] else Octets(v / 256, n - 1) + [v % 256]
  }

  lemma {:induction false} OctetsInjective(v: nat, w: nat, n: nat)
    requires v < Power256(n) && w < Power256(n) && Octets(v, n) == Octets(w, n)
    ensures v == w
  {
    if n != 0 {
      var a, b := Octets(v / 256, n - 1), Octets(w / 256, n - 1);
      assert a == (a + [v % 256])[..n - 1] && b == (b + [w % 256])[..n - 1];
      assert (a + [v % 256])[n - 1] == (b + [w % 256])[n - 1];
      OctetsInjective(v / 256, w / 256, n - 1);
    }
  }

  function Power256(n: nat): nat {
    if n == 0 then 1 else 256 * Power256(n - 1)
  }
}
