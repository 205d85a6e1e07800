/** CRC-32 (reflected polynomial 0xEDB88320): the table-driven loop, the bitwise polynomial division it
    implements, and the bursts that division detects. */
module Crc32 {
  import opened Words

  const POLY: nat := 0xEDB8_8320
  const ALL_ONES: nat := 0xFFFF_FFFF

  // ---- bitwise division ----

  /** One step of the division register: shift right, subtracting the polynomial when a one falls out. */
  function Step(c: nat): nat {
    if c % 2 == 1 then Xor(POLY, c / 2) else c / 2
  }

  function StepN(c: nat, n: nat): nat
    decreases n
  {
    if n == 0 then c else StepN(Step(c), n - 1)
  }

  /** Feeds message bits into the register one at a time. */
  function Feed(c: nat, bits: seq<bool>): nat
    decreases |bits|
  {
    if bits == [] then c else Feed(Step(Xor(c, if bits[0] then 1 else 0)), bits[1..])
  }

  /** The low `n` bits of `v`, least significant first. */
  function LsbBits(v: nat, n: nat): (bits: seq<bool>)
    ensures |bits| == n
  {
    if n == 0 then [] else [v % 2 == 1] + LsbBits(v / 2, n - 1)
  }

  /** The bits of a message in the order the division takes them. */
  function MessageBits(data: seq<byte>): (bits: seq<bool>)
    ensures |bits| == 8 * |data|
  {
    if data == [] then [] else MessageBits(data[..|data| - 1]) + LsbBits(data[|data| - 1], 8)
  }

  /** The checksum by definition. */
  function Crc(data: seq<byte>): nat {
    Xor(Feed(ALL_ONES, MessageBits(data)), ALL_ONES)
  }

  lemma {:induction false} FeedConcat(c: nat, a: seq<bool>, b: seq<bool>)
    ensures Feed(c, a + b) == Feed(Feed(c, a), b)
    decreases |a|
  {
    if a == [] {
      assert a + b == b;
    } else {
      assert (a + b)[1..] == a[1..] + b;
      FeedConcat(Step(Xor(c, if a[0] then 1 else 0)), a[1..], b);
    }
  }

  // ---- the register is linear ----

  /** Bits above the lowest one pass through a step unchanged. */
  lemma StepCarries(c: nat, w: nat)
    ensures Step(Xor(c, w)) == Xor(Step(Xor(c, w % 2)), w / 2)
  {
    hide Xor;
    var low := w % 2;
    XorHalves(c, w);
    XorHalves(c, low);
    XorZero(c / 2);
    XorAssoc(POLY, c / 2, w / 2);
  }

  lemma XorHalves(a: nat, b: nat)
    ensures Xor(a, b) / 2 == Xor(a / 2, b / 2)
    ensures Xor(a, b) % 2 == if a % 2 != b % 2 then 1 else 0
  {
  }

  /** Feeding the bits of a word is stepping over the register with the word added in. */
  lemma {:induction false} FeedWord(c: nat, w: nat, n: nat)
    requires w < Pow2(n)
    ensures Feed(c, LsbBits(w, n)) == StepN(Xor(c, w), n)
    decreases n
  {
    if n == 0 {
      XorZero(c);
    } else {
      var c' := Step(Xor(c, w % 2));
      assert LsbBits(w, n)[1..] == LsbBits(w / 2, n - 1);
      FeedWord(c', w / 2, n - 1);
      StepCarries(c, w);
    }
  }

  /** Stepping splits into what falls out and what is only shifted down. */
  lemma {:induction false} StepNCarries(a: nat, h: nat, n: nat)
    ensures StepN(Xor(a, Shl(h, n)), n) == Xor(StepN(a, n), h)
    decreases n
  {
    if n != 0 {
      StepCarries(a, Shl(h, n));
      XorZero(a);
      assert Shl(h, n) / 2 == Shl(h, n - 1) && Shl(h, n) % 2 == 0;
      StepNCarries(Step(a), h, n - 1);
    }
  }

  lemma {:induction false} XorDisjoint(hi: nat, lo: nat, n: nat)
    requires lo < Pow2(n)
    ensures Xor(lo, Shl(hi, n)) == Shl(hi, n) + lo
    decreases n
  {
    if n == 0 {
      XorZero(hi);
    } else {
      XorDisjoint(hi, lo / 2, n - 1);
      assert Shl(hi, n) / 2 == Shl(hi, n - 1);
      XorHalves(lo, Shl(hi, n));
    }
  }

  /** The byte step of the table-driven loop: `table[x & 0xFF] ^ (x >> 8)`. */
  lemma ByteStep(x: nat)
    ensures StepN(x, 8) == Xor(StepN(Low(x, 8), 8), Shr(x, 8))
  {
    hide *;
    ShrLow(x, 8);
    LowBound(x, 8);
    XorDisjoint(Shr(x, 8), Low(x, 8), 8);
    StepNCarries(Low(x, 8), Shr(x, 8), 8);
  }

  /** Adding a byte to the register changes only its low eight bits. */
  lemma {:induction false} XorLowByte(c: nat, b: nat, n: nat)
    requires b < Pow2(n)
    ensures Shr(Xor(c, b), n) == Shr(c, n)
  {
    XorShr(c, b, n);
    SplitWord(0, b, n);
    ShlZero(n);
    XorZero(Shr(c, n));
  }

  // ---- bounds ----

  lemma StepBound(c: nat)
    requires c < Pow2(32)
    ensures Step(c) < Pow2(32)
  {
    PolyTop();
    XorBound(POLY, c / 2, 32);
  }

  lemma {:induction false} FeedBound(c: nat, bits: seq<bool>)
    requires c < Pow2(32)
    ensures Feed(c, bits) < Pow2(32)
    decreases |bits|
  {
    if bits != [] {
      PolyTop();
      XorBound(c, if bits[0] then 1 else 0, 32);
      StepBound(Xor(c, if bits[0] then 1 else 0));
      FeedBound(Step(Xor(c, if bits[0] then 1 else 0)), bits[1..]);
    }
  }

  lemma PolyTop()
    ensures Pow2(31) == 0x8000_0000 && Pow2(32) == 0x1_0000_0000
    ensures Shr(POLY, 31) == 1 && POLY < Pow2(32)
  {
    Pow2Of16();
    assert Pow2(20) == 0x10_0000;
    assert Pow2(24) == 0x100_0000;
    assert Pow2(28) == 0x1000_0000;
    assert Pow2(31) == 0x8000_0000;
    ShlOne(31);
    SplitWord(1, POLY - 0x8000_0000, 31);
  }

  // ---- the register loses nothing ----

  /** The top bit of the result tells whether the polynomial was subtracted. */
  lemma StepParity(c: nat)
    requires c < Pow2(32)
    ensures Shr(Step(c), 31) == c % 2
  {
    PolyTop();
    SplitWord(0, c / 2, 31);
    ShlZero(31);
    XorShr(POLY, c / 2, 31);
  }

  lemma StepInjective(a: nat, b: nat)
    requires a < Pow2(32) && b < Pow2(32) && Step(a) == Step(b)
    ensures a == b
  {
    StepParity(a);
    StepParity(b);
    if a % 2 == 1 {
      XorCancel(POLY, a / 2, b / 2);
    }
    assert a == 2 * (a / 2) + a % 2 && b == 2 * (b / 2) + b % 2;
  }

  lemma {:induction false} StepNInjective(a: nat, b: nat, n: nat)
    requires a < Pow2(32) && b < Pow2(32) && StepN(a, n) == StepN(b, n)
    ensures a == b
    decreases n
  {
    if n != 0 {
      hide Pow2, Step;
      StepBound(a);
      StepBound(b);
      StepNInjective(Step(a), Step(b), n - 1);
      StepInjective(a, b);
    }
  }

  /** Different registers stay different over the same message. */
  lemma {:induction false} FeedInjective(a: nat, b: nat, bits: seq<bool>)
    requires a < Pow2(32) && b < Pow2(32) && Feed(a, bits) == Feed(b, bits)
    ensures a == b
    decreases |bits|
  {
    if bits != [] {
      var v := if bits[0] then 1 else 0;
      PolyTop();
      XorBound(a, v, 32);
      XorBound(b, v, 32);
      StepBound(Xor(a, v));
      StepBound(Xor(b, v));
      FeedInjective(Step(Xor(a, v)), Step(Xor(b, v)), bits[1..]);
      StepInjective(Xor(a, v), Xor(b, v));
      XorComm(a, v);
      XorComm(b, v);
      XorCancel(v, a, b);
    }
  }

  /** Bits read as a word, least significant first. */
  function LsbValue(bits: seq<bool>): (v: nat)
    ensures v < Pow2(|bits|)
  {
    if bits == [] then 0 else 2 * LsbValue(bits[1..]) + if bits[0] then 1 else 0
  }

  lemma {:induction false} LsbBitsOfValue(bits: seq<bool>)
    ensures LsbBits(LsbValue(bits), |bits|) == bits
  {
    if bits != [] {
      LsbBitsOfValue(bits[1..]);
    }
  }

  /** Two different windows of up to 32 bits leave different registers. */
  lemma WindowDetected(c: nat, u: seq<bool>, v: seq<bool>)
    requires c < Pow2(32) && |u| == |v| <= 32 && Feed(c, u) == Feed(c, v)
    ensures u == v
  {
    var n, wu, wv := |u|, LsbValue(u), LsbValue(v);
    LsbBitsOfValue(u);
    LsbBitsOfValue(v);
    FeedWord(c, wu, n);
    FeedWord(c, wv, n);
    Pow2Monotone(n, 32);
    XorBound(c, wu, 32);
    XorBound(c, wv, 32);
    StepNInjective(Xor(c, wu), Xor(c, wv), n);
    XorCancel(c, wu, wv);
  }

  /** `a` and `b` differ only within 32 consecutive bits. */
  ghost predicate WithinBurst(a: seq<bool>, b: seq<bool>) {
    && |a| == |b|
    && exists i {:trigger a[..i]} | 0 <= i <= |a| :: BurstAt(a, b, i)
  }

  ghost predicate BurstAt(a: seq<bool>, b: seq<bool>, i: nat) {
    && |a| == |b| && i <= |a|
    && a[..i] == b[..i]
    && a[BurstEnd(|a|, i)..] == b[BurstEnd(|a|, i)..]
  }

  function BurstEnd(n: nat, i: nat): (j: nat)
    requires i <= n
    ensures i <= j <= n && j - i <= 32
  {
    if i + 32 <= n then i + 32 else n
  }

  lemma FeedBurst(c: nat, a: seq<bool>, b: seq<bool>, i: nat)
    requires c < Pow2(32) && BurstAt(a, b, i) && Feed(c, a) == Feed(c, b)
    ensures a == b
  {
    hide Feed, Pow2, BurstEnd;
    var j := BurstEnd(|a|, i);
    var p, u, v, s := a[..i], a[i..j], b[i..j], a[j..];
    assert a == p + (u + s) && b == p + (v + s);
    FeedConcat(c, p, u + s);
    FeedConcat(c, p, v + s);
    var m := Feed(c, p);
    FeedConcat(m, u, s);
    FeedConcat(m, v, s);
    FeedBound(c, p);
    FeedBound(m, u);
    FeedBound(m, v);
    FeedInjective(Feed(m, u), Feed(m, v), s);
    WindowDetected(m, u, v);
  }

  lemma {:induction false} MessageBitsInjective(a: seq<byte>, b: seq<byte>)
    requires MessageBits(a) == MessageBits(b)
    ensures a == b
  {
    if a != [] {
      var n := |a| - 1;
      assert |b| == |a|;
      assert MessageBits(a)[..8 * n] == MessageBits(a[..n]) && MessageBits(a)[8 * n..] == LsbBits(a[n], 8);
      assert MessageBits(b)[..8 * n] == MessageBits(b[..n]) && MessageBits(b)[8 * n..] == LsbBits(b[n], 8);
      MessageBitsInjective(a[..n], b[..n]);
      LsbBitsInjective(a[n], b[n], 8);
      assert a == a[..n] + [a[n]] && b == b[..n] + [b[n]];
    }
  }

  lemma {:induction false} LsbBitsInjective(v: nat, w: nat, n: nat)
    requires v < Pow2(n) && w < Pow2(n) && LsbBits(v, n) == LsbBits(w, n)
    ensures v == w
  {
    if n != 0 {
      assert LsbBits(v, n)[0] == LsbBits(w, n)[0];
      assert LsbBits(v, n)[1..] == LsbBits(v / 2, n - 1) && LsbBits(w, n)[1..] == LsbBits(w / 2, n - 1);
      LsbBitsInjective(v / 2, w / 2, n - 1);
    }
  }

  /** Every change confined to 32 consecutive bits changes the checksum. */
  lemma BurstDetected(a: seq<byte>, b: seq<byte>)
    requires a != b && WithinBurst(MessageBits(a), MessageBits(b))
    ensures Crc(a) != Crc(b)
  {
    hide Feed, Pow2, MessageBits, BurstAt, Xor;
    var u, v := MessageBits(a), MessageBits(b);
    if Crc(a) == Crc(b) {
      XorComm(Feed(ALL_ONES, u), ALL_ONES);
      XorComm(Feed(ALL_ONES, v), ALL_ONES);
      XorCancel(ALL_ONES, Feed(ALL_ONES, u), Feed(ALL_ONES, v));
      PolyTop();
      var i :| 0 <= i <= |u| && BurstAt(u, v, i);
      FeedBurst(ALL_ONES, u, v, i);
      MessageBitsInjective(a, b);
    }
  }

  lemma {:induction false} MessageBitsConcat(a: seq<byte>, b: seq<byte>)
    ensures MessageBits(a + b) == MessageBits(a) + MessageBits(b)
  {
    hide LsbBits;
    if b == [] {
      assert a + b == a;
    } else {
      var c := a + b;
      assert c[..|c| - 1] == a + b[..|b| - 1];
      MessageBitsConcat(a, b[..|b| - 1]);
      ConcatAssoc(MessageBits(a), MessageBits(b[..|b| - 1]), LsbBits(b[|b| - 1], 8));
    }
  }

  /** In particular, every change to up to four consecutive bytes. */
  lemma FourBytesDetected(p: seq<byte>, u: seq<byte>, v: seq<byte>, s: seq<byte>)
    requires |u| == |v| <= 4 && u != v
    ensures Crc(p + u + s) != Crc(p + v + s)
  {
    hide MessageBits, Crc;
    MessageBitsConcat(p + u, s);
    MessageBitsConcat(p + v, s);
    MessageBitsConcat(p, u);
    MessageBitsConcat(p, v);
    var a, b, i := MessageBits(p + u + s), MessageBits(p + v + s), 8 * |p|;
    var j, k := 8 * (|p| + |u|), BurstEnd(|a|, i);
    assert a[..i] == MessageBits(p) == b[..i];
    assert a[j..] == MessageBits(s) == b[j..];
    assert a[k..] == a[j..][k - j..] && b[k..] == b[j..][k - j..];
    assert BurstAt(a, b, i);
    assert (p + u + s)[|p|..|p| + |u|] == u && (p + v + s)[|p|..|p| + |u|] == v;
    BurstDetected(p + u + s, p + v + s);
  }

  // ---- the table-driven loop ----

  ghost predicate IsTable(t: seq<nat>) {
    |t| == 256 && forall i :: 0 <= i < 256 ==> t[i] == StepN(i, 8)
  }

  method BuildTable() returns (t: array<nat>)
    ensures fresh(t) && IsTable(t[..])
  {
    hide Step;
    t := new nat[256];
    var i: nat := 0;
    while i < 256
      invariant i <= 256
      invariant forall j :: 0 <= j < i ==> t[j] == StepN(j, 8)
    {
      var c := i;
      var k: nat := 0;
      while k < 8
        invariant k <= 8
        invariant StepN(c, 8 - k) == StepN(i, 8)
      {
        c := Step(c);
        k := k + 1;
      }
      t[i] := c;
      i := i + 1;
    }
  }

  lemma FeedByte(c: nat, b: byte)
    ensures Low(Xor(c, b), 8) < 256
    ensures Feed(c, LsbBits(b, 8)) == Xor(StepN(Low(Xor(c, b), 8), 8), Shr(c, 8))
  {
    Pow2Of16();
    LowBound(Xor(c, b), 8);
    FeedWord(c, b, 8);
    ByteStep(Xor(c, b));
    XorLowByte(c, b, 8);
  }

  /** The table-driven loop computes the bitwise division. */
  method CrcBytes(data: seq<byte>) returns (crc: nat)
    ensures crc == Crc(data)
  {
    var table := BuildTable();
    crc := ALL_ONES;
    var i: nat := 0;
    while i < |data|
      invariant i <= |data|
      invariant IsTable(table[..])
      invariant crc == Feed(ALL_ONES, MessageBits(data[..i]))
    {
      NextByte(data, i, crc);
      assert table[..][Low(Xor(crc, data[i]), 8)] == StepN(Low(Xor(crc, data[i]), 8), 8);
      crc := Xor(table[Low(Xor(crc, data[i]), 8)], Shr(crc, 8));
      i := i + 1;
    }
    assert data[..i] == data;
    crc := Xor(crc, ALL_ONES);
  }

  lemma NextByte(data: seq<byte>, i: nat, c: nat)
    requires i < |data| && c == Feed(ALL_ONES, MessageBits(data[..i]))
    ensures Low(Xor(c, data[i]), 8) < 256
    ensures Feed(ALL_ONES, MessageBits(data[..i + 1])) == Xor(StepN(Low(Xor(c, data[i]), 8), 8), Shr(c, 8))
  {
    assert data[..i + 1][..i] == data[..i];
    FeedConcat(ALL_ONES, MessageBits(data[..i]), LsbBits(data[i], 8));
    FeedByte(c, data[i]);
  }

  lemma CrcRange(data: seq<byte>)
    ensures Crc(data) < Pow2(32)
  {
    PolyTop();
    FeedBound(ALL_ONES, MessageBits(data));
    XorBound(Feed(ALL_ONES, MessageBits(data)), ALL_ONES, 32);
  }
}
