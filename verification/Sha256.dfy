/** SHA-256 (FIPS 180-4): the padded message folded block by block, and the streaming object that computes it from
    any chunks. */
module Sha256 {
  import opened Words

  // ---- functions on words (sections 4.1.2 and 4.2.2) ----

  function Rotr(x: bv32, n: bv32): bv32
    requires 0 < n < 32
  {
    (x >> n) | (x << (32 - n))
  }

  /** Addition of words, modulo 2^32. */
  function Plus(x: bv32, y: bv32): bv32 {
    x + y
  }

  /** Four bytes as a word, most significant first. */
  function BigEndian(b0: byte, b1: byte, b2: byte, b3: byte): bv32 {
    (b0 as bv32 << 24) | (b1 as bv32 << 16) | (b2 as bv32 << 8) | b3 as bv32
  }

  function Ch(x: bv32, y: bv32, z: bv32): bv32 {
    (x & y) ^ (!x & z)
  }

  function Maj(x: bv32, y: bv32, z: bv32): bv32 {
    (x & y) ^ (x & z) ^ (y & z)
  }

  function BigSigma0(x: bv32): bv32 {
    Rotr(x, 2) ^ Rotr(x, 13) ^ Rotr(x, 22)
  }

  function BigSigma1(x: bv32): bv32 {
    Rotr(x, 6) ^ Rotr(x, 11) ^ Rotr(x, 25)
  }

  function SmallSigma0(x: bv32): bv32 {
    Rotr(x, 7) ^ Rotr(x, 18) ^ (x >> 3)
  }

  function SmallSigma1(x: bv32): bv32 {
    Rotr(x, 17) ^ Rotr(x, 19) ^ (x >> 10)
  }

  const K0: seq<bv32> := [
    0x428a2f98, 0x71374491, 0xb5c0fbcf, 0xe9b5dba5, 0x3956c25b, 0x59f111f1, 0x923f82a4, 0xab1c5ed5,
    0xd807aa98, 0x12835b01, 0x243185be, 0x550c7dc3, 0x72be5d74, 0x80deb1fe, 0x9bdc06a7, 0xc19bf174]
  const K1: seq<bv32> := [
    0xe49b69c1, 0xefbe4786, 0x0fc19dc6, 0x240ca1cc, 0x2de92c6f, 0x4a7484aa, 0x5cb0a9dc, 0x76f988da,
    0x983e5152, 0xa831c66d, 0xb00327c8, 0xbf597fc7, 0xc6e00bf3, 0xd5a79147, 0x06ca6351, 0x14292967]
  const K2: seq<bv32> := [
    0x27b70a85, 0x2e1b2138, 0x4d2c6dfc, 0x53380d13, 0x650a7354, 0x766a0abb, 0x81c2c92e, 0x92722c85,
    0xa2bfe8a1, 0xa81a664b, 0xc24b8b70, 0xc76c51a3, 0xd192e819, 0xd6990624, 0xf40e3585, 0x106aa070]
  const K3: seq<bv32> := [
    0x19a4c116, 0x1e376c08, 0x2748774c, 0x34b0bcb5, 0x391c0cb3, 0x4ed8aa4a, 0x5b9cca4f, 0x682e6ff3,
    0x748f82ee, 0x78a5636f, 0x84c87814, 0x8cc70208, 0x90befffa, 0xa4506ceb, 0xbef9a3f7, 0xc67178f2]

  function K(t: nat): bv32
    requires t < 64
  {
    if t < 16 then K0[t] else if t < 32 then K1[t - 16] else if t < 48 then K2[t - 32] else K3[t - 48]
  }

  // ---- one block (section 6.2.2) ----

  datatype Vars = Vars(a: bv32, b: bv32, c: bv32, d: bv32, e: bv32, f: bv32, g: bv32, h: bv32)

  const INITIAL := Vars(0x6a09e667, 0xbb67ae85, 0x3c6ef372, 0xa54ff53a, 0x510e527f, 0x9b05688c, 0x1f83d9ab, 0x5be0cd19)

  type Block = b: seq<byte> | |b| == 64 witness seq(64, _ => 0)

  function Word(p: Block, t: nat): bv32
    requires t < 16
  {
    BigEndian(p[4 * t], p[4 * t + 1], p[4 * t + 2], p[4 * t + 3])
  }

  /** The message schedule. */
  function W(p: Block, t: nat): bv32
    requires t < 64
  {
    if t < 16 then Word(p, t)
    else Plus(Plus(Plus(W(p, t - 16), SmallSigma0(W(p, t - 15))), W(p, t - 7)), SmallSigma1(W(p, t - 2)))
  }

  function Round(v: Vars, k: bv32, w: bv32): Vars {
    var t1 := Plus(Plus(Plus(Plus(v.h, BigSigma1(v.e)), Ch(v.e, v.f, v.g)), k), w);
    var t2 := Plus(BigSigma0(v.a), Maj(v.a, v.b, v.c));
    Vars(Plus(t1, t2), v.a, v.b, v.c, Plus(v.d, t1), v.e, v.f, v.g)
  }

  /** The working variables after `n` rounds. */
  function Rounds(v: Vars, p: Block, n: nat): Vars
    requires n <= 64
  {
    if n == 0 then v else Round(Rounds(v, p, n - 1), K(n - 1), W(p, n - 1))
  }

  function Add(x: Vars, y: Vars): Vars {
    Vars(Plus(x.a, y.a), Plus(x.b, y.b), Plus(x.c, y.c), Plus(x.d, y.d),
         Plus(x.e, y.e), Plus(x.f, y.f), Plus(x.g, y.g), Plus(x.h, y.h))
  }

  function Compress(v: Vars, p: Block): Vars {
    Add(v, Rounds(v, p, 64))
  }

  // ---- whole messages (sections 5.1.1 and 6.2.2) ----

  /** Folds the compression over consecutive blocks. */
  function Fold(v: Vars, data: seq<byte>): Vars
    requires |data| % 64 == 0
  {
    if data == [] then v else Compress(Fold(v, data[..|data| - 64]), data[|data| - 64..])
  }

  const TWO64: nat := 0x1_0000_0000_0000_0000

  /** The number of zero bytes between the marker and the length. */
  function ZeroCount(length: nat): (z: nat)
    ensures z < 64 && (length + 1 + z + 8) % 64 == 0
  {
    (119 - length % 64) % 64
  }

  function Zeros(n: nat): (r: seq<byte>)
    ensures |r| == n
  {
    seq(n, _ => 0)
  }

  /** The padded message: a one bit, zeros, and the length in bits as 64 bits. */
  function Padded(m: seq<byte>): (r: seq<byte>)
    ensures |r| % 64 == 0
  {
    m + [0x80] + Zeros(ZeroCount(|m|)) + Octets(8 * |m| % TWO64, 8)
  }

  function Digest(m: seq<byte>): Vars {
    Fold(INITIAL, Padded(m))
  }

  // ---- hexadecimal ----

  function HexDigit(x: bv32): char {
    if x == 0 then '0' else if x == 1 then '1' else if x == 2 then '2' else if x == 3 then '3'
    else if x == 4 then '4' else if x == 5 then '5' else if x == 6 then '6' else if x == 7 then '7'
    else if x == 8 then '8' else if x == 9 then '9' else if x == 10 then 'a' else if x == 11 then 'b'
    else if x == 12 then 'c' else if x == 13 then 'd' else if x == 14 then 'e' else 'f'
  }

  /** Digit `i` of a word, the most significant first. */
  function Nibble(x: bv32, i: nat): bv32
    requires i < 8
  {
    if i == 0 then (x >> 28) & 0xf else if i == 1 then (x >> 24) & 0xf
    else if i == 2 then (x >> 20) & 0xf else if i == 3 then (x >> 16) & 0xf
    else if i == 4 then (x >> 12) & 0xf else if i == 5 then (x >> 8) & 0xf
    else if i == 6 then (x >> 4) & 0xf else x & 0xf
  }

  /** A word as eight lower-case digits. */
  function HexWord(x: bv32): (s: string)
    ensures |s| == 8
  {
    seq(8, i requires 0 <= i < 8 => HexDigit(Nibble(x, i)))
  }

  function Hex(v: Vars): (s: string)
    ensures |s| == 64
  {
    HexWord(v.a) + HexWord(v.b) + HexWord(v.c) + HexWord(v.d) + HexWord(v.e) + HexWord(v.f) + HexWord(v.g) + HexWord(v.h)
  }

  // ---- folding ----

  lemma {:induction false} FoldConcat(v: Vars, a: seq<byte>, b: seq<byte>)
    requires |a| % 64 == 0 && |b| % 64 == 0
    ensures |a + b| % 64 == 0 && Fold(v, a + b) == Fold(Fold(v, a), b)
    decreases |b|
  {
    hide Compress;
    if b == [] {
      assert a + b == a;
    } else {
      var init, last := b[..|b| - 64], b[|b| - 64..];
      FoldConcat(v, a, init);
      assert (a + b)[..|a + b| - 64] == a + init;
      assert (a + b)[|a + b| - 64..] == last;
    }
  }

  lemma FoldBlock(v: Vars, done: seq<byte>, p: Block)
    requires |done| % 64 == 0
    ensures Fold(v, done + p) == Compress(Fold(v, done), p)
  {
    hide Compress;
    assert (done + p)[..|done + p| - 64] == done;
    assert (done + p)[|done + p| - 64..] == p;
  }

  /** The byte-at-a-time view of the length field. */
  lemma {:induction false} OctetAt(v: nat, n: nat, i: nat)
    requires i < n
    ensures Octets(v, n)[i] == Shr(v, 8 * (n - 1 - i)) % 256
  {
    if i < n - 1 {
      OctetAt(v / 256, n - 1, i);
      ShrByte(v, 8 * (n - 2 - i));
    }
  }

  lemma {:induction false} ShrByte(v: nat, n: nat)
    ensures Shr(v, n + 8) == Shr(v / 256, n)
  {
    assert Shr(v, n + 8) == Shr(v / 2 / 2 / 2 / 2 / 2 / 2 / 2 / 2, n) by {
      assert Shr(v, n + 8) == Shr(v / 2, n + 7);
      assert Shr(v / 2, n + 7) == Shr(v / 2 / 2, n + 6);
      assert Shr(v / 2 / 2, n + 6) == Shr(v / 2 / 2 / 2, n + 5);
      assert Shr(v / 2 / 2 / 2, n + 5) == Shr(v / 2 / 2 / 2 / 2, n + 4);
      assert Shr(v / 2 / 2 / 2 / 2, n + 4) == Shr(v / 2 / 2 / 2 / 2 / 2, n + 3);
      assert Shr(v / 2 / 2 / 2 / 2 / 2, n + 3) == Shr(v / 2 / 2 / 2 / 2 / 2 / 2, n + 2);
      assert Shr(v / 2 / 2 / 2 / 2 / 2 / 2, n + 2) == Shr(v / 2 / 2 / 2 / 2 / 2 / 2 / 2, n + 1);
    }
  }

  lemma FirstWords(p: Block, t: nat)
    requires t < 16
    ensures W(p, t) == BigEndian(p[t * 4], p[t * 4 + 1], p[t * 4 + 2], p[t * 4 + 3])
  {
    hide BigEndian;
  }

  lemma LaterWords(p: Block, t: nat)
    requires 16 <= t < 64
    ensures W(p, t) == Plus(Plus(Plus(W(p, t - 16), SmallSigma0(W(p, t - 15))), W(p, t - 7)), SmallSigma1(W(p, t - 2)))
  {
    hide Plus, SmallSigma0, SmallSigma1;
  }

  method PrepareSchedule(p: Block) returns (w: array<bv32>)
    ensures fresh(w) && w.Length == 64 && forall j :: 0 <= j < 64 ==> w[j] == W(p, j)
  {
    hide Word, BigEndian, Plus, SmallSigma0, SmallSigma1, W;
    w := new bv32[64];
    var i: nat := 0;
    while i < 16
      invariant i <= 16
      invariant forall j :: 0 <= j < i ==> w[j] == W(p, j)
    {
      FirstWords(p, i);
      w[i] := BigEndian(p[i * 4], p[i * 4 + 1], p[i * 4 + 2], p[i * 4 + 3]);
      i := i + 1;
    }
    while i < 64
      invariant 16 <= i <= 64
      invariant forall j :: 0 <= j < i ==> w[j] == W(p, j)
    {
      var s0 := SmallSigma0(w[i - 15]);
      var s1 := SmallSigma1(w[i - 2]);
      LaterWords(p, i);
      w[i] := Plus(Plus(Plus(w[i - 16], s0), w[i - 7]), s1);
      i := i + 1;
    }
  }

  method RunRounds(v: Vars, p: Block) returns (r: Vars)
    ensures r == Rounds(v, p, 64)
  {
    hide W, K, Plus, BigSigma0, BigSigma1, Ch, Maj;
    var w := PrepareSchedule(p);
    var a, b, c, d := v.a, v.b, v.c, v.d;
    var e, f, g, h := v.e, v.f, v.g, v.h;
    var i: nat := 0;
    while i < 64
      invariant i <= 64
      invariant Vars(a, b, c, d, e, f, g, h) == Rounds(v, p, i)
    {
      var t1 := Plus(Plus(Plus(Plus(h, BigSigma1(e)), Ch(e, f, g)), K(i)), w[i]);
      var t2 := Plus(BigSigma0(a), Maj(a, b, c));
      h := g;
      g := f;
      f := e;
      e := Plus(d, t1);
      d := c;
      c := b;
      b := a;
      a := Plus(t1, t2);
      i := i + 1;
    }
    return Vars(a, b, c, d, e, f, g, h);
  }

  lemma LengthWraps(a: nat, b: nat)
    ensures (a % TWO64 + b) % TWO64 == (a + b) % TWO64
  {
    var q := a / TWO64;
    assert a == q * TWO64 + a % TWO64;
    WholeTurns(a % TWO64 + b, q);
  }

  lemma {:induction false} WholeTurns(r: nat, q: nat)
    ensures (q * TWO64 + r) % TWO64 == r % TWO64
  {
    if q != 0 {
      WholeTurns(r, q - 1);
      assert q * TWO64 + r == (q - 1) * TWO64 + r + TWO64;
    }
  }

  /** More bytes waiting behind the same blocks. */
  lemma WaitingGrows(data: seq<byte>, bytes: seq<byte>, n: nat)
    requires n <= |data|
    ensures (data + bytes)[|data| - n..] == data[|data| - n..] + bytes
    ensures (data + bytes)[..|data| - n] == data[..|data| - n]
  {
  }

  lemma WaitingLength(length: nat, waiting: nat)
    requires waiting < 64 && waiting <= length && (length - waiting) % 64 == 0
    ensures waiting == length % 64
  {
  }

  lemma ZerosAdd(m: seq<byte>, a: nat, b: nat)
    ensures m + Zeros(a) + Zeros(b) == m + Zeros(a + b)
  {
  }

  lemma ZerosNeeded(length: nat, r: nat)
    requires r == length % 64
    ensures ZeroCount(length) == if r < 56 then 55 - r else 119 - r
  {
  }

  function HexDigest(m: seq<byte>): string {
    Hex(Digest(m))
  }

  // ---- nothing is lost ----

  lemma Power256Of8()
    ensures Power256(8) == TWO64
  {
    assert Power256(4) == 0x1_0000_0000;
    assert Power256(5) == 0x100_0000_0000;
    assert Power256(6) == 0x1_0000_0000_0000;
    assert Power256(7) == 0x100_0000_0000_0000;
  }

  /** Different messages of less than 2^64 bits are padded differently. */
  lemma PaddingInjective(a: seq<byte>, b: seq<byte>)
    requires 8 * |a| < TWO64 && 8 * |b| < TWO64 && Padded(a) == Padded(b)
    ensures a == b
  {
    hide Octets, ZeroCount;
    var p := Padded(a);
    assert p[|p| - 8..] == Octets(8 * |a|, 8);
    assert p[|p| - 8..] == Octets(8 * |b|, 8) by {
      assert p == Padded(b);
    }
    Power256Of8();
    OctetsInjective(8 * |a|, 8 * |b|, 8);
    assert a == p[..|a|] && b == Padded(b)[..|b|];
  }

  lemma HexDigitInjective(x: bv32, y: bv32)
    requires x < 16 && y < 16 && HexDigit(x) == HexDigit(y)
    ensures x == y
  {
  }

  lemma NibbleSmall(x: bv32, i: nat)
    requires i < 8
    ensures Nibble(x, i) < 16
  {
  }

  lemma NibblesInjective(x: bv32, y: bv32)
    requires Nibble(x, 0) == Nibble(y, 0) && Nibble(x, 1) == Nibble(y, 1)
    requires Nibble(x, 2) == Nibble(y, 2) && Nibble(x, 3) == Nibble(y, 3)
    requires Nibble(x, 4) == Nibble(y, 4) && Nibble(x, 5) == Nibble(y, 5)
    requires Nibble(x, 6) == Nibble(y, 6) && Nibble(x, 7) == Nibble(y, 7)
    ensures x == y
  {
  }

  lemma HexWordInjective(x: bv32, y: bv32)
    requires HexWord(x) == HexWord(y)
    ensures x == y
  {
    hide HexDigit, Nibble;
    forall i | 0 <= i < 8
      ensures Nibble(x, i) == Nibble(y, i)
    {
      assert HexWord(x)[i] == HexWord(y)[i];
      NibbleSmall(x, i);
      NibbleSmall(y, i);
      HexDigitInjective(Nibble(x, i), Nibble(y, i));
    }
    NibblesInjective(x, y);
  }

  lemma Peel(a: string, b: string, c: string, d: string)
    requires |b| == |d| && a + b == c + d
    ensures a == c && b == d
  {
    assert a == (a + b)[..|a|] && c == (c + d)[..|c|];
    assert b == (a + b)[|a|..] && d == (c + d)[|c|..];
  }

  /** Equal hexadecimal digests come from equal digests. */
  lemma HexInjective(v: Vars, w: Vars)
    requires Hex(v) == Hex(w)
    ensures v == w
  {
    hide HexWord;
    var s2, t2 := HexWord(v.a) + HexWord(v.b), HexWord(w.a) + HexWord(w.b);
    var s3, t3 := s2 + HexWord(v.c), t2 + HexWord(w.c);
    var s4, t4 := s3 + HexWord(v.d), t3 + HexWord(w.d);
    var s5, t5 := s4 + HexWord(v.e), t4 + HexWord(w.e);
    var s6, t6 := s5 + HexWord(v.f), t5 + HexWord(w.f);
    var s7, t7 := s6 + HexWord(v.g), t6 + HexWord(w.g);
    Peel(s7, HexWord(v.h), t7, HexWord(w.h));
    Peel(s6, HexWord(v.g), t6, HexWord(w.g));
    Peel(s5, HexWord(v.f), t5, HexWord(w.f));
    Peel(s4, HexWord(v.e), t4, HexWord(w.e));
    Peel(s3, HexWord(v.d), t3, HexWord(w.d));
    Peel(s2, HexWord(v.c), t2, HexWord(w.c));
    Peel(HexWord(v.a), HexWord(v.b), HexWord(w.a), HexWord(w.b));
    HexWordInjective(v.a, w.a);
    HexWordInjective(v.b, w.b);
    HexWordInjective(v.c, w.c);
    HexWordInjective(v.d, w.d);
    HexWordInjective(v.e, w.e);
    HexWordInjective(v.f, w.f);
    HexWordInjective(v.g, w.g);
    HexWordInjective(v.h, w.h);
  }

  // ---- the streaming object ----

  class Context {
    const state: array<bv32>
    const buffer: array<byte>
    var bitlen: nat   // 64 bits, wrapping
    var buflen: nat
    ghost var fed: seq<byte>  // the message so far

    ghost function Repr(): set<object>
      reads this
    {
      {this, state, buffer}
    }

    /** The eight state words. */
    ghost function State(): Vars
      reads state
      requires state.Length == 8
    {
      Vars(state[0], state[1], state[2], state[3], state[4], state[5], state[6], state[7])
    }

    ghost predicate Shaped() {
      state.Length == 8 && buffer.Length == 64
    }

    /** Everything fed is folded into the state, but for fewer than 64 bytes waiting in the buffer. */
    ghost predicate Valid()
      reads this, state, buffer
    {
      && Shaped() && buflen < 64 && bitlen == 8 * |fed| % TWO64
      && Holds(fed)
    }

    ghost predicate Holds(data: seq<byte>)
      reads this`buflen, state, buffer
    {
      && Shaped() && buflen <= 64
      && buflen <= |data| && (|data| - buflen) % 64 == 0
      && data[|data| - buflen..] == buffer[..buflen]
      && State() == Fold(INITIAL, data[..|data| - buflen])
    }

    constructor ()
      ensures Valid() && fed == [] && fresh(state) && fresh(buffer)
    {
      state := new bv32[8] [0x6a09e667, 0xbb67ae85, 0x3c6ef372, 0xa54ff53a, 0x510e527f, 0x9b05688c, 0x1f83d9ab, 0x5be0cd19];
      buffer := new byte[64](_ => 0);
      bitlen := 0;
      buflen := 0;
      fed := [];
    }

    method CompressBuffer()
      requires Shaped()
      modifies state
      ensures State() == Compress(old(State()), buffer[..])
    {
      hide Rounds, Plus;
      var v := RunRounds(Vars(state[0], state[1], state[2], state[3], state[4], state[5], state[6], state[7]), buffer[..]);
      state[0] := Plus(state[0], v.a);
      state[1] := Plus(state[1], v.b);
      state[2] := Plus(state[2], v.c);
      state[3] := Plus(state[3], v.d);
      state[4] := Plus(state[4], v.e);
      state[5] := Plus(state[5], v.f);
      state[6] := Plus(state[6], v.g);
      state[7] := Plus(state[7], v.h);
    }

    /** Takes any number of bytes, compressing each block as it fills. */
    method Update(data: seq<byte>)
      requires Valid()
      modifies Repr()
      ensures Valid() && fed == old(fed) + data
    {
      hide Holds, Fold;
      LengthWraps(8 * |fed|, 8 * |data|);
      var at: nat := 0;
      assert old(fed) + data[..0] == old(fed);
      bitlen := (bitlen + 8 * |data|) % TWO64;
      while at < |data|
        invariant at <= |data| && buflen < 64
        invariant Holds(old(fed) + data[..at])
        invariant bitlen == (old(bitlen) + 8 * |data|) % TWO64 && fed == old(fed)
      {
        var take := if 64 - buflen < |data| - at then 64 - buflen else |data| - at;
        Append(data[at..at + take], old(fed) + data[..at]);
        assert old(fed) + data[..at] + data[at..at + take] == old(fed) + data[..at + take];
        at := at + take;
        if buflen == 64 {
          FlushBlock(old(fed) + data[..at]);
        }
      }
      fed := fed + data;
      assert data[..at] == data;
    }

    /** Copies bytes behind those in the buffer. */
    method Append(bytes: seq<byte>, ghost data: seq<byte>)
      requires Holds(data) && buflen + |bytes| <= 64
      modifies this`buflen, buffer
      ensures Holds(data + bytes) && buflen == old(buflen) + |bytes|
    {
      hide Fold;
      var k: nat := 0;
      while k < |bytes|
        invariant k <= |bytes| && buflen == old(buflen)
        invariant buffer[..buflen] == old(buffer[..buflen])
        invariant buffer[buflen..buflen + k] == bytes[..k]
      {
        buffer[buflen + k] := bytes[k];
        k := k + 1;
      }
      buflen := buflen + |bytes|;
      WaitingGrows(data, bytes, old(buflen));
      assert buffer[..buflen] == old(buffer[..buflen]) + bytes;
    }

    /** Compresses a full buffer. */
    method FlushBlock(ghost data: seq<byte>)
      requires Holds(data) && buflen == 64
      modifies this`buflen, state
      ensures Holds(data) && buflen == 0
    {
      hide Compress, Fold;
      FoldBlock(INITIAL, data[..|data| - 64], buffer[..]);
      assert data == data[..|data| - 64] + buffer[..];
      CompressBuffer();
      buflen := 0;
      assert data[..|data| - 0] == data;
    }

    /** Fills the buffer with zero bytes up to place `n`. */
    method ZeroFill(n: nat, ghost data: seq<byte>)
      requires Shaped() && Holds(data) && buflen <= n <= 64
      modifies this`buflen, buffer
      ensures Holds(data + Zeros(n - old(buflen))) && buflen == n
    {
      hide Holds;
      ghost var z: nat := 0;
      assert data + Zeros(0) == data;
      while buflen < n
        invariant buflen == old(buflen) + z <= n
        invariant Shaped() && Holds(data + Zeros(z))
      {
        Append([0], data + Zeros(z));
        assert data + Zeros(z) + [0] == data + Zeros(z + 1);
        z := z + 1;
      }
    }

    /** Pads the message and returns the digest. */
    method Final() returns (hex: string)
      requires Valid()
      modifies Repr()
      ensures hex == HexDigest(old(fed))
    {
      hide Holds, Fold, HexWord, Octets, ZeroCount;
      var totalBits := bitlen;
      ghost var m := fed + [0x80];
      ghost var r := buflen;
      WaitingCount();
      Append([0x80], fed);
      if 56 < buflen {
        ZeroFill(64, m);
        FlushBlock(m + Zeros(63 - r));
        ZeroFill(56, m + Zeros(63 - r));
        ZerosAdd(m, 63 - r, 56);
      } else {
        ZeroFill(56, m);
      }
      ZerosNeeded(|fed|, r);
      ghost var z := m + Zeros(ZeroCount(|fed|));
      var i: nat := 0;
      assert z + Octets(totalBits, 8)[..0] == z;
      while i < 8
        invariant i <= 8 && buflen == 56 + i
        invariant Shaped() && Holds(z + Octets(totalBits, 8)[..i])
      {
        OctetAt(totalBits, 8, i);
        Append([Shr(totalBits, 56 - i * 8) % 256], z + Octets(totalBits, 8)[..i]);
        assert z + Octets(totalBits, 8)[..i] + [Octets(totalBits, 8)[i]] == z + Octets(totalBits, 8)[..i + 1];
        i := i + 1;
      }
      ghost var padded := z + Octets(totalBits, 8);
      assert padded == z + Octets(totalBits, 8)[..8];
      LastBlock(padded);
      CompressBuffer();
      hex := HexWord(state[0]) + HexWord(state[1]) + HexWord(state[2]) + HexWord(state[3])
           + HexWord(state[4]) + HexWord(state[5]) + HexWord(state[6]) + HexWord(state[7]);
    }

    /** What waits is what whole blocks leave. */
    lemma WaitingCount()
      requires Valid()
      ensures buflen == |fed| % 64
    {
      hide Fold;
      WaitingLength(|fed|, buflen);
    }

    lemma LastBlock(data: seq<byte>)
      requires Holds(data) && buflen == 64
      ensures |data| % 64 == 0 && Compress(State(), buffer[..]) == Fold(INITIAL, data)
    {
      hide Compress, Fold;
      FoldBlock(INITIAL, data[..|data| - 64], buffer[..]);
      assert data == data[..|data| - 64] + buffer[..];
    }
  }

  // ---- in memory and from files ----

  method Sha256Hex(data: seq<byte>) returns (hex: string)
    ensures hex == HexDigest(data)
  {
    hide HexDigest, Context.Holds;
    var ctx := new Context();
    ctx.Update(data);
    assert [] + data == data;
    hex := ctx.Final();
  }

  /** A file to read: one that cannot be opened, one read to its end, or one that fails after some bytes. */
  datatype File = Unopenable | Whole(content: seq<byte>) | Broken(content: seq<byte>)

  const CHUNK: nat := 0x1_0000

  /** Hashes a file 64 KiB at a time. */
  method Sha256FileHex(file: File) returns (ok: bool, hex: string)
    ensures ok == file.Whole?
    ensures ok ==> hex == HexDigest(file.content)
  {
    hide HexDigest, Context.Holds;
    hex := "";
    if file.Unopenable? {
      return false, hex;
    }
    var ctx := new Context();
    var at: nat := 0;
    var good, eof := true, false;
    assert file.content[..0] == [];
    while good
      invariant at <= |file.content| && ctx.Valid() && ctx.fed == file.content[..at]
      invariant fresh(ctx) && fresh(ctx.Repr())
      invariant !good ==> at == |file.content| && eof == file.Whole?
      decreases |file.content| - at, good
    {
      var got := if |file.content| - at < CHUNK then |file.content| - at else CHUNK;
      if got < CHUNK {
        good := false;
        eof := file.Whole?;
      }
      if 0 < got {
        assert file.content[..at] + file.content[at..at + got] == file.content[..at + got];
        ctx.Update(file.content[at..at + got]);
      }
      at := at + got;
    }
    assert file.content[..at] == file.content;
    if !eof {
      return false, hex;
    }
    hex := ctx.Final();
    return true, hex;
  }

  /** Feeds chunks one after another. */
  method Sha256Chunks(chunks: seq<seq<byte>>) returns (hex: string)
    ensures hex == HexDigest(Joined(chunks))
  {
    hide HexDigest, Context.Holds;
    var ctx := new Context();
    var n: nat := 0;
    while n < |chunks|
      invariant n <= |chunks| && ctx.Valid() && ctx.fed == Joined(chunks[..n])
      invariant fresh(ctx) && fresh(ctx.Repr())
    {
      ctx.Update(chunks[n]);
      assert chunks[..n + 1][..n] == chunks[..n];
      n := n + 1;
    }
    assert chunks[..n] == chunks;
    hex := ctx.Final();
  }

  function Joined(chunks: seq<seq<byte>>): seq<byte> {
    if chunks == [] then [] else Joined(chunks[..|chunks| - 1]) + chunks[|chunks| - 1]
  }
}
