/** What the checksum is: the remainder of dividing the message, as a polynomial over the two-element field, by the
    CRC-32 generator. A polynomial is the set of the exponents it has. */
module CrcPolynomial {
  import opened Words
  import opened Crc32

  const GENERATOR: set<nat> := {32, 26, 23, 22, 16, 12, 11, 10, 8, 7, 5, 4, 2, 1, 0}

  /** Adding polynomials: equal terms cancel. */
  function Plus(p: set<nat>, q: set<nat>): set<nat> {
    (p - q) + (q - p)
  }

  /** Multiplying by a power of x. */
  function Up(p: set<nat>, n: nat): set<nat> {
    set k | k in p :: k + n
  }

  /** The generator times the polynomial whose coefficients are `qs`, the highest first. */
  function Multiple(qs: seq<bool>): set<nat> {
    if qs == [] then {}
    else Plus(Up(Multiple(qs[..|qs| - 1]), 1), if qs[|qs| - 1] then GENERATOR else {})
  }

  ghost predicate Below32(r: set<nat>) {
    forall e :: e in r ==> e < 32
  }

  /** Dividing `p` by the generator leaves `r`. */
  ghost predicate Leaves(p: set<nat>, r: set<nat>) {
    Below32(r) && exists qs {:trigger Multiple(qs)} :: p == Plus(Multiple(qs), r)
  }

  // ---- bits ----

  predicate Bit(v: nat, i: nat)
    decreases i
  {
    if i == 0 then v % 2 == 1 else Bit(v / 2, i - 1)
  }

  lemma {:induction false} BitXor(a: nat, b: nat, i: nat)
    ensures Bit(Xor(a, b), i) <==> Bit(a, i) != Bit(b, i)
    decreases i
  {
    XorHalves(a, b);
    if i != 0 {
      BitXor(a / 2, b / 2, i - 1);
    }
  }

  lemma {:induction false} NoHighBit(v: nat, n: nat)
    requires v < Pow2(n)
    ensures !Bit(v, n)
    decreases n
  {
    if n != 0 {
      NoHighBit(v / 2, n - 1);
    }
  }

  lemma {:induction false} LsbBit(v: nat, n: nat, k: nat)
    requires k < n
    ensures LsbBits(v, n)[k] <==> Bit(v, k)
    decreases n
  {
    if k != 0 {
      LsbBit(v / 2, n - 1, k - 1);
    }
  }

  lemma OneBit(b: bool, i: nat)
    ensures Bit(if b then 1 else 0, i) <==> b && i == 0
  {
    if i != 0 {
      ZeroBit(i - 1);
    }
  }

  lemma {:induction false} ZeroBit(i: nat)
    ensures !Bit(0, i)
    decreases i
  {
    if i != 0 {
      ZeroBit(i - 1);
    }
  }

  // ---- the register ----

  /** The `n` lowest powers. */
  function Powers(n: nat): (r: set<nat>)
    ensures forall e: nat :: e in r <==> e < n
  {
    if n == 0 then {} else Powers(n - 1) + {n - 1}
  }

  /** The register as a polynomial: its lowest bit stands for the highest power. */
  function Register(c: nat): (r: set<nat>)
    ensures forall e: nat :: e in r <==> e < 32 && Bit(c, 31 - e)
  {
    set e | e in Powers(32) && Bit(c, 31 - e)
  }

  /** The hexadecimal digit of `v` at place `a`, the lowest first. */
  function Hex(v: nat, a: nat): nat
    decreases a
  {
    if a == 0 then v % 16 else Hex(v / 16, a - 1)
  }

  lemma {:induction false} BitInHex(v: nat, i: nat)
    ensures Bit(v, i) <==> Bit(Hex(v, i / 4), i % 4)
    decreases i
  {
    if i < 4 {
      LowBits(v, i);
    } else {
      FourUp(v, i);
      BitInHex(v / 16, i - 4);
    }
  }

  lemma LowBits(v: nat, i: nat)
    requires i < 4
    ensures Bit(v, i) <==> Bit(v % 16, i)
  {
    var q, w := v / 16, v % 16;
    BitAbove(8 * q, w, i);
    if 1 <= i {
      BitAbove(4 * q, w / 2, i - 1);
      if 2 <= i {
        BitAbove(2 * q, w / 2 / 2, i - 2);
        if 3 <= i {
          BitAbove(q, w / 2 / 2 / 2, i - 3);
        }
      }
    }
  }

  lemma BitAbove(q: nat, w: nat, i: nat)
    ensures Bit(2 * q + w, i) <==> if i == 0 then w % 2 == 1 else Bit(q + w / 2, i - 1)
    ensures i != 0 ==> (Bit(w, i) <==> Bit(w / 2, i - 1))
  {
    assert (2 * q + w) / 2 == q + w / 2 && (2 * q + w) % 2 == w % 2;
  }

  lemma FourUp(v: nat, i: nat)
    requires 4 <= i
    ensures Bit(v, i) <==> Bit(v / 16, i - 4)
  {
    assert Bit(v, i) <==> Bit(v / 2 / 2, i - 2);
    assert Bit(v / 2 / 2, i - 2) <==> Bit(v / 2 / 2 / 2 / 2, i - 4);
    assert v / 2 / 2 / 2 / 2 == v / 16;
  }

  lemma PolyHex(a: nat)
    requires a < 8
    ensures Hex(POLY, a) == [0, 2, 3, 8, 8, 0xB, 0xD, 0xE][a]
  {
    if 1 <= a {
      assert Hex(POLY, a) == Hex(0xEDB_8832, a - 1);
      if 2 <= a {
        assert Hex(0xEDB_8832, a - 1) == Hex(0xED_B883, a - 2);
        if 3 <= a {
          assert Hex(0xED_B883, a - 2) == Hex(0xE_DB88, a - 3);
          if 4 <= a {
            assert Hex(0xE_DB88, a - 3) == Hex(0xEDB8, a - 4);
            if 5 <= a {
              assert Hex(0xEDB8, a - 4) == Hex(0xEDB, a - 5);
              if 6 <= a {
                assert Hex(0xEDB, a - 5) == Hex(0xED, a - 6);
                assert 7 <= a ==> Hex(0xED, a - 6) == Hex(0xE, a - 7);
              }
            }
          }
        }
      }
    }
  }

  lemma DigitBits()
    ensures forall i: nat :: i < 4 ==> !Bit(0, i)
    ensures !Bit(2, 0) && Bit(2, 1) && !Bit(2, 2) && !Bit(2, 3)
    ensures Bit(3, 0) && Bit(3, 1) && !Bit(3, 2) && !Bit(3, 3)
    ensures !Bit(8, 0) && !Bit(8, 1) && !Bit(8, 2) && Bit(8, 3)
    ensures Bit(0xB, 0) && Bit(0xB, 1) && !Bit(0xB, 2) && Bit(0xB, 3)
    ensures Bit(0xD, 0) && !Bit(0xD, 1) && Bit(0xD, 2) && Bit(0xD, 3)
    ensures !Bit(0xE, 0) && Bit(0xE, 1) && Bit(0xE, 2) && Bit(0xE, 3)
  {
    forall i: nat | i < 4
      ensures !Bit(0, i)
    {
      ZeroBit(i);
    }
    assert !Bit(0, 1) && !Bit(0, 2) && Bit(1, 0) && !Bit(1, 1) && !Bit(1, 2) && Bit(4, 2) && Bit(5, 2) && Bit(6, 2) && Bit(7, 2);
  }

  /** The constant of the code is the generator, but for its highest term. */
  lemma PolyIsGenerator(e: nat)
    requires e < 32
    ensures Bit(POLY, 31 - e) <==> e in GENERATOR
  {
    hide Bit, Hex;
    BitInHex(POLY, 31 - e);
    PolyHex((31 - e) / 4);
    DigitBits();
  }

  /** Taking in a message bit multiplies by x, adds the bit at x^32, and subtracts the generator if x^32 is there. */
  function TakeIn(r: set<nat>, b: bool): set<nat> {
    var up := Plus(Up(r, 1), if b then {32} else {});
    if 32 in up then Plus(up, GENERATOR) else up
  }

  lemma StepTakesIn(c: nat, b: bool)
    requires c < Pow2(32)
    ensures Register(Step(Xor(c, if b then 1 else 0))) == TakeIn(Register(c), b)
  {
    hide Bit, Xor, Pow2, POLY, TakeIn;
    var one: nat := if b then 1 else 0;
    var next := Step(Xor(c, one));
    forall e: nat
      ensures e in Register(next) <==> e in TakeIn(Register(c), b)
    {
      StepTakesInAt(c, b, e);
    }
  }

  lemma StepTakesInAt(c: nat, b: bool, e: nat)
    requires c < Pow2(32)
    ensures e in Register(Step(Xor(c, if b then 1 else 0))) <==> e in TakeIn(Register(c), b)
  {
    hide Bit, Xor, Pow2, POLY, Register, Up, Step;
    FallsOut(c, b);
    InRegister(Step(Xor(c, if b then 1 else 0)), e);
    if e < 32 {
      NextBit(c, b, e);
      PolyIsGenerator(e);
    } else {
      UpHas(Register(c), 1, e);
      InRegister(c, e - 1);
    }
  }

  lemma InRegister(c: nat, e: nat)
    ensures e in Register(c) <==> e < 32 && Bit(c, 31 - e)
  {
  }

  /** The bit that falls out of the register is the coefficient of x^32. */
  lemma FallsOut(c: nat, b: bool)
    ensures Xor(c, if b then 1 else 0) % 2 == 1 <==> (31 in Register(c)) != b
    ensures 32 in Plus(Up(Register(c), 1), if b then {32} else {}) <==> (31 in Register(c)) != b
  {
    XorHalves(c, if b then 1 else 0);
    assert 31 in Register(c) <==> 32 in Up(Register(c), 1);
  }

  lemma NextBit(c: nat, b: bool, e: nat)
    requires c < Pow2(32) && e < 32
    ensures var x := Xor(c, if b then 1 else 0);
      Bit(Step(x), 31 - e) <==> (e in Up(Register(c), 1)) != (x % 2 == 1 && Bit(POLY, 31 - e))
  {
    hide Xor, Pow2, POLY;
    var one: nat := if b then 1 else 0;
    var x := Xor(c, one);
    BitXor(POLY, x / 2, 31 - e);
    BitXor(c, one, 32 - e);
    OneBit(b, 32 - e);
    assert Bit(x, 32 - e) <==> Bit(x / 2, 31 - e);
    if e == 0 {
      NoHighBit(c, 32);
    } else {
      assert e - 1 in Register(c) <==> e in Up(Register(c), 1);
    }
  }

  // ---- division ----

  /** The register shifted up past the message, and the message above it. */
  function Dividend(c: nat, bits: seq<bool>): set<nat> {
    if bits == [] then Register(c)
    else Plus(Up(Dividend(c, bits[..|bits| - 1]), 1), if bits[|bits| - 1] then {32} else {})
  }

  lemma UpPlus(p: set<nat>, q: set<nat>, n: nat)
    ensures Up(Plus(p, q), n) == Plus(Up(p, n), Up(q, n))
  {
    forall e: nat
      ensures e in Up(p, n) <==> n <= e && e - n in p
      ensures e in Up(q, n) <==> n <= e && e - n in q
      ensures e in Up(Plus(p, q), n) <==> n <= e && e - n in Plus(p, q)
    {
      UpHas(p, n, e);
      UpHas(q, n, e);
      UpHas(Plus(p, q), n, e);
    }
  }

  lemma UpHas(p: set<nat>, n: nat, e: nat)
    ensures e in Up(p, n) <==> n <= e && e - n in p
  {
    if n <= e {
      var k: nat := e - n;
      assert k in p ==> k + n in Up(p, n);
    }
  }

  lemma Rearranged(a: set<nat>, b: set<nat>, c: set<nat>, d: set<nat>)
    ensures Plus(Plus(Plus(a, b), c), Plus(d, d)) == Plus(Plus(a, d), Plus(Plus(b, c), d))
    ensures Plus(a, Plus({}, {})) == a
  {
  }

  /** Feeding a message divides: what is in the register is what is left, the bits that fell out are the quotient. */
  lemma {:induction false} FeedDivides(c: nat, bits: seq<bool>) returns (qs: seq<bool>)
    requires c < Pow2(32)
    ensures |qs| == |bits| && Dividend(c, bits) == Plus(Multiple(qs), Register(Feed(c, bits)))
  {
    hide Register, Plus, Up, TakeIn, Step, Xor, Pow2, GENERATOR, POLY;
    if bits == [] {
      qs := [];
      NothingAdded(Register(c));
    } else {
      var init, b := bits[..|bits| - 1], bits[|bits| - 1];
      var before := FeedDivides(c, init);
      var r := Feed(c, init);
      PolyTop();
      FeedBound(c, init);
      FeedConcat(c, init, [b]);
      assert init + [b] == bits;
      FeedOne(r, b);
      StepTakesIn(r, b);
      var more := Divided(c, init, b, before, r);
      qs := before + [more];
      assert qs[..|qs| - 1] == before;
    }
  }

  lemma NothingAdded(r: set<nat>)
    ensures Plus({}, r) == r
  {
  }

  lemma FeedOne(c: nat, b: bool)
    ensures Feed(c, [b]) == Step(Xor(c, if b then 1 else 0))
  {
    assert [b][1..] == [];
  }

  lemma Divided(c: nat, init: seq<bool>, b: bool, before: seq<bool>, r: nat) returns (more: bool)
    requires Dividend(c, init) == Plus(Multiple(before), Register(r))
    ensures Plus(Up(Dividend(c, init), 1), if b then {32} else {})
         == Plus(Plus(Up(Multiple(before), 1), if more then GENERATOR else {}), TakeIn(Register(r), b))
  {
    hide Register, Multiple, Dividend, GENERATOR;
    UpPlus(Multiple(before), Register(r), 1);
    var m, u := Up(Multiple(before), 1), Up(Register(r), 1);
    var added: set<nat> := if b then {32} else {};
    var up := Plus(u, added);
    more := 32 in up;
    var d := if more then GENERATOR else {};
    Rearranged(m, u, added, d);
    NothingAdded(up);
    assert Plus(d, d) == {};
    assert Plus(Plus(Plus(m, u), added), {}) == Plus(Plus(m, u), added);
    assert more ==> Plus(up, d) == TakeIn(Register(r), b);
    assert !more ==> Plus(up, d) == up;
  }

  // ---- the remainder is unique ----

  lemma {:induction false} MultipleIsHigh(qs: seq<bool>)
    ensures Multiple(qs) == {} || exists e :: e in Multiple(qs) && 32 <= e
  {
    hide Up, Plus;
    if qs != [] {
      MultipleIsHigh(qs[..|qs| - 1]);
      HighStays(Multiple(qs[..|qs| - 1]), qs[|qs| - 1]);
    }
  }

  lemma HighStays(m: set<nat>, b: bool)
    requires m == {} || exists e :: e in m && 32 <= e
    ensures var next := Plus(Up(m, 1), if b then GENERATOR else {}); next == {} || exists e :: e in next && 32 <= e
  {
    var next := Plus(Up(m, 1), if b then GENERATOR else {});
    if m != {} {
      var e :| e in m && 32 <= e;
      UpHas(m, 1, e + 1);
      assert e + 1 in next;
    } else {
      assert Up(m, 1) == {};
      if b {
        assert 32 in next;
      }
    }
  }

  /** Coefficients of the sum of two quotients, aligned at their lowest terms. */
  lemma {:induction false} MultiplesAdd(a: seq<bool>, b: seq<bool>) returns (s: seq<bool>)
    ensures Plus(Multiple(a), Multiple(b)) == Multiple(s)
    decreases |a| + |b|
  {
    if a == [] {
      s := b;
      NothingAdded(Multiple(b));
    } else if b == [] {
      s := a;
    } else {
      var x, y := a[|a| - 1], b[|b| - 1];
      var init := MultiplesAdd(a[..|a| - 1], b[..|b| - 1]);
      s := init + [x != y];
      assert s[..|s| - 1] == init;
      UpPlus(Multiple(a[..|a| - 1]), Multiple(b[..|b| - 1]), 1);
      Exchanged(Up(Multiple(a[..|a| - 1]), 1), Up(Multiple(b[..|b| - 1]), 1), x, y);
    }
  }

  lemma Exchanged(p: set<nat>, q: set<nat>, x: bool, y: bool)
    ensures Plus(Plus(p, if x then GENERATOR else {}), Plus(q, if y then GENERATOR else {}))
         == Plus(Plus(p, q), if x != y then GENERATOR else {})
  {
    hide GENERATOR;
  }

  /** Division leaves one remainder only. */
  lemma RemainderUnique(p: set<nat>, r: set<nat>, s: set<nat>)
    requires Leaves(p, r) && Leaves(p, s)
    ensures r == s
  {
    hide GENERATOR, Multiple;
    var a :| p == Plus(Multiple(a), r);
    var b :| p == Plus(Multiple(b), s);
    var c := MultiplesAdd(a, b);
    assert Multiple(c) == Plus(r, s);
    MultipleIsHigh(c);
  }

  // ---- the checksum ----

  /** A message as a polynomial: the first byte holds the highest powers, and in each byte the lowest bit does. */
  function MessagePoly(data: seq<byte>): set<nat> {
    set i: nat, k: nat | i < |data| && k < 8 && Bit(data[i], k) :: 8 * (|data| - 1 - i) + (7 - k)
  }

  lemma BytePoly(b: byte, e: nat)
    requires e < 8
    ensures LsbBits(b, 8)[7 - e] <==> Bit(b, 7 - e)
  {
    LsbBit(b, 8, 7 - e);
  }

  /** A dividend has the register above as many powers as there are bits, plus the bits above 32 powers. */
  lemma {:induction false} DividendIs(c: nat, bits: seq<bool>, e: nat)
    ensures e in Dividend(c, bits) <==>
      (|bits| <= e && e - |bits| in Register(c)) != (32 <= e < 32 + |bits| && bits[|bits| - 1 - (e - 32)])
  {
    hide Register;
    if bits != [] {
      var init := bits[..|bits| - 1];
      UpHas(Dividend(c, init), 1, e);
      if 1 <= e {
        DividendIs(c, init, e - 1);
      }
    }
  }

  /** Where a message's bits stand as powers. */
  lemma {:induction false} MessageBitIs(data: seq<byte>, e: nat)
    requires e < 8 * |data|
    ensures MessageBits(data)[8 * |data| - 1 - e] <==> Bit(data[|data| - 1 - e / 8], 7 - e % 8)
  {
    hide Bit, LsbBits;
    var n, init := |data|, data[..|data| - 1];
    if e < 8 {
      BytePoly(data[n - 1], e);
      assert MessageBits(data)[8 * n - 1 - e] == LsbBits(data[n - 1], 8)[7 - e];
    } else {
      MessageBitIs(init, e - 8);
      assert (e - 8) / 8 == e / 8 - 1 && (e - 8) % 8 == e % 8;
      assert MessageBits(data)[8 * n - 1 - e] == MessageBits(init)[8 * (n - 1) - 1 - (e - 8)];
      assert init[n - 2 - (e - 8) / 8] == data[n - 1 - e / 8];
    }
  }

  lemma MessagePolyHas(data: seq<byte>, e: nat)
    ensures e in MessagePoly(data) <==> e < 8 * |data| && MessageBits(data)[8 * |data| - 1 - e]
  {
    hide Bit, MessageBits;
    if e < 8 * |data| {
      MessageBitIs(data, e);
      var i: nat, k: nat := |data| - 1 - e / 8, 7 - e % 8;
      assert 8 * (|data| - 1 - i) + (7 - k) == e;
      if e in MessagePoly(data) {
        var i': nat, k': nat :| i' < |data| && k' < 8 && Bit(data[i'], k') && e == 8 * (|data| - 1 - i') + (7 - k');
        assert i' == i && k' == k;
      }
    }
  }

  lemma AllOnesIs()
    ensures Pow2(32) == 0x1_0000_0000
  {
    Pow2Of16();
    assert Pow2(20) == 0x10_0000;
    assert Pow2(24) == 0x100_0000;
    assert Pow2(28) == 0x1000_0000;
  }

  lemma OnesRegister()
    ensures Register(ALL_ONES) == Powers(32) && ALL_ONES < Pow2(32)
  {
    hide Bit, Pow2;
    AllOnesIs();
    forall e: nat
      ensures e in Register(ALL_ONES) <==> e in Powers(32)
    {
      if e < 32 {
        AllOnesBit(31 - e);
      }
    }
  }

  lemma AllOnesBit(i: nat)
    requires i < 32
    ensures Bit(ALL_ONES, i)
  {
    hide Bit, Pow2;
    AllOnesIs();
    OnesBit(32, i);
  }

  lemma {:induction false} OnesBit(n: nat, i: nat)
    requires i < n
    ensures Bit(Pow2(n) - 1, i)
    decreases i
  {
    assert (Pow2(n) - 1) / 2 == Pow2(n - 1) - 1 && (Pow2(n) - 1) % 2 == 1;
    if i != 0 {
      OnesBit(n - 1, i - 1);
    }
  }

  /** The CRC-32 of any data, complemented, is what is left of dividing by the generator: 32 ones above as many powers
      as the data has bits, plus the data above 32 powers. */
  lemma CrcIsRemainder(data: seq<byte>)
    ensures Leaves(Plus(Up(Powers(32), 8 * |data|), Up(MessagePoly(data), 32)), Powers(32) - Register(Crc(data)))
  {
    hide Feed, MessageBits, Register, Multiple, Xor, MessagePoly, Pow2, ALL_ONES;
    OnesRegister();
    var bits := MessageBits(data);
    var qs := FeedDivides(ALL_ONES, bits);
    var p := Plus(Up(Powers(32), 8 * |data|), Up(MessagePoly(data), 32));
    forall e: nat
      ensures e in p <==> e in Dividend(ALL_ONES, bits)
    {
      DividendIs(ALL_ONES, bits, e);
      UpHas(Powers(32), 8 * |data|, e);
      UpHas(MessagePoly(data), 32, e);
      if 32 <= e {
        MessagePolyHas(data, e - 32);
      }
    }
    assert p == Dividend(ALL_ONES, bits);
    Complemented(Feed(ALL_ONES, bits));
    assert Powers(32) - Register(Crc(data)) == Register(Feed(ALL_ONES, bits));
    RegisterIsLow(Feed(ALL_ONES, bits));
  }

  lemma RegisterIsLow(c: nat)
    ensures Below32(Register(c))
  {
  }

  lemma Complemented(c: nat)
    ensures Powers(32) - Register(Xor(c, ALL_ONES)) == Register(c)
  {
    hide Bit;
    forall e: nat
      ensures e in Powers(32) - Register(Xor(c, ALL_ONES)) <==> e in Register(c)
    {
      if e < 32 {
        BitXor(c, ALL_ONES, 31 - e);
        AllOnesBit(31 - e);
      }
    }
  }
}
