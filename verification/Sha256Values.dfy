/** What the values of SHA-256 are: its constants as roots of primes, its functions bit by bit, and the digest FIPS 180
    publishes for its one-block message. */
module Sha256Values {
  import opened Sha256
  import opened Words

  // ---- the constants (FIPS 180-4 sections 4.2.2 and 5.3.3) ----

  const PRIMES0: seq<nat> := [2, 3, 5, 7, 11, 13, 17, 19, 23, 29, 31, 37, 41, 43, 47, 53]
  const PRIMES1: seq<nat> := [59, 61, 67, 71, 73, 79, 83, 89, 97, 101, 103, 107, 109, 113, 127, 131]
  const PRIMES2: seq<nat> := [137, 139, 149, 151, 157, 163, 167, 173, 179, 181, 191, 193, 197, 199, 211, 223]
  const PRIMES3: seq<nat> := [227, 229, 233, 239, 241, 251, 257, 263, 269, 271, 277, 281, 283, 293, 307, 311]

  /** The first sixty-four primes. */
  function Prime(t: nat): nat
    requires t < 64
  {
    if t < 16 then PRIMES0[t] else if t < 32 then PRIMES1[t - 16] else if t < 48 then PRIMES2[t - 32] else PRIMES3[t - 48]
  }

  const TWO32: nat := 0x1_0000_0000

  /** The whole part of the cube root of a number below 343. */
  function WholeRoot(p: nat): nat {
    if p < 8 then 1 else if p < 27 then 2 else if p < 64 then 3 else if p < 125 then 4 else if p < 216 then 5 else 6
  }

  /** A word holds the first thirty-two bits of the fraction of a cube root. */
  predicate CubeRootOf(p: nat, k: bv32) {
    var x := WholeRoot(p) * TWO32 + k as int;
    x * x * x <= p * TWO32 * TWO32 * TWO32 < (x + 1) * (x + 1) * (x + 1)
  }

  /** The same for the square root of a number between `w` squared and the next square. */
  predicate SquareRootOf(p: nat, w: nat, k: bv32) {
    var x := w * TWO32 + k as int;
    x * x <= p * TWO32 * TWO32 < (x + 1) * (x + 1)
  }

  lemma Constants0(t: nat)
    requires 0 <= t < 4
    ensures CubeRootOf(Prime(t), K(t))
  {
    assert t == 0 || t == 1 || t == 2 || t == 3;
  }

  lemma Constants1(t: nat)
    requires 4 <= t < 8
    ensures CubeRootOf(Prime(t), K(t))
  {
    assert t == 4 || t == 5 || t == 6 || t == 7;
  }

  lemma Constants2(t: nat)
    requires 8 <= t < 12
    ensures CubeRootOf(Prime(t), K(t))
  {
    assert t == 8 || t == 9 || t == 10 || t == 11;
  }

  lemma Constants3(t: nat)
    requires 12 <= t < 16
    ensures CubeRootOf(Prime(t), K(t))
  {
    assert t == 12 || t == 13 || t == 14 || t == 15;
  }

  lemma Constants4(t: nat)
    requires 16 <= t < 20
    ensures CubeRootOf(Prime(t), K(t))
  {
    assert t == 16 || t == 17 || t == 18 || t == 19;
  }

  lemma Constants5(t: nat)
    requires 20 <= t < 24
    ensures CubeRootOf(Prime(t), K(t))
  {
    assert t == 20 || t == 21 || t == 22 || t == 23;
  }

  lemma Constants6(t: nat)
    requires 24 <= t < 28
    ensures CubeRootOf(Prime(t), K(t))
  {
    assert t == 24 || t == 25 || t == 26 || t == 27;
  }

  lemma Constants7(t: nat)
    requires 28 <= t < 32
    ensures CubeRootOf(Prime(t), K(t))
  {
    assert t == 28 || t == 29 || t == 30 || t == 31;
  }

  lemma Constants8(t: nat)
    requires 32 <= t < 36
    ensures CubeRootOf(Prime(t), K(t))
  {
    assert t == 32 || t == 33 || t == 34 || t == 35;
  }

  lemma Constants9(t: nat)
    requires 36 <= t < 40
    ensures CubeRootOf(Prime(t), K(t))
  {
    assert t == 36 || t == 37 || t == 38 || t == 39;
  }

  lemma Constants10(t: nat)
    requires 40 <= t < 44
    ensures CubeRootOf(Prime(t), K(t))
  {
    assert t == 40 || t == 41 || t == 42 || t == 43;
  }

  lemma Constants11(t: nat)
    requires 44 <= t < 48
    ensures CubeRootOf(Prime(t), K(t))
  {
    assert t == 44 || t == 45 || t == 46 || t == 47;
  }

  lemma Constants12(t: nat)
    requires 48 <= t < 52
    ensures CubeRootOf(Prime(t), K(t))
  {
    assert t == 48 || t == 49 || t == 50 || t == 51;
  }

  lemma Constants13(t: nat)
    requires 52 <= t < 56
    ensures CubeRootOf(Prime(t), K(t))
  {
    assert t == 52 || t == 53 || t == 54 || t == 55;
  }

  lemma Constants14(t: nat)
    requires 56 <= t < 60
    ensures CubeRootOf(Prime(t), K(t))
  {
    assert t == 56 || t == 57 || t == 58 || t == 59;
  }

  lemma Constants15(t: nat)
    requires 60 <= t < 64
    ensures CubeRootOf(Prime(t), K(t))
  {
    assert t == 60 || t == 61 || t == 62 || t == 63;
  }

  /** The round constants are the fractions of the cube roots of the first sixty-four primes. */
  lemma RoundConstant(t: nat)
    requires t < 64
    ensures CubeRootOf(Prime(t), K(t))
  {
    hide CubeRootOf, K, Prime;
    match t / 4
    case 0 => Constants0(t);
    case 1 => Constants1(t);
    case 2 => Constants2(t);
    case 3 => Constants3(t);
    case 4 => Constants4(t);
    case 5 => Constants5(t);
    case 6 => Constants6(t);
    case 7 => Constants7(t);
    case 8 => Constants8(t);
    case 9 => Constants9(t);
    case 10 => Constants10(t);
    case 11 => Constants11(t);
    case 12 => Constants12(t);
    case 13 => Constants13(t);
    case 14 => Constants14(t);
    case _ => Constants15(t);
  }

  /** The initial hash value is made of the fractions of the square roots of the first eight. */
  lemma InitialValue()
    ensures SquareRootOf(2, 1, INITIAL.a) && SquareRootOf(3, 1, INITIAL.b) && SquareRootOf(5, 2, INITIAL.c)
    ensures SquareRootOf(7, 2, INITIAL.d) && SquareRootOf(11, 3, INITIAL.e) && SquareRootOf(13, 3, INITIAL.f)
    ensures SquareRootOf(17, 4, INITIAL.g) && SquareRootOf(19, 4, INITIAL.h)
  {
  }

  // ---- the functions (section 4.1.2) ----

  /** Ch takes the bits of `y` where `x` has ones and those of `z` where it has zeros. */
  lemma Chooses(x: bv32, y: bv32, z: bv32)
    ensures x & Ch(x, y, z) == x & y && !x & Ch(x, y, z) == !x & z
  {
  }

  /** Maj takes the bit two of its words agree on. */
  lemma Majority(x: bv32, y: bv32, z: bv32)
    ensures !(x ^ y) & Maj(x, y, z) == !(x ^ y) & x && (x ^ y) & Maj(x, y, z) == (x ^ y) & z
  {
  }

  /** A rotated word: the upper bits moved down, and the `n` lowest above them. */
  lemma Rotates(x: bv32, n: bv32)
    requires 0 < n < 32
    ensures var low: bv32 := (1 << n) - 1;
      Rotr(x, n) >> (32 - n) == x & low && Rotr(x, n) & !(low << (32 - n)) == x >> n
  {
  }

  // ---- the example of one block (section B.1 of FIPS 180-2) ----

  /** The block of the padded message "abc". */
  ghost predicate IsAbc(p: Block) {
    p[..4] == [0x61, 0x62, 0x63, 0x80] && (forall i :: 4 <= i < 63 ==> p[i] == 0) && p[63] == 24
  }

  lemma AbcPadded()
    ensures |Padded([0x61, 0x62, 0x63])| == 64 && IsAbc(Padded([0x61, 0x62, 0x63]))
  {
    hide Octets;
    AbcLength();
    var p := Padded([0x61, 0x62, 0x63]);
    assert p == [0x61, 0x62, 0x63, 0x80] + Zeros(52) + [0, 0, 0, 0, 0, 0, 0, 24];
  }

  lemma AbcLength()
    ensures Octets(24, 8) == [0, 0, 0, 0, 0, 0, 0, 24]
  {
    assert Octets(0, 5) == [0, 0, 0, 0, 0];
    assert Octets(0, 6) == [0, 0, 0, 0, 0, 0];
    assert Octets(0, 7) == [0, 0, 0, 0, 0, 0, 0];
  }

  lemma AbcBytes(p: Block)
    requires IsAbc(p)
    ensures p[0] == 0x61 && p[1] == 0x62 && p[2] == 0x63 && p[3] == 0x80
    ensures forall i :: 4 <= i < 63 ==> p[i] == 0
  {
    assert p[..4][0] == p[0] && p[..4][1] == p[1] && p[..4][2] == p[2] && p[..4][3] == p[3];
  }

  lemma AbcWord()
    ensures BigEndian(0x61, 0x62, 0x63, 0x80) == 0x61626380 && BigEndian(0, 0, 0, 0) == 0
  {
  }

  // Its message schedule, eight words at a time.

  lemma Words0(p: Block)
    requires IsAbc(p)
    ensures W(p, 0) == 0x61626380 && W(p, 1) == 0x00000000 && W(p, 2) == 0x00000000 && W(p, 3) == 0x00000000
    ensures W(p, 4) == 0x00000000 && W(p, 5) == 0x00000000 && W(p, 6) == 0x00000000 && W(p, 7) == 0x00000000
  {
    hide W, IsAbc, BigEndian;
    AbcBytes(p);
    AbcWord();
    FirstWords(p, 0);
    FirstWords(p, 1);
    FirstWords(p, 2);
    FirstWords(p, 3);
    FirstWords(p, 4);
    FirstWords(p, 5);
    FirstWords(p, 6);
    FirstWords(p, 7);
  }

  lemma Words1(p: Block)
    requires IsAbc(p)
    ensures W(p, 8) == 0x00000000 && W(p, 9) == 0x00000000 && W(p, 10) == 0x00000000 && W(p, 11) == 0x00000000
    ensures W(p, 12) == 0x00000000 && W(p, 13) == 0x00000000 && W(p, 14) == 0x00000000 && W(p, 15) == 0x00000018
  {
    hide W;
    FirstWords(p, 8);
    FirstWords(p, 9);
    FirstWords(p, 10);
    FirstWords(p, 11);
    FirstWords(p, 12);
    FirstWords(p, 13);
    FirstWords(p, 14);
    FirstWords(p, 15);
  }

  lemma Words2(p: Block)
    requires IsAbc(p)
    ensures W(p, 16) == 0x61626380 && W(p, 17) == 0x000f0000 && W(p, 18) == 0x7da86405 && W(p, 19) == 0x600003c6
    ensures W(p, 20) == 0x3e9d7b78 && W(p, 21) == 0x0183fc00 && W(p, 22) == 0x12dcbfdb && W(p, 23) == 0xe2e2c38e
  {
    hide W;
    Words0(p);
    Words1(p);
    LaterWords(p, 16);
    LaterWords(p, 17);
    LaterWords(p, 18);
    LaterWords(p, 19);
    LaterWords(p, 20);
    LaterWords(p, 21);
    LaterWords(p, 22);
    LaterWords(p, 23);
  }

  lemma Words3(p: Block)
    requires IsAbc(p)
    ensures W(p, 24) == 0xc8215c1a && W(p, 25) == 0xb73679a2 && W(p, 26) == 0xe5bc3909 && W(p, 27) == 0x32663c5b
    ensures W(p, 28) == 0x9d209d67 && W(p, 29) == 0xec8726cb && W(p, 30) == 0x702138a4 && W(p, 31) == 0xd3b7973b
  {
    hide W;
    Words1(p);
    Words2(p);
    LaterWords(p, 24);
    LaterWords(p, 25);
    LaterWords(p, 26);
    LaterWords(p, 27);
    LaterWords(p, 28);
    LaterWords(p, 29);
    LaterWords(p, 30);
    LaterWords(p, 31);
  }

  lemma Words4(p: Block)
    requires IsAbc(p)
    ensures W(p, 32) == 0x93f5997f && W(p, 33) == 0x3b68ba73 && W(p, 34) == 0xaff4ffc1 && W(p, 35) == 0xf10a5c62
    ensures W(p, 36) == 0x0a8b3996 && W(p, 37) == 0x72af830a && W(p, 38) == 0x9409e33e && W(p, 39) == 0x24641522
  {
    hide W;
    Words2(p);
    Words3(p);
    LaterWords(p, 32);
    LaterWords(p, 33);
    LaterWords(p, 34);
    LaterWords(p, 35);
    LaterWords(p, 36);
    LaterWords(p, 37);
    LaterWords(p, 38);
    LaterWords(p, 39);
  }

  lemma Words5(p: Block)
    requires IsAbc(p)
    ensures W(p, 40) == 0x9f47bf94 && W(p, 41) == 0xf0a64f5a && W(p, 42) == 0x3e246a79 && W(p, 43) == 0x27333ba3
    ensures W(p, 44) == 0x0c4763f2 && W(p, 45) == 0x840abf27 && W(p, 46) == 0x7a290d5d && W(p, 47) == 0x065c43da
  {
    hide W;
    Words3(p);
    Words4(p);
    LaterWords(p, 40);
    LaterWords(p, 41);
    LaterWords(p, 42);
    LaterWords(p, 43);
    LaterWords(p, 44);
    LaterWords(p, 45);
    LaterWords(p, 46);
    LaterWords(p, 47);
  }

  lemma Words6(p: Block)
    requires IsAbc(p)
    ensures W(p, 48) == 0xfb3e89cb && W(p, 49) == 0xcc7617db && W(p, 50) == 0xb9e66c34 && W(p, 51) == 0xa9993667
    ensures W(p, 52) == 0x84badedd && W(p, 53) == 0xc21462bc && W(p, 54) == 0x1487472c && W(p, 55) == 0xb20f7a99
  {
    hide W;
    Words4(p);
    Words5(p);
    LaterWords(p, 48);
    LaterWords(p, 49);
    LaterWords(p, 50);
    LaterWords(p, 51);
    LaterWords(p, 52);
    LaterWords(p, 53);
    LaterWords(p, 54);
    LaterWords(p, 55);
  }

  lemma Words7(p: Block)
    requires IsAbc(p)
    ensures W(p, 56) == 0xef57b9cd && W(p, 57) == 0xebe6b238 && W(p, 58) == 0x9fe3095e && W(p, 59) == 0x78bc8d4b
    ensures W(p, 60) == 0xa43fcf15 && W(p, 61) == 0x668b2ff8 && W(p, 62) == 0xeeaba2cc && W(p, 63) == 0x12b1edeb
  {
    hide W;
    Words5(p);
    Words6(p);
    LaterWords(p, 56);
    LaterWords(p, 57);
    LaterWords(p, 58);
    LaterWords(p, 59);
    LaterWords(p, 60);
    LaterWords(p, 61);
    LaterWords(p, 62);
    LaterWords(p, 63);
  }

  // Its working variables, four rounds at a time.

  lemma Rounds0(p: Block)
    requires IsAbc(p)
    ensures Rounds(INITIAL, p, 4) == Vars(0xd550f666, 0xc8c347a7, 0x5a6ad9ad, 0x5d6aebcd, 0x24e00850, 0xf92939eb, 0x78ce7989, 0xfa2a4622)
  {
    hide W, IsAbc;
    Words0(p);
    assert Rounds(INITIAL, p, 1) == Vars(0x5d6aebcd, 0x6a09e667, 0xbb67ae85, 0x3c6ef372, 0xfa2a4622, 0x510e527f, 0x9b05688c, 0x1f83d9ab);
    assert Rounds(INITIAL, p, 2) == Vars(0x5a6ad9ad, 0x5d6aebcd, 0x6a09e667, 0xbb67ae85, 0x78ce7989, 0xfa2a4622, 0x510e527f, 0x9b05688c);
    assert Rounds(INITIAL, p, 3) == Vars(0xc8c347a7, 0x5a6ad9ad, 0x5d6aebcd, 0x6a09e667, 0xf92939eb, 0x78ce7989, 0xfa2a4622, 0x510e527f);
  }

  lemma Rounds1(p: Block)
    requires IsAbc(p)
    ensures Rounds(INITIAL, p, 8) == Vars(0x85a07b5f, 0xe5030380, 0x2b4209f5, 0x04409a6a, 0x0c657a79, 0x9b27a401, 0x714260ad, 0x43ada245)
  {
    hide W, IsAbc;
    Rounds0(p);
    Words0(p);
    assert Rounds(INITIAL, p, 5) == Vars(0x04409a6a, 0xd550f666, 0xc8c347a7, 0x5a6ad9ad, 0x43ada245, 0x24e00850, 0xf92939eb, 0x78ce7989);
    assert Rounds(INITIAL, p, 6) == Vars(0x2b4209f5, 0x04409a6a, 0xd550f666, 0xc8c347a7, 0x714260ad, 0x43ada245, 0x24e00850, 0xf92939eb);
    assert Rounds(INITIAL, p, 7) == Vars(0xe5030380, 0x2b4209f5, 0x04409a6a, 0xd550f666, 0x9b27a401, 0x714260ad, 0x43ada245, 0x24e00850);
  }

  lemma Rounds2(p: Block)
    requires IsAbc(p)
    ensures Rounds(INITIAL, p, 12) == Vars(0xf71fc5a9, 0x4798a3f4, 0x8c87346b, 0x8e04ecb9, 0x816fd6e9, 0x436b23e8, 0x1cc92596, 0x32ca2d8c)
  {
    hide W, IsAbc;
    Rounds1(p);
    Words1(p);
    assert Rounds(INITIAL, p, 9) == Vars(0x8e04ecb9, 0x85a07b5f, 0xe5030380, 0x2b4209f5, 0x32ca2d8c, 0x0c657a79, 0x9b27a401, 0x714260ad);
    assert Rounds(INITIAL, p, 10) == Vars(0x8c87346b, 0x8e04ecb9, 0x85a07b5f, 0xe5030380, 0x1cc92596, 0x32ca2d8c, 0x0c657a79, 0x9b27a401);
    assert Rounds(INITIAL, p, 11) == Vars(0x4798a3f4, 0x8c87346b, 0x8e04ecb9, 0x85a07b5f, 0x436b23e8, 0x1cc92596, 0x32ca2d8c, 0x0c657a79);
  }

  lemma Rounds3(p: Block)
    requires IsAbc(p)
    ensures Rounds(INITIAL, p, 16) == Vars(0xb0fa238e, 0xc0645fde, 0xd932eb16, 0x87912990, 0x07590dcd, 0x0b92f20c, 0x745a48de, 0x1e578218)
  {
    hide W, IsAbc;
    Rounds2(p);
    Words1(p);
    assert Rounds(INITIAL, p, 13) == Vars(0x87912990, 0xf71fc5a9, 0x4798a3f4, 0x8c87346b, 0x1e578218, 0x816fd6e9, 0x436b23e8, 0x1cc92596);
    assert Rounds(INITIAL, p, 14) == Vars(0xd932eb16, 0x87912990, 0xf71fc5a9, 0x4798a3f4, 0x745a48de, 0x1e578218, 0x816fd6e9, 0x436b23e8);
    assert Rounds(INITIAL, p, 15) == Vars(0xc0645fde, 0xd932eb16, 0x87912990, 0xf71fc5a9, 0x0b92f20c, 0x745a48de, 0x1e578218, 0x816fd6e9);
  }

  lemma Rounds4(p: Block)
    requires IsAbc(p)
    ensures Rounds(INITIAL, p, 20) == Vars(0xe1f20c33, 0xfe777bbf, 0xc2fbd9d1, 0x21da9a9b, 0xb0638179, 0xcc899961, 0x846ee454, 0x8034229c)
  {
    hide W, IsAbc;
    Rounds3(p);
    Words2(p);
    assert Rounds(INITIAL, p, 17) == Vars(0x21da9a9b, 0xb0fa238e, 0xc0645fde, 0xd932eb16, 0x8034229c, 0x07590dcd, 0x0b92f20c, 0x745a48de);
    assert Rounds(INITIAL, p, 18) == Vars(0xc2fbd9d1, 0x21da9a9b, 0xb0fa238e, 0xc0645fde, 0x846ee454, 0x8034229c, 0x07590dcd, 0x0b92f20c);
    assert Rounds(INITIAL, p, 19) == Vars(0xfe777bbf, 0xc2fbd9d1, 0x21da9a9b, 0xb0fa238e, 0xcc899961, 0x846ee454, 0x8034229c, 0x07590dcd);
  }

  lemma Rounds5(p: Block)
    requires IsAbc(p)
    ensures Rounds(INITIAL, p, 24) == Vars(0xc5d53d8d, 0xa7a3623f, 0xc2606d6d, 0x9dc68b63, 0xaa47c347, 0x49f5114a, 0xe1257970, 0x8ada8930)
  {
    hide W, IsAbc;
    Rounds4(p);
    Words2(p);
    assert Rounds(INITIAL, p, 21) == Vars(0x9dc68b63, 0xe1f20c33, 0xfe777bbf, 0xc2fbd9d1, 0x8ada8930, 0xb0638179, 0xcc899961, 0x846ee454);
    assert Rounds(INITIAL, p, 22) == Vars(0xc2606d6d, 0x9dc68b63, 0xe1f20c33, 0xfe777bbf, 0xe1257970, 0x8ada8930, 0xb0638179, 0xcc899961);
    assert Rounds(INITIAL, p, 23) == Vars(0xa7a3623f, 0xc2606d6d, 0x9dc68b63, 0xe1f20c33, 0x49f5114a, 0xe1257970, 0x8ada8930, 0xb0638179);
  }

  lemma Rounds6(p: Block)
    requires IsAbc(p)
    ensures Rounds(INITIAL, p, 28) == Vars(0x77d37528, 0xb62ec4bc, 0xcde8037d, 0x1c2c2838, 0xedffbff8, 0xc74c6516, 0x14383d8e, 0x2823ef91)
  {
    hide W, IsAbc;
    Rounds5(p);
    Words3(p);
    assert Rounds(INITIAL, p, 25) == Vars(0x1c2c2838, 0xc5d53d8d, 0xa7a3623f, 0xc2606d6d, 0x2823ef91, 0xaa47c347, 0x49f5114a, 0xe1257970);
    assert Rounds(INITIAL, p, 26) == Vars(0xcde8037d, 0x1c2c2838, 0xc5d53d8d, 0xa7a3623f, 0x14383d8e, 0x2823ef91, 0xaa47c347, 0x49f5114a);
    assert Rounds(INITIAL, p, 27) == Vars(0xb62ec4bc, 0xcde8037d, 0x1c2c2838, 0xc5d53d8d, 0xc74c6516, 0x14383d8e, 0x2823ef91, 0xaa47c347);
  }

  lemma Rounds7(p: Block)
    requires IsAbc(p)
    ensures Rounds(INITIAL, p, 32) == Vars(0x73b33bf5, 0xea992a22, 0xa0060b30, 0x363482c9, 0xba591112, 0x0109ab3a, 0xade79437, 0x6112a3b7)
  {
    hide W, IsAbc;
    Rounds6(p);
    Words3(p);
    assert Rounds(INITIAL, p, 29) == Vars(0x363482c9, 0x77d37528, 0xb62ec4bc, 0xcde8037d, 0x6112a3b7, 0xedffbff8, 0xc74c6516, 0x14383d8e);
    assert Rounds(INITIAL, p, 30) == Vars(0xa0060b30, 0x363482c9, 0x77d37528, 0xb62ec4bc, 0xade79437, 0x6112a3b7, 0xedffbff8, 0xc74c6516);
    assert Rounds(INITIAL, p, 31) == Vars(0xea992a22, 0xa0060b30, 0x363482c9, 0x77d37528, 0x0109ab3a, 0xade79437, 0x6112a3b7, 0xedffbff8);
  }

  lemma Rounds8(p: Block)
    requires IsAbc(p)
    ensures Rounds(INITIAL, p, 36) == Vars(0x65a0cfe4, 0xa9a7738c, 0xfe604df5, 0x98e12507, 0xf4b002d6, 0x085f3833, 0x59249dd3, 0x9cd9f5f6)
  {
    hide W, IsAbc;
    Rounds7(p);
    Words4(p);
    assert Rounds(INITIAL, p, 33) == Vars(0x98e12507, 0x73b33bf5, 0xea992a22, 0xa0060b30, 0x9cd9f5f6, 0xba591112, 0x0109ab3a, 0xade79437);
    assert Rounds(INITIAL, p, 34) == Vars(0xfe604df5, 0x98e12507, 0x73b33bf5, 0xea992a22, 0x59249dd3, 0x9cd9f5f6, 0xba591112, 0x0109ab3a);
    assert Rounds(INITIAL, p, 35) == Vars(0xa9a7738c, 0xfe604df5, 0x98e12507, 0x73b33bf5, 0x085f3833, 0x59249dd3, 0x9cd9f5f6, 0xba591112);
  }

  lemma Rounds9(p: Block)
    requires IsAbc(p)
    ensures Rounds(INITIAL, p, 40) == Vars(0x79ea687a, 0x6dc57a8a, 0x34df1604, 0x41a65cb1, 0x1efbc0a0, 0xf0781bc8, 0xa507a53d, 0x0772a26b)
  {
    hide W, IsAbc;
    Rounds8(p);
    Words4(p);
    assert Rounds(INITIAL, p, 37) == Vars(0x41a65cb1, 0x65a0cfe4, 0xa9a7738c, 0xfe604df5, 0x0772a26b, 0xf4b002d6, 0x085f3833, 0x59249dd3);
    assert Rounds(INITIAL, p, 38) == Vars(0x34df1604, 0x41a65cb1, 0x65a0cfe4, 0xa9a7738c, 0xa507a53d, 0x0772a26b, 0xf4b002d6, 0x085f3833);
    assert Rounds(INITIAL, p, 39) == Vars(0x6dc57a8a, 0x34df1604, 0x41a65cb1, 0x65a0cfe4, 0xf0781bc8, 0xa507a53d, 0x0772a26b, 0xf4b002d6);
  }

  lemma Rounds10(p: Block)
    requires IsAbc(p)
    ensures Rounds(INITIAL, p, 44) == Vars(0x9d4baf93, 0x17aa0dfe, 0xdf46652f, 0xd6670766, 0xfda24c2e, 0xdecd4715, 0x838b2711, 0x26352d63)
  {
    hide W, IsAbc;
    Rounds9(p);
    Words5(p);
    assert Rounds(INITIAL, p, 41) == Vars(0xd6670766, 0x79ea687a, 0x6dc57a8a, 0x34df1604, 0x26352d63, 0x1efbc0a0, 0xf0781bc8, 0xa507a53d);
    assert Rounds(INITIAL, p, 42) == Vars(0xdf46652f, 0xd6670766, 0x79ea687a, 0x6dc57a8a, 0x838b2711, 0x26352d63, 0x1efbc0a0, 0xf0781bc8);
    assert Rounds(INITIAL, p, 43) == Vars(0x17aa0dfe, 0xdf46652f, 0xd6670766, 0x79ea687a, 0xdecd4715, 0x838b2711, 0x26352d63, 0x1efbc0a0);
  }

  lemma Rounds11(p: Block)
    requires IsAbc(p)
    ensures Rounds(INITIAL, p, 48) == Vars(0x4172328d, 0xa14c14b0, 0x72ab4b91, 0x26628815, 0xfecf0bc6, 0xd57b94a9, 0xb7755da1, 0xa80f11f0)
  {
    hide W, IsAbc;
    Rounds10(p);
    Words5(p);
    assert Rounds(INITIAL, p, 45) == Vars(0x26628815, 0x9d4baf93, 0x17aa0dfe, 0xdf46652f, 0xa80f11f0, 0xfda24c2e, 0xdecd4715, 0x838b2711);
    assert Rounds(INITIAL, p, 46) == Vars(0x72ab4b91, 0x26628815, 0x9d4baf93, 0x17aa0dfe, 0xb7755da1, 0xa80f11f0, 0xfda24c2e, 0xdecd4715);
    assert Rounds(INITIAL, p, 47) == Vars(0xa14c14b0, 0x72ab4b91, 0x26628815, 0x9d4baf93, 0xd57b94a9, 0xb7755da1, 0xa80f11f0, 0xfda24c2e);
  }

  lemma Rounds12(p: Block)
    requires IsAbc(p)
    ensures Rounds(INITIAL, p, 52) == Vars(0x886e7a22, 0x7a0508a1, 0xf11bfaa8, 0x05757ceb, 0x49231c1e, 0x52f1ccf7, 0x6e5c390c, 0xbd714038)
  {
    hide W, IsAbc;
    Rounds11(p);
    Words6(p);
    assert Rounds(INITIAL, p, 49) == Vars(0x05757ceb, 0x4172328d, 0xa14c14b0, 0x72ab4b91, 0xbd714038, 0xfecf0bc6, 0xd57b94a9, 0xb7755da1);
    assert Rounds(INITIAL, p, 50) == Vars(0xf11bfaa8, 0x05757ceb, 0x4172328d, 0xa14c14b0, 0x6e5c390c, 0xbd714038, 0xfecf0bc6, 0xd57b94a9);
    assert Rounds(INITIAL, p, 51) == Vars(0x7a0508a1, 0xf11bfaa8, 0x05757ceb, 0x4172328d, 0x52f1ccf7, 0x6e5c390c, 0xbd714038, 0xfecf0bc6);
  }

  lemma Rounds13(p: Block)
    requires IsAbc(p)
    ensures Rounds(INITIAL, p, 56) == Vars(0x38cc9913, 0x3ec45cdb, 0xf5702fdb, 0x101fd28f, 0x54cb266b, 0xe50e1b4f, 0x9f4787c3, 0x529e7d00)
  {
    hide W, IsAbc;
    Rounds12(p);
    Words6(p);
    assert Rounds(INITIAL, p, 53) == Vars(0x101fd28f, 0x886e7a22, 0x7a0508a1, 0xf11bfaa8, 0x529e7d00, 0x49231c1e, 0x52f1ccf7, 0x6e5c390c);
    assert Rounds(INITIAL, p, 54) == Vars(0xf5702fdb, 0x101fd28f, 0x886e7a22, 0x7a0508a1, 0x9f4787c3, 0x529e7d00, 0x49231c1e, 0x52f1ccf7);
    assert Rounds(INITIAL, p, 55) == Vars(0x3ec45cdb, 0xf5702fdb, 0x101fd28f, 0x886e7a22, 0xe50e1b4f, 0x9f4787c3, 0x529e7d00, 0x49231c1e);
  }

  lemma Rounds14(p: Block)
    requires IsAbc(p)
    ensures Rounds(INITIAL, p, 60) == Vars(0xb6ae8fff, 0xffb70472, 0xc062d46f, 0xfcd1887b, 0xb21bad3d, 0x6d83bfc6, 0x7e44008e, 0x9b5e906c)
  {
    hide W, IsAbc;
    Rounds13(p);
    Words7(p);
    assert Rounds(INITIAL, p, 57) == Vars(0xfcd1887b, 0x38cc9913, 0x3ec45cdb, 0xf5702fdb, 0x9b5e906c, 0x54cb266b, 0xe50e1b4f, 0x9f4787c3);
    assert Rounds(INITIAL, p, 58) == Vars(0xc062d46f, 0xfcd1887b, 0x38cc9913, 0x3ec45cdb, 0x7e44008e, 0x9b5e906c, 0x54cb266b, 0xe50e1b4f);
    assert Rounds(INITIAL, p, 59) == Vars(0xffb70472, 0xc062d46f, 0xfcd1887b, 0x38cc9913, 0x6d83bfc6, 0x7e44008e, 0x9b5e906c, 0x54cb266b);
  }

  lemma Rounds15(p: Block)
    requires IsAbc(p)
    ensures Rounds(INITIAL, p, 64) == Vars(0x506e3058, 0xd39a2165, 0x04d24d6c, 0xb85e2ce9, 0x5ef50f24, 0xfb121210, 0x948d25b6, 0x961f4894)
  {
    hide W, IsAbc;
    Rounds14(p);
    Words7(p);
    assert Rounds(INITIAL, p, 61) == Vars(0xb85e2ce9, 0xb6ae8fff, 0xffb70472, 0xc062d46f, 0x961f4894, 0xb21bad3d, 0x6d83bfc6, 0x7e44008e);
    assert Rounds(INITIAL, p, 62) == Vars(0x04d24d6c, 0xb85e2ce9, 0xb6ae8fff, 0xffb70472, 0x948d25b6, 0x961f4894, 0xb21bad3d, 0x6d83bfc6);
    assert Rounds(INITIAL, p, 63) == Vars(0xd39a2165, 0x04d24d6c, 0xb85e2ce9, 0xb6ae8fff, 0xfb121210, 0x948d25b6, 0x961f4894, 0xb21bad3d);
  }

  lemma DigitsOf(x: bv32, s: string)
    requires |s| == 8 && forall i :: 0 <= i < 8 ==> s[i] == HexDigit(Nibble(x, i))
    ensures HexWord(x) == s
  {
  }

  lemma HighDigits()
    ensures HexWord(0xba7816bf) == "ba7816bf"
    ensures HexWord(0x8f01cfea) == "8f01cfea"
    ensures HexWord(0x414140de) == "414140de"
    ensures HexWord(0x5dae2223) == "5dae2223"
  {
    DigitsOf(0xba7816bf, "ba7816bf");
    DigitsOf(0x8f01cfea, "8f01cfea");
    DigitsOf(0x414140de, "414140de");
    DigitsOf(0x5dae2223, "5dae2223");
  }

  lemma LowDigits()
    ensures HexWord(0xb00361a3) == "b00361a3"
    ensures HexWord(0x96177a9c) == "96177a9c"
    ensures HexWord(0xb410ff61) == "b410ff61"
    ensures HexWord(0xf20015ad) == "f20015ad"
  {
    DigitsOf(0xb00361a3, "b00361a3");
    DigitsOf(0x96177a9c, "96177a9c");
    DigitsOf(0xb410ff61, "b410ff61");
    DigitsOf(0xf20015ad, "f20015ad");
  }

  /** The published digest of the message "abc". */
  lemma AbcDigest()
    ensures Hex(Digest([0x61, 0x62, 0x63]))  // "abc"
         == "ba7816bf" + "8f01cfea" + "414140de" + "5dae2223" + "b00361a3" + "96177a9c" + "b410ff61" + "f20015ad"
  {
    hide Rounds, Padded, HexWord;
    HighDigits();
    LowDigits();
    AbcPadded();
    var p: Block := Padded([0x61, 0x62, 0x63]);
    Rounds15(p);
    assert p == [] + p;
    FoldBlock(INITIAL, [], p);
    assert Digest([0x61, 0x62, 0x63]) == Vars(0xba7816bf, 0x8f01cfea, 0x414140de, 0x5dae2223, 0xb00361a3, 0x96177a9c, 0xb410ff61, 0xf20015ad);
  }
}
