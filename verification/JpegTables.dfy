/** The four Huffman tables of Annex K.3 of ITU-T T.81, and the proof that each has a code for every
    symbol a block can need. */
module JpegTables {
  import opened Words
  import opened JpegHuffman
  import opened JpegBlock

  const BITS_DC_LUM: seq<nat> := [0, 0, 1, 5, 1, 1, 1, 1, 1, 1, 0, 0, 0, 0, 0, 0, 0]
  const BITS_DC_CHR: seq<nat> := [0, 0, 3, 1, 1, 1, 1, 1, 1, 1, 1, 1, 0, 0, 0, 0, 0]
  const BITS_AC_LUM: seq<nat> := [0, 0, 2, 1, 3, 3, 2, 4, 3, 5, 5, 4, 4, 0, 0, 1, 125]
  const BITS_AC_CHR: seq<nat> := [0, 0, 2, 1, 2, 4, 4, 3, 4, 7, 5, 4, 4, 0, 1, 2, 119]
  const VALS_DC: seq<byte> := [0, 1, 2, 3, 4, 5, 6, 7, 8, 9, 10, 11]

  // The values of the luminance AC table, sixteen to a row.
  const LUM0: seq<byte> := [0x01, 0x02, 0x03, 0x00, 0x04, 0x11, 0x05, 0x12, 0x21, 0x31, 0x41, 0x06, 0x13, 0x51, 0x61, 0x07]
  const LUM1: seq<byte> := [0x22, 0x71, 0x14, 0x32, 0x81, 0x91, 0xa1, 0x08, 0x23, 0x42, 0xb1, 0xc1, 0x15, 0x52, 0xd1, 0xf0]
  const LUM2: seq<byte> := [0x24, 0x33, 0x62, 0x72, 0x82, 0x09, 0x0a, 0x16, 0x17, 0x18, 0x19, 0x1a, 0x25, 0x26, 0x27, 0x28]
  const LUM3: seq<byte> := [0x29, 0x2a, 0x34, 0x35, 0x36, 0x37, 0x38, 0x39, 0x3a, 0x43, 0x44, 0x45, 0x46, 0x47, 0x48, 0x49]
  const LUM4: seq<byte> := [0x4a, 0x53, 0x54, 0x55, 0x56, 0x57, 0x58, 0x59, 0x5a, 0x63, 0x64, 0x65, 0x66, 0x67, 0x68, 0x69]
  const LUM5: seq<byte> := [0x6a, 0x73, 0x74, 0x75, 0x76, 0x77, 0x78, 0x79, 0x7a, 0x83, 0x84, 0x85, 0x86, 0x87, 0x88, 0x89]
  const LUM6: seq<byte> := [0x8a, 0x92, 0x93, 0x94, 0x95, 0x96, 0x97, 0x98, 0x99, 0x9a, 0xa2, 0xa3, 0xa4, 0xa5, 0xa6, 0xa7]
  const LUM7: seq<byte> := [0xa8, 0xa9, 0xaa, 0xb2, 0xb3, 0xb4, 0xb5, 0xb6, 0xb7, 0xb8, 0xb9, 0xba, 0xc2, 0xc3, 0xc4, 0xc5]
  const LUM8: seq<byte> := [0xc6, 0xc7, 0xc8, 0xc9, 0xca, 0xd2, 0xd3, 0xd4, 0xd5, 0xd6, 0xd7, 0xd8, 0xd9, 0xda, 0xe1, 0xe2]
  const LUM9: seq<byte> := [0xe3, 0xe4, 0xe5, 0xe6, 0xe7, 0xe8, 0xe9, 0xea, 0xf1, 0xf2, 0xf3, 0xf4, 0xf5, 0xf6, 0xf7, 0xf8]
  const LUM10: seq<byte> := [0xf9, 0xfa]
  const LUM_A: seq<byte> := LUM0 + LUM1 + LUM2 + LUM3 + LUM4 + LUM5
  const LUM_B: seq<byte> := LUM6 + LUM7 + LUM8 + LUM9 + LUM10
  const VALS_AC_LUM: seq<byte> := LUM_A + LUM_B

  // The values of the chrominance AC table, sixteen to a row.
  const CHR0: seq<byte> := [0x00, 0x01, 0x02, 0x03, 0x11, 0x04, 0x05, 0x21, 0x31, 0x06, 0x12, 0x41, 0x51, 0x07, 0x61, 0x71]
  const CHR1: seq<byte> := [0x13, 0x22, 0x32, 0x81, 0x08, 0x14, 0x42, 0x91, 0xa1, 0xb1, 0xc1, 0x09, 0x23, 0x33, 0x52, 0xf0]
  const CHR2: seq<byte> := [0x15, 0x62, 0x72, 0xd1, 0x0a, 0x16, 0x24, 0x34, 0xe1, 0x25, 0xf1, 0x17, 0x18, 0x19, 0x1a, 0x26]
  const CHR3: seq<byte> := [0x27, 0x28, 0x29, 0x2a, 0x35, 0x36, 0x37, 0x38, 0x39, 0x3a, 0x43, 0x44, 0x45, 0x46, 0x47, 0x48]
  const CHR4: seq<byte> := [0x49, 0x4a, 0x53, 0x54, 0x55, 0x56, 0x57, 0x58, 0x59, 0x5a, 0x63, 0x64, 0x65, 0x66, 0x67, 0x68]
  const CHR5: seq<byte> := [0x69, 0x6a, 0x73, 0x74, 0x75, 0x76, 0x77, 0x78, 0x79, 0x7a, 0x82, 0x83, 0x84, 0x85, 0x86, 0x87]
  const CHR6: seq<byte> := [0x88, 0x89, 0x8a, 0x92, 0x93, 0x94, 0x95, 0x96, 0x97, 0x98, 0x99, 0x9a, 0xa2, 0xa3, 0xa4, 0xa5]
  const CHR7: seq<byte> := [0xa6, 0xa7, 0xa8, 0xa9, 0xaa, 0xb2, 0xb3, 0xb4, 0xb5, 0xb6, 0xb7, 0xb8, 0xb9, 0xba, 0xc2, 0xc3]
  const CHR8: seq<byte> := [0xc4, 0xc5, 0xc6, 0xc7, 0xc8, 0xc9, 0xca, 0xd2, 0xd3, 0xd4, 0xd5, 0xd6, 0xd7, 0xd8, 0xd9, 0xda]
  const CHR9: seq<byte> := [0xe2, 0xe3, 0xe4, 0xe5, 0xe6, 0xe7, 0xe8, 0xe9, 0xea, 0xf2, 0xf3, 0xf4, 0xf5, 0xf6, 0xf7, 0xf8]
  const CHR10: seq<byte> := [0xf9, 0xfa]
  const CHR_A: seq<byte> := CHR0 + CHR1 + CHR2 + CHR3 + CHR4 + CHR5
  const CHR_B: seq<byte> := CHR6 + CHR7 + CHR8 + CHR9 + CHR10
  const VALS_AC_CHR: seq<byte> := CHR_A + CHR_B

  const DC_LUM := HuffSpec(BITS_DC_LUM, VALS_DC)
  const DC_CHR := HuffSpec(BITS_DC_CHR, VALS_DC)
  const AC_LUM := HuffSpec(BITS_AC_LUM, VALS_AC_LUM)
  const AC_CHR := HuffSpec(BITS_AC_CHR, VALS_AC_CHR)

  // ---- Kraft sums ----

  /** The code space taken by the codes of up to `n` bits, in units of an `n`-bit code. */
  function KraftSum(bits: seq<nat>, n: nat): nat
    requires n < |bits|
  {
    if n == 0 then 0 else 2 * KraftSum(bits, n - 1) + bits[n]
  }

  function CodeCount(bits: seq<nat>, n: nat): nat
    requires n < |bits|
  {
    if n == 0 then 0 else CodeCount(bits, n - 1) + bits[n]
  }

  lemma {:induction false} UsedAgrees(a: seq<nat>, b: seq<nat>, k: nat)
    requires Short(a) && Short(b) && k <= |a| && a <= b
    ensures Used(a, k) == Used(b, k)
  {
    if k != 0 {
      UsedAgrees(a, b, k - 1);
    }
  }

  lemma {:induction false} UsedRun(lens: seq<nat>, k: nat, c: nat, n: nat, place: nat)
    requires Short(lens) && k + c <= |lens| && 1 <= n <= 16
    requires forall i :: k <= i < k + c ==> lens[i] == n
    requires Used(lens, k) == Shl(place, 16 - n)
    ensures Used(lens, k + c) == Shl(place + c, 16 - n)
  {
    if c != 0 {
      UsedRun(lens, k, c - 1, n, place);
      ShlAdd(place + c - 1, 1, 16 - n);
      ShlOne(16 - n);
    }
  }

  lemma {:induction false} UsedIsKraftSum(bits: seq<nat>, n: nat)
    requires n < |bits| && n <= 16
    ensures Used(Lengths(bits, n), |Lengths(bits, n)|) == Shl(KraftSum(bits, n), 16 - n)
    ensures |Lengths(bits, n)| == CodeCount(bits, n)
  {
    if n == 0 {
      ShlZero(16);
    } else {
      UsedIsKraftSum(bits, n - 1);
      var before, lens := Lengths(bits, n - 1), Lengths(bits, n);
      UsedAgrees(before, lens, |before|);
      ShlShl(KraftSum(bits, n - 1), 1, 16 - n);
      UsedRun(lens, |before|, bits[n], n, Shl(KraftSum(bits, n - 1), 1));
    }
  }

  lemma ProperByKraft(spec: HuffSpec)
    requires |spec.bits| == 17 && CodeCount(spec.bits, 16) == |spec.vals| && KraftSum(spec.bits, 16) <= 0x1_0000
    requires Distinct(spec.vals)
    ensures Proper(spec)
  {
    UsedIsKraftSum(spec.bits, 16);
    Pow2Of16();
  }

  // ---- distinctness and completeness ----

  /** The AC symbols: end of block, sixteen zeros, and each run with each size. */
  function AcSymbol(i: nat): (s: byte)
    requires i < 162
  {
    if i == 0 then EOB else if i == 1 then ZRL else Symbol((i - 2) / 10, 1 + (i - 2) % 10)
  }

  predicate IsAcSymbol(v: byte) {
    v == EOB || v == ZRL || 1 <= v % 16 <= 10
  }

  ghost function SymbolSet(n: nat): (s: set<byte>)
    requires n <= 162
    ensures |s| <= n
    ensures forall i :: 0 <= i < n ==> AcSymbol(i) in s
  {
    if n == 0 then {} else SymbolSet(n - 1) + {AcSymbol(n - 1)}
  }

  ghost function ValueSet(vals: seq<byte>): (s: set<byte>)
    ensures forall v :: v in s <==> v in vals
    ensures Distinct(vals) ==> |s| == |vals|
  {
    if vals == [] then {}
    else
      var init := vals[..|vals| - 1];
      assert forall v :: v in vals <==> v in init || v == vals[|vals| - 1];
      ValueSet(init) + {vals[|vals| - 1]}
  }

  lemma SubsetOfSameSize<T>(a: set<T>, b: set<T>)
    requires a <= b && |b| <= |a|
    ensures a == b
  {
    assert b == a + (b - a);
  }

  lemma SymbolsEnumerated(v: byte)
    requires IsAcSymbol(v)
    ensures v in SymbolSet(162)
  {
    if v == EOB {
      assert v == AcSymbol(0);
    } else if v == ZRL {
      assert v == AcSymbol(1);
    } else {
      var i := 2 + v / 16 * 10 + (v % 16 - 1);
      assert (i - 2) / 10 == v / 16 && (i - 2) % 10 == v % 16 - 1;
      assert v == AcSymbol(i);
    }
  }

  /** 162 distinct symbols are all of them. */
  lemma CompleteByCounting(vals: seq<byte>)
    requires Distinct(vals) && |vals| == 162
    requires forall k :: 0 <= k < |vals| ==> IsAcSymbol(vals[k])
    ensures CompleteAc(vals)
  {
    forall v | v in ValueSet(vals)
      ensures v in SymbolSet(162)
    {
      SymbolsEnumerated(v);
    }
    SubsetOfSameSize(ValueSet(vals), SymbolSet(162));
    forall v: byte | IsAcSymbol(v)
      ensures v in vals
    {
      SymbolsEnumerated(v);
    }
  }

  // The position of each symbol in the luminance table, by run and size.
  const LUM_POS0: seq<nat> := [3, 0, 1, 2, 4, 6, 11, 15, 23, 37, 38]
  const LUM_POS1: seq<nat> := [162, 5, 7, 12, 18, 28, 39, 40, 41, 42, 43]
  const LUM_POS2: seq<nat> := [162, 8, 16, 24, 32, 44, 45, 46, 47, 48, 49]
  const LUM_POS3: seq<nat> := [162, 9, 19, 33, 50, 51, 52, 53, 54, 55, 56]
  const LUM_POS4: seq<nat> := [162, 10, 25, 57, 58, 59, 60, 61, 62, 63, 64]
  const LUM_POS5: seq<nat> := [162, 13, 29, 65, 66, 67, 68, 69, 70, 71, 72]
  const LUM_POS6: seq<nat> := [162, 14, 34, 73, 74, 75, 76, 77, 78, 79, 80]
  const LUM_POS7: seq<nat> := [162, 17, 35, 81, 82, 83, 84, 85, 86, 87, 88]
  const LUM_POS8: seq<nat> := [162, 20, 36, 89, 90, 91, 92, 93, 94, 95, 96]
  const LUM_POS9: seq<nat> := [162, 21, 97, 98, 99, 100, 101, 102, 103, 104, 105]
  const LUM_POS10: seq<nat> := [162, 22, 106, 107, 108, 109, 110, 111, 112, 113, 114]
  const LUM_POS11: seq<nat> := [162, 26, 115, 116, 117, 118, 119, 120, 121, 122, 123]
  const LUM_POS12: seq<nat> := [162, 27, 124, 125, 126, 127, 128, 129, 130, 131, 132]
  const LUM_POS13: seq<nat> := [162, 30, 133, 134, 135, 136, 137, 138, 139, 140, 141]
  const LUM_POS14: seq<nat> := [162, 142, 143, 144, 145, 146, 147, 148, 149, 150, 151]
  const LUM_POS15: seq<nat> := [31, 152, 153, 154, 155, 156, 157, 158, 159, 160, 161]

  function PositionLum(v: byte): nat {
    if v % 16 > 10 then 162
    else
      match v / 16
      case 0 => LUM_POS0[v % 16]
      case 1 => LUM_POS1[v % 16]
      case 2 => LUM_POS2[v % 16]
      case 3 => LUM_POS3[v % 16]
      case 4 => LUM_POS4[v % 16]
      case 5 => LUM_POS5[v % 16]
      case 6 => LUM_POS6[v % 16]
      case 7 => LUM_POS7[v % 16]
      case 8 => LUM_POS8[v % 16]
      case 9 => LUM_POS9[v % 16]
      case 10 => LUM_POS10[v % 16]
      case 11 => LUM_POS11[v % 16]
      case 12 => LUM_POS12[v % 16]
      case 13 => LUM_POS13[v % 16]
      case 14 => LUM_POS14[v % 16]
      case _ => LUM_POS15[v % 16]
  }

  /** `vals` are the symbols from position `start` on. */
  ghost predicate AtLum(vals: seq<byte>, start: nat) {
    forall k :: 0 <= k < |vals| ==> PositionLum(vals[k]) == start + k && IsAcSymbol(vals[k])
  }

  lemma LumRow0()
    ensures AtLum(LUM0, 0)
  {
  }

  lemma LumRow1()
    ensures AtLum(LUM1, 16)
  {
  }

  lemma LumRow2()
    ensures AtLum(LUM2, 32)
  {
  }

  lemma LumRow3()
    ensures AtLum(LUM3, 48)
  {
  }

  lemma LumRow4()
    ensures AtLum(LUM4, 64)
  {
  }

  lemma LumRow5()
    ensures AtLum(LUM5, 80)
  {
  }

  lemma LumRow6()
    ensures AtLum(LUM6, 96)
  {
  }

  lemma LumRow7()
    ensures AtLum(LUM7, 112)
  {
  }

  lemma LumRow8()
    ensures AtLum(LUM8, 128)
  {
  }

  lemma LumRow9()
    ensures AtLum(LUM9, 144)
  {
  }

  lemma LumRow10()
    ensures AtLum(LUM10, 160)
  {
  }

  lemma LumAppend(a: seq<byte>, b: seq<byte>, start: nat)
    requires AtLum(a, start) && AtLum(b, start + |a|)
    ensures AtLum(a + b, start)
  {
  }

  lemma LumValues()
    ensures |VALS_AC_LUM| == 162 && Distinct(VALS_AC_LUM)
    ensures forall k :: 0 <= k < |VALS_AC_LUM| ==> IsAcSymbol(VALS_AC_LUM[k])
  {
    LumHalves();
    LumAppend(LUM_A, LUM_B, 0);
    LumDistinct(VALS_AC_LUM);
  }

  lemma LumDistinct(vals: seq<byte>)
    requires AtLum(vals, 0)
    ensures Distinct(vals) && forall k :: 0 <= k < |vals| ==> IsAcSymbol(vals[k])
  {
  }

  lemma LumHalves()
    ensures |LUM_A| == 96 && |LUM_B| == 66 && AtLum(LUM_A, 0) && AtLum(LUM_B, 96)
  {
    LumRow0();
    LumRow1();
    LumRow2();
    LumRow3();
    LumRow4();
    LumRow5();
    LumRow6();
    LumRow7();
    LumRow8();
    LumRow9();
    LumRow10();
    LumAppend(LUM0, LUM1, 0);
    LumAppend(LUM0 + LUM1, LUM2, 0);
    LumAppend(LUM0 + LUM1 + LUM2, LUM3, 0);
    LumAppend(LUM0 + LUM1 + LUM2 + LUM3, LUM4, 0);
    LumAppend(LUM0 + LUM1 + LUM2 + LUM3 + LUM4, LUM5, 0);
    LumAppend(LUM6, LUM7, 96);
    LumAppend(LUM6 + LUM7, LUM8, 96);
    LumAppend(LUM6 + LUM7 + LUM8, LUM9, 96);
    LumAppend(LUM6 + LUM7 + LUM8 + LUM9, LUM10, 96);
  }

  // The position of each symbol in the chrominance table, by run and size.
  const CHR_POS0: seq<nat> := [0, 1, 2, 3, 5, 6, 9, 13, 20, 27, 36]
  const CHR_POS1: seq<nat> := [162, 4, 10, 16, 21, 32, 37, 43, 44, 45, 46]
  const CHR_POS2: seq<nat> := [162, 7, 17, 28, 38, 41, 47, 48, 49, 50, 51]
  const CHR_POS3: seq<nat> := [162, 8, 18, 29, 39, 52, 53, 54, 55, 56, 57]
  const CHR_POS4: seq<nat> := [162, 11, 22, 58, 59, 60, 61, 62, 63, 64, 65]
  const CHR_POS5: seq<nat> := [162, 12, 30, 66, 67, 68, 69, 70, 71, 72, 73]
  const CHR_POS6: seq<nat> := [162, 14, 33, 74, 75, 76, 77, 78, 79, 80, 81]
  const CHR_POS7: seq<nat> := [162, 15, 34, 82, 83, 84, 85, 86, 87, 88, 89]
  const CHR_POS8: seq<nat> := [162, 19, 90, 91, 92, 93, 94, 95, 96, 97, 98]
  const CHR_POS9: seq<nat> := [162, 23, 99, 100, 101, 102, 103, 104, 105, 106, 107]
  const CHR_POS10: seq<nat> := [162, 24, 108, 109, 110, 111, 112, 113, 114, 115, 116]
  const CHR_POS11: seq<nat> := [162, 25, 117, 118, 119, 120, 121, 122, 123, 124, 125]
  const CHR_POS12: seq<nat> := [162, 26, 126, 127, 128, 129, 130, 131, 132, 133, 134]
  const CHR_POS13: seq<nat> := [162, 35, 135, 136, 137, 138, 139, 140, 141, 142, 143]
  const CHR_POS14: seq<nat> := [162, 40, 144, 145, 146, 147, 148, 149, 150, 151, 152]
  const CHR_POS15: seq<nat> := [31, 42, 153, 154, 155, 156, 157, 158, 159, 160, 161]

  function PositionChr(v: byte): nat {
    if v % 16 > 10 then 162
    else
      match v / 16
      case 0 => CHR_POS0[v % 16]
      case 1 => CHR_POS1[v % 16]
      case 2 => CHR_POS2[v % 16]
      case 3 => CHR_POS3[v % 16]
      case 4 => CHR_POS4[v % 16]
      case 5 => CHR_POS5[v % 16]
      case 6 => CHR_POS6[v % 16]
      case 7 => CHR_POS7[v % 16]
      case 8 => CHR_POS8[v % 16]
      case 9 => CHR_POS9[v % 16]
      case 10 => CHR_POS10[v % 16]
      case 11 => CHR_POS11[v % 16]
      case 12 => CHR_POS12[v % 16]
      case 13 => CHR_POS13[v % 16]
      case 14 => CHR_POS14[v % 16]
      case _ => CHR_POS15[v % 16]
  }

  /** `vals` are the symbols from position `start` on. */
  ghost predicate AtChr(vals: seq<byte>, start: nat) {
    forall k :: 0 <= k < |vals| ==> PositionChr(vals[k]) == start + k && IsAcSymbol(vals[k])
  }

  lemma ChrRow0()
    ensures AtChr(CHR0, 0)
  {
  }

  lemma ChrRow1()
    ensures AtChr(CHR1, 16)
  {
  }

  lemma ChrRow2()
    ensures AtChr(CHR2, 32)
  {
  }

  lemma ChrRow3()
    ensures AtChr(CHR3, 48)
  {
  }

  lemma ChrRow4()
    ensures AtChr(CHR4, 64)
  {
  }

  lemma ChrRow5()
    ensures AtChr(CHR5, 80)
  {
  }

  lemma ChrRow6()
    ensures AtChr(CHR6, 96)
  {
  }

  lemma ChrRow7()
    ensures AtChr(CHR7, 112)
  {
  }

  lemma ChrRow8()
    ensures AtChr(CHR8, 128)
  {
  }

  lemma ChrRow9()
    ensures AtChr(CHR9, 144)
  {
  }

  lemma ChrRow10()
    ensures AtChr(CHR10, 160)
  {
  }

  lemma ChrAppend(a: seq<byte>, b: seq<byte>, start: nat)
    requires AtChr(a, start) && AtChr(b, start + |a|)
    ensures AtChr(a + b, start)
  {
  }

  lemma ChrValues()
    ensures |VALS_AC_CHR| == 162 && Distinct(VALS_AC_CHR)
    ensures forall k :: 0 <= k < |VALS_AC_CHR| ==> IsAcSymbol(VALS_AC_CHR[k])
  {
    ChrHalves();
    ChrAppend(CHR_A, CHR_B, 0);
    ChrDistinct(VALS_AC_CHR);
  }

  lemma ChrDistinct(vals: seq<byte>)
    requires AtChr(vals, 0)
    ensures Distinct(vals) && forall k :: 0 <= k < |vals| ==> IsAcSymbol(vals[k])
  {
  }

  lemma ChrHalves()
    ensures |CHR_A| == 96 && |CHR_B| == 66 && AtChr(CHR_A, 0) && AtChr(CHR_B, 96)
  {
    ChrRow0();
    ChrRow1();
    ChrRow2();
    ChrRow3();
    ChrRow4();
    ChrRow5();
    ChrRow6();
    ChrRow7();
    ChrRow8();
    ChrRow9();
    ChrRow10();
    ChrAppend(CHR0, CHR1, 0);
    ChrAppend(CHR0 + CHR1, CHR2, 0);
    ChrAppend(CHR0 + CHR1 + CHR2, CHR3, 0);
    ChrAppend(CHR0 + CHR1 + CHR2 + CHR3, CHR4, 0);
    ChrAppend(CHR0 + CHR1 + CHR2 + CHR3 + CHR4, CHR5, 0);
    ChrAppend(CHR6, CHR7, 96);
    ChrAppend(CHR6 + CHR7, CHR8, 96);
    ChrAppend(CHR6 + CHR7 + CHR8, CHR9, 96);
    ChrAppend(CHR6 + CHR7 + CHR8 + CHR9, CHR10, 96);
  }

  // ---- the tables are usable ----

  /** How four more lengths change the two counts. */
  ghost predicate Grows(bits: seq<nat>, n: nat, kraft: nat, count: nat)
    requires |bits| == 17 && n <= 16
  {
    KraftSum(bits, n) == kraft && CodeCount(bits, n) == count
  }

  lemma NoLengths(bits: seq<nat>)
    requires |bits| == 17
    ensures Grows(bits, 0, 0, 0)
  {
  }

  lemma FourLengths(bits: seq<nat>, n: nat, kraft: nat, count: nat)
    requires |bits| == 17 && n <= 12 && Grows(bits, n, kraft, count)
    ensures Grows(bits, n + 4,
                  16 * kraft + 8 * bits[n + 1] + 4 * bits[n + 2] + 2 * bits[n + 3] + bits[n + 4],
                  count + bits[n + 1] + bits[n + 2] + bits[n + 3] + bits[n + 4])
  {
    assert KraftSum(bits, n + 2) == 4 * kraft + 2 * bits[n + 1] + bits[n + 2];
    assert CodeCount(bits, n + 2) == count + bits[n + 1] + bits[n + 2];
  }

  lemma DcValues()
    ensures |VALS_DC| == 12 && Distinct(VALS_DC) && CompleteDc(VALS_DC)
  {
    assert forall k :: 0 <= k < 12 ==> VALS_DC[k] == k;
    forall v: byte | v <= 11
      ensures v in VALS_DC
    {
      assert VALS_DC[v] == v;
    }
  }

  lemma DcLumTableKraft()
    ensures Grows(BITS_DC_LUM, 16, 65408, 12)
  {
    hide KraftSum, CodeCount;
    DcLumTableKraft8();
    FourLengths(BITS_DC_LUM, 8, 255, 11);
    FourLengths(BITS_DC_LUM, 12, 4088, 12);
  }

  lemma DcLumTableKraft8()
    ensures Grows(BITS_DC_LUM, 8, 255, 11)
  {
    hide KraftSum, CodeCount;
    NoLengths(BITS_DC_LUM);
    FourLengths(BITS_DC_LUM, 0, 0, 0);
    FourLengths(BITS_DC_LUM, 4, 15, 7);
  }

  lemma DcLumTable()
    ensures Proper(DC_LUM) && CompleteDc(DC_LUM.vals)
  {
    DcValues();
    DcLumTableKraft();
    ProperByKraft(DC_LUM);
  }

  lemma DcChrTableKraft()
    ensures Grows(BITS_DC_CHR, 16, 65504, 12)
  {
    hide KraftSum, CodeCount;
    NoLengths(BITS_DC_CHR);
    FourLengths(BITS_DC_CHR, 0, 0, 0);
    FourLengths(BITS_DC_CHR, 4, 15, 5);
    FourLengths(BITS_DC_CHR, 8, 255, 9);
    FourLengths(BITS_DC_CHR, 12, 4094, 12);
  }

  lemma DcChrTable()
    ensures Proper(DC_CHR) && CompleteDc(DC_CHR.vals)
  {
    DcValues();
    DcChrTableKraft();
    ProperByKraft(DC_CHR);
  }

  lemma AcLumTableKraft()
    ensures Grows(BITS_AC_LUM, 16, 65535, 162)
  {
    hide KraftSum, CodeCount;
    NoLengths(BITS_AC_LUM);
    FourLengths(BITS_AC_LUM, 0, 0, 0);
    FourLengths(BITS_AC_LUM, 4, 13, 6);
    FourLengths(BITS_AC_LUM, 8, 251, 18);
    FourLengths(BITS_AC_LUM, 12, 4088, 36);
  }

  /** The luminance AC table gives a prefix-free code to all 162 symbols. */
  lemma AcLumTable()
    ensures Proper(AC_LUM) && CompleteAc(AC_LUM.vals)
  {
    LumValues();
    AcLumTableKraft();
    ProperByKraft(AC_LUM);
    CompleteByCounting(VALS_AC_LUM);
  }

  lemma AcChrTableKraft()
    ensures Grows(BITS_AC_CHR, 16, 65535, 162)
  {
    hide KraftSum, CodeCount;
    NoLengths(BITS_AC_CHR);
    FourLengths(BITS_AC_CHR, 0, 0, 0);
    FourLengths(BITS_AC_CHR, 4, 12, 5);
    FourLengths(BITS_AC_CHR, 8, 250, 20);
    FourLengths(BITS_AC_CHR, 12, 4088, 40);
  }

  lemma AcChrTable()
    ensures Proper(AC_CHR) && CompleteAc(AC_CHR.vals)
  {
    ChrValues();
    AcChrTableKraft();
    ProperByKraft(AC_CHR);
    CompleteByCounting(VALS_AC_CHR);
  }
}
