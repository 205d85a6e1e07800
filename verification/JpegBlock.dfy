/** Run-length and magnitude coding of quantised blocks (sections F.1.2.1 and F.1.2.2 of ITU-T T.81),
    and the decoder of section F.2.2 that takes them back. */
module JpegBlock {
  import opened Results
  import opened Words
  import opened JpegHuffman
  import opened JpegBitWriter

  /** The level range the quantiser clamps to. */
  const MAX_LEVEL: int := 1023

  ghost predicate IsLevel(v: int) {
    -MAX_LEVEL <= v <= MAX_LEVEL
  }

  /** 64 levels in zigzag order. */
  ghost predicate IsBlock(block: seq<int>) {
    |block| == 64 && forall i :: 0 <= i < 64 ==> IsLevel(block[i])
  }

  function Abs(v: int): nat {
    if v < 0 then -v else v
  }

  // ---- magnitudes ----

  /** How many bits it takes to write `v`. */
  function BitLength(v: nat): nat {
    if v == 0 then 0 else 1 + BitLength(v / 2)
  }

  lemma {:induction false} BitLengthBounds(v: nat)
    ensures v < Pow2(BitLength(v))
    ensures 0 < v ==> 0 < BitLength(v) && Pow2(BitLength(v) - 1) <= v
  {
    if v != 0 {
      BitLengthBounds(v / 2);
    }
  }

  lemma {:induction false} BitLengthAtMost(v: nat, n: nat)
    requires v < Pow2(n)
    ensures BitLength(v) <= n
  {
    if v != 0 {
      BitLengthAtMost(v / 2, n - 1);
    }
  }

  method MagnitudeBits(v: int) returns (n: nat)
    ensures n == BitLength(Abs(v))
  {
    var w := if v < 0 then -v else v;
    n := 0;
    while w != 0
      invariant 0 <= w
      invariant n + BitLength(w) == BitLength(Abs(v))
      decreases w
    {
      n := n + 1;
      w := w / 2;
    }
  }

  /** A 32-bit two's complement word. */
  function U32(v: int): nat
    requires -0x8000_0000 <= v <= 0x7FFF_FFFF
  {
    if v < 0 then 0x1_0000_0000 + v else v
  }

  /** The low `size` bits of `v`, or of `v - 1` when `v` is negative. */
  function EncodeMag(v: int, size: nat): nat
    requires -0x8000_0000 < v <= 0x7FFF_FFFF
  {
    Low(U32(if v < 0 then v - 1 else v), size)
  }

  /** EXTEND of section F.2.2.1. */
  function Extend(v: nat, t: nat): int
    requires 0 < t
  {
    if v < Pow2(t - 1) then v - Pow2(t) + 1 else v
  }

  /** Truncating a negative number to `n` bits adds `2^n` to it. */
  lemma LowOfNegative(v: int, n: nat)
    requires n <= 32 && 0 <= Pow2(n) + v < Pow2(n) && -0x8000_0000 <= v
    ensures Low(U32(v), n) == Pow2(n) + v
  {
    hide Pow2, Shl, Low;
    var low := Pow2(n) + v;
    ShlSub(Pow2(32 - n), n);
    Pow2Add(32 - n, n);
    Pow2Of32();
    SplitWord(Pow2(32 - n) - 1, low, n);
  }

  lemma Pow2Of32()
    ensures Pow2(32) == 0x1_0000_0000
  {
    Pow2Of16();
    assert Pow2(20) == 0x10_0000;
    assert Pow2(24) == 0x100_0000;
    assert Pow2(28) == 0x1000_0000;
  }

  lemma ShlSub(a: nat, n: nat)
    requires 0 < a
    ensures Shl(a - 1, n) == Shl(a, n) - Pow2(n)
  {
    ShlAdd(a - 1, 1, n);
    ShlOne(n);
  }

  /** The magnitude bits and their count determine a nonzero value. */
  lemma ExtendEncodeMag(v: int)
    requires v != 0 && Abs(v) < 0x1_0000
    ensures var size := BitLength(Abs(v));
            0 < size <= 16 && EncodeMag(v, size) < Pow2(size) && Extend(EncodeMag(v, size), size) == v
  {
    var size := BitLength(Abs(v));
    BitLengthBounds(Abs(v));
    Pow2Of16();
    BitLengthAtMost(Abs(v), 16);
    if v < 0 {
      LowOfNegative(v - 1, size);
    } else {
      LowBound(v, size);
    }
  }

  lemma LevelBitLength(v: int)
    ensures IsLevel(v) ==> BitLength(Abs(v)) <= 10
    ensures -2 * MAX_LEVEL <= v <= 2 * MAX_LEVEL ==> BitLength(Abs(v)) <= 11
  {
    assert Pow2(10) == 1024 && Pow2(11) == 2048;
    if IsLevel(v) {
      BitLengthAtMost(Abs(v), 10);
    }
    if -2 * MAX_LEVEL <= v <= 2 * MAX_LEVEL {
      BitLengthAtMost(Abs(v), 11);
    }
  }

  // ---- what the encoder writes ----

  const EOB: byte := 0x00
  const ZRL: byte := 0xF0

  function MagBits(v: int): seq<bool>
    requires Abs(v) < 0x1_0000
  {
    BitsOf(EncodeMag(v, BitLength(Abs(v))), BitLength(Abs(v)))
  }

  /** Every DC symbol has a code. */
  ghost predicate CompleteDc(vals: seq<byte>) {
    forall size: byte :: size <= 11 ==> size in vals
  }

  /** Every AC symbol has a code. */
  ghost predicate CompleteAc(vals: seq<byte>) {
    && EOB in vals && ZRL in vals
    && (forall run: nat, size: nat {:trigger Symbol(run, size)} ::
          run < 16 && 1 <= size <= 10 ==> Symbol(run, size) in vals)
  }

  /** `(run << 4) | size`. */
  function Symbol(run: nat, size: nat): (s: byte)
    requires run < 16 && size < 16
    ensures s / 16 == run && s % 16 == size
  {
    run * 16 + size
  }

  function DcBits(dc: seq<HCode>, diff: int): seq<bool>
    requires |dc| == 256 && Abs(diff) <= 2 * MAX_LEVEL
  {
    LevelBitLength(diff);
    CodeBits(dc[BitLength(Abs(diff))]) + MagBits(diff)
  }

  /** The bits for levels `i..` when the `run` levels before them are zeros still to be coded. */
  function AcBits(ac: seq<HCode>, block: seq<int>, i: nat, run: nat): seq<bool>
    requires |ac| == 256 && IsBlock(block) && i <= 64
    decreases 64 - i, run
  {
    if i == 64 then
      if run > 0 then CodeBits(ac[EOB]) else []
    else if block[i] == 0 then
      AcBits(ac, block, i + 1, run + 1)
    else if run >= 16 then
      CodeBits(ac[ZRL]) + AcBits(ac, block, i, run - 16)
    else
      LevelBitLength(block[i]);
      CodeBits(ac[Symbol(run, BitLength(Abs(block[i])))]) + MagBits(block[i]) + AcBits(ac, block, i + 1, 0)
  }

  function BlockBits(dc: seq<HCode>, ac: seq<HCode>, block: seq<int>, pred: int): seq<bool>
    requires |dc| == |ac| == 256 && IsBlock(block) && IsLevel(pred)
  {
    DcBits(dc, block[0] - pred) + AcBits(ac, block, 1, 0)
  }

  // ---- decoding ----

  function Zeros(n: nat): (z: seq<int>)
    ensures |z| == n
  {
    seq(n, i => 0)
  }

  /** RECEIVE and EXTEND: the value with `t` magnitude bits. */
  function DecodeMag(bits: seq<bool>, t: nat): Option<(int, seq<bool>)> {
    if |bits| < t then None
    else if t == 0 then Some((0, bits))
    else Some((Extend(ValueOf(bits[..t]), t), bits[t..]))
  }

  /** The DECODE procedure of one table. */
  type SymbolDecoder = seq<bool> -> Option<(byte, seq<bool>)>

  /** `decode` undoes the codes of `vals`, whatever bits follow. */
  ghost predicate Undoes(decode: SymbolDecoder, codes: seq<HCode>, vals: seq<byte>) {
    && |codes| == 256
    && (forall v: byte, rest: seq<bool> {:trigger decode(CodeBits(codes[v]) + rest)} ::
          v in vals ==> decode(CodeBits(codes[v]) + rest) == Some((v, rest)))
  }

  function DecoderOf(spec: HuffSpec): SymbolDecoder
    requires Proper(spec)
  {
    bits => DecodeValue(spec, bits)
  }

  lemma DecoderUndoes(codes: seq<HCode>, spec: HuffSpec)
    requires Encodes(codes, spec)
    ensures Undoes(DecoderOf(spec), codes, spec.vals)
  {
    forall v: byte, rest: seq<bool> | v in spec.vals
      ensures DecoderOf(spec)(CodeBits(codes[v]) + rest) == Some((v, rest))
    {
      DecodeValueCorrect(codes, spec, v, rest);
    }
  }

  function DecodeDc(decode: SymbolDecoder, bits: seq<bool>, pred: int): Option<(int, seq<bool>)>
  {
    match decode(bits)
    case None => None
    case Some(hit) =>
      match DecodeMag(hit.1, hit.0)
      case None => None
      case Some(diff) => Some((pred + diff.0, diff.1))
  }

  /** The rest of a block whose first levels are `levels`. */
  function DecodeAc(decode: SymbolDecoder, bits: seq<bool>, levels: seq<int>): Option<(seq<int>, seq<bool>)>
    requires |levels| <= 64
    decreases 64 - |levels|
  {
    if |levels| == 64 then Some((levels, bits))
    else
      match decode(bits)
      case None => None
      case Some(hit) =>
        var run, size := hit.0 / 16, hit.0 % 16;
        if size == 0 && run != 15 then
          Some((levels + Zeros(64 - |levels|), hit.1))
        else if 64 <= |levels| + run then
          None
        else if size == 0 then
          DecodeAc(decode, hit.1, levels + Zeros(16))
        else
          match DecodeMag(hit.1, size)
          case None => None
          case Some(mag) => DecodeAc(decode, mag.1, levels + Zeros(run) + [mag.0])
  }

  function DecodeBlock(dc: SymbolDecoder, ac: SymbolDecoder, bits: seq<bool>, pred: int): Option<(seq<int>, seq<bool>)>
  {
    match DecodeDc(dc, bits, pred)
    case None => None
    case Some(first) => DecodeAc(ac, first.1, [first.0])
  }

  lemma DecodeMagCorrect(v: int, rest: seq<bool>)
    requires Abs(v) < 0x1_0000
    ensures DecodeMag(MagBits(v) + rest, BitLength(Abs(v))) == Some((v, rest))
  {
    var bits, t := MagBits(v), BitLength(Abs(v));
    if v == 0 {
      assert bits + rest == rest;
    } else {
      ExtendEncodeMag(v);
      ValueOfBitsOf(EncodeMag(v, t), t);
      assert (bits + rest)[..t] == bits && (bits + rest)[t..] == rest;
    }
  }

  lemma DecodeDcCorrect(dc: seq<HCode>, decode: SymbolDecoder, vals: seq<byte>, v: int, pred: int, rest: seq<bool>)
    requires Undoes(decode, dc, vals) && CompleteDc(vals) && IsLevel(v) && IsLevel(pred)
    ensures DecodeDc(decode, DcBits(dc, v - pred) + rest, pred) == Some((v, rest))
  {
    var diff := v - pred;
    LevelBitLength(diff);
    var size: byte := BitLength(Abs(diff));
    ConcatAssoc(CodeBits(dc[size]), MagBits(diff), rest);
    assert decode(CodeBits(dc[size]) + (MagBits(diff) + rest)) == Some((size, MagBits(diff) + rest));
    DecodeMagCorrect(diff, rest);
  }

  /** A coefficient with its run of zeros is decoded whatever follows. */
  lemma DecodeCoefficient(ac: seq<HCode>, decode: SymbolDecoder, vals: seq<byte>, levels: seq<int>, run: nat, v: int, rest: seq<bool>)
    requires Undoes(decode, ac, vals) && CompleteAc(vals) && IsLevel(v) && v != 0
    requires run < 16 && |levels| + run < 64
    ensures BitLength(Abs(v)) <= 10
    ensures DecodeAc(decode, CodeBits(ac[Symbol(run, BitLength(Abs(v)))]) + MagBits(v) + rest, levels)
         == DecodeAc(decode, rest, levels + Zeros(run) + [v])
  {
    LevelBitLength(v);
    BitLengthBounds(Abs(v));
    var s := Symbol(run, BitLength(Abs(v)));
    ConcatAssoc(CodeBits(ac[s]), MagBits(v), rest);
    assert decode(CodeBits(ac[s]) + (MagBits(v) + rest)) == Some((s, MagBits(v) + rest));
    DecodeMagCorrect(v, rest);
  }

  lemma DecodeRunOf16(ac: seq<HCode>, decode: SymbolDecoder, vals: seq<byte>, levels: seq<int>, rest: seq<bool>)
    requires Undoes(decode, ac, vals) && CompleteAc(vals) && |levels| + 15 < 64
    ensures DecodeAc(decode, CodeBits(ac[ZRL]) + rest, levels) == DecodeAc(decode, rest, levels + Zeros(16))
  {
    assert decode(CodeBits(ac[ZRL]) + (rest)) == Some((ZRL, rest));
  }

  lemma DecodeEndOfBlock(ac: seq<HCode>, decode: SymbolDecoder, vals: seq<byte>, levels: seq<int>, rest: seq<bool>)
    requires Undoes(decode, ac, vals) && CompleteAc(vals) && |levels| < 64
    ensures DecodeAc(decode, CodeBits(ac[EOB]) + rest, levels) == Some((levels + Zeros(64 - |levels|), rest))
  {
    assert decode(CodeBits(ac[EOB]) + (rest)) == Some((EOB, rest));
  }

  /** Levels `i - run..i` are zeros. */
  ghost predicate ZeroRun(block: seq<int>, i: nat, run: nat) {
    run <= i <= |block| && forall j :: i - run <= j < i ==> block[j] == 0
  }

  lemma ExtendByZeros(block: seq<int>, i: nat, run: nat, n: nat)
    requires ZeroRun(block, i, run) && n <= run
    ensures block[..i - run] + Zeros(n) == block[..i - (run - n)]
  {
  }

  /** From any point of a block, the decoder rebuilds the rest of it and stops right after it. */
  lemma {:induction false} DecodeAcCorrect(ac: seq<HCode>, decode: SymbolDecoder, vals: seq<byte>, block: seq<int>, i: nat, run: nat,
                                           rest: seq<bool>)
    requires Undoes(decode, ac, vals) && CompleteAc(vals) && IsBlock(block)
    requires run < i && ZeroRun(block, i, run)
    ensures DecodeAc(decode, AcBits(ac, block, i, run) + rest, block[..i - run]) == Some((block, rest))
    decreases 64 - i, run
  {
    hide DecodeAc, AcBits, CompleteAc;
    if i == 64 {
      DecodeAcEnd(ac, decode, vals, block, run, rest);
    } else if block[i] == 0 {
      AcBitsZero(ac, block, i, run);
      DecodeAcCorrect(ac, decode, vals, block, i + 1, run + 1, rest);
    } else if run >= 16 {
      DecodeAcRun(ac, decode, vals, block, i, run, rest);
      DecodeAcCorrect(ac, decode, vals, block, i, run - 16, rest);
    } else {
      DecodeAcStep(ac, decode, vals, block, i, run, rest);
      DecodeAcCorrect(ac, decode, vals, block, i + 1, 0, rest);
    }
  }

  lemma AcBitsZero(ac: seq<HCode>, block: seq<int>, i: nat, run: nat)
    requires |ac| == 256 && IsBlock(block) && run < i < 64 && block[i] == 0
    ensures AcBits(ac, block, i, run) == AcBits(ac, block, i + 1, run + 1)
    ensures block[..i - run] == block[..(i + 1) - (run + 1)]
  {
  }

  lemma DecodeAcEnd(ac: seq<HCode>, decode: SymbolDecoder, vals: seq<byte>, block: seq<int>, run: nat, rest: seq<bool>)
    requires Undoes(decode, ac, vals) && CompleteAc(vals) && IsBlock(block)
    requires run < 64 && ZeroRun(block, 64, run)
    ensures DecodeAc(decode, AcBits(ac, block, 64, run) + rest, block[..64 - run]) == Some((block, rest))
  {
    ExtendByZeros(block, 64, run, run);
    assert block[..64] == block;
    if run == 0 {
      assert AcBits(ac, block, 64, run) + rest == rest;
    } else {
      DecodeEndOfBlock(ac, decode, vals, block[..64 - run], rest);
    }
  }

  lemma DecodeAcRun(ac: seq<HCode>, decode: SymbolDecoder, vals: seq<byte>, block: seq<int>, i: nat, run: nat, rest: seq<bool>)
    requires Undoes(decode, ac, vals) && CompleteAc(vals) && IsBlock(block)
    requires 16 <= run < i < 64 && ZeroRun(block, i, run) && block[i] != 0
    ensures DecodeAc(decode, AcBits(ac, block, i, run) + rest, block[..i - run])
         == DecodeAc(decode, AcBits(ac, block, i, run - 16) + rest, block[..i - (run - 16)])
  {
    AcBitsRunOf16(ac, block, i, run);
    ConcatAssoc(CodeBits(ac[ZRL]), AcBits(ac, block, i, run - 16), rest);
    DecodeRunOf16(ac, decode, vals, block[..i - run], AcBits(ac, block, i, run - 16) + rest);
    ExtendByZeros(block, i, run, 16);
  }

  lemma DecodeAcStep(ac: seq<HCode>, decode: SymbolDecoder, vals: seq<byte>, block: seq<int>, i: nat, run: nat, rest: seq<bool>)
    requires Undoes(decode, ac, vals) && CompleteAc(vals) && IsBlock(block)
    requires run < i < 64 && run < 16 && ZeroRun(block, i, run) && block[i] != 0
    ensures DecodeAc(decode, AcBits(ac, block, i, run) + rest, block[..i - run])
         == DecodeAc(decode, AcBits(ac, block, i + 1, 0) + rest, block[..i + 1])
  {
    AcBitsCoefficient(ac, block, i, run);
    var coefficient := CodeBits(ac[Symbol(run, BitLength(Abs(block[i])))]) + MagBits(block[i]);
    ConcatAssoc(coefficient, AcBits(ac, block, i + 1, 0), rest);
    DecodeCoefficient(ac, decode, vals, block[..i - run], run, block[i], AcBits(ac, block, i + 1, 0) + rest);
    ExtendByZeros(block, i, run, run);
    assert block[..i] + [block[i]] == block[..i + 1];
  }

  /** A coefficient's bits come before those of the levels after it. */
  lemma AcBitsCoefficient(ac: seq<HCode>, block: seq<int>, i: nat, run: nat)
    requires |ac| == 256 && IsBlock(block) && i < 64 && block[i] != 0 && run < 16
    ensures BitLength(Abs(block[i])) <= 10
    ensures AcBits(ac, block, i, run)
         == CodeBits(ac[Symbol(run, BitLength(Abs(block[i])))]) + MagBits(block[i]) + AcBits(ac, block, i + 1, 0)
  {
    LevelBitLength(block[i]);
  }

  lemma AcBitsRunOf16(ac: seq<HCode>, block: seq<int>, i: nat, run: nat)
    requires |ac| == 256 && IsBlock(block) && i < 64 && block[i] != 0 && 16 <= run
    ensures AcBits(ac, block, i, run) == CodeBits(ac[ZRL]) + AcBits(ac, block, i, run - 16)
  {
  }

  lemma DecodeBlockCorrect(dc: seq<HCode>, dcDecode: SymbolDecoder, dcVals: seq<byte>, ac: seq<HCode>, acDecode: SymbolDecoder, acVals: seq<byte>,
                           block: seq<int>, pred: int, rest: seq<bool>)
    requires Undoes(dcDecode, dc, dcVals) && CompleteDc(dcVals)
    requires Undoes(acDecode, ac, acVals) && CompleteAc(acVals)
    requires IsBlock(block) && IsLevel(pred)
    ensures DecodeBlock(dcDecode, acDecode, BlockBits(dc, ac, block, pred) + rest, pred) == Some((block, rest))
  {
    var after := AcBits(ac, block, 1, 0) + rest;
    ConcatAssoc(DcBits(dc, block[0] - pred), AcBits(ac, block, 1, 0), rest);
    DecodeDcCorrect(dc, dcDecode, dcVals, block[0], pred, after);
    DecodeAcCorrect(ac, acDecode, acVals, block, 1, 0, rest);
    assert block[..1] == [block[0]];
  }

  // ---- the encoder ----

  /** A table in use: `codes` are its entries, those of `spec`. */
  ghost predicate Holds(table: array<HCode>, codes: seq<HCode>, spec: HuffSpec)
    reads table
  {
    table[..] == codes && Encodes(codes, spec)
  }

  /** Writes the code of one value. */
  method PutSymbol(table: array<HCode>, v: byte, bw: BitWriter, ghost codes: seq<HCode>, ghost spec: HuffSpec)
    requires Holds(table, codes, spec) && v in spec.vals
    requires bw.Valid()
    modifies bw
    ensures bw.Valid() && bw.head == old(bw.head) && old(bw.raw) <= bw.raw
    ensures bw.Bits() == old(bw.Bits()) + CodeBits(codes[v])
  {
    TableCodesFit(codes, spec, v);
    bw.PutBits(table[v].code, table[v].len);
  }

  method PutMag(v: int, size: nat, bw: BitWriter)
    requires Abs(v) < 0x1_0000 && size == BitLength(Abs(v)) && v != 0
    requires bw.Valid()
    modifies bw
    ensures bw.Valid() && bw.head == old(bw.head) && old(bw.raw) <= bw.raw
    ensures bw.Bits() == old(bw.Bits()) + MagBits(v)
  {
    ExtendEncodeMag(v);
    bw.PutBits(EncodeMag(v, size), size);
  }

  /** Codes one block after its component's DC prediction, which becomes the block's DC level. */
  method EncodeBlock(block: array<int>, dcPred: array<int>, comp: nat, dcH: array<HCode>, acH: array<HCode>,
                     bw: BitWriter, ghost dc: seq<HCode>, ghost dcSpec: HuffSpec,
                     ghost ac: seq<HCode>, ghost acSpec: HuffSpec)
    requires IsBlock(block[..]) && comp < dcPred.Length && IsLevel(dcPred[comp])
    requires block != dcPred
    requires Holds(dcH, dc, dcSpec) && CompleteDc(dcSpec.vals) && Holds(acH, ac, acSpec) && CompleteAc(acSpec.vals)
    requires bw.Valid()
    modifies dcPred, bw
    ensures bw.Valid() && bw.head == old(bw.head) && old(bw.raw) <= bw.raw
    ensures bw.Bits() == old(bw.Bits()) + BlockBits(dc, ac, block[..], old(dcPred[comp]))
    ensures dcPred[..] == old(dcPred[..])[comp := block[0]]
  {
    var diff := block[0] - dcPred[comp];
    dcPred[comp] := block[0];
    PutDc(diff, dcH, bw, dc, dcSpec);
    PutAc(block, acH, bw, block[..], ac, acSpec);
    ConcatAssoc(old(bw.Bits()), DcBits(dc, diff), AcBits(ac, block[..], 1, 0));
  }

  /** The DC part of EncodeBlock. */
  method PutDc(diff: int, dcH: array<HCode>, bw: BitWriter, ghost dc: seq<HCode>, ghost dcSpec: HuffSpec)
    requires Abs(diff) <= 2 * MAX_LEVEL
    requires Holds(dcH, dc, dcSpec) && CompleteDc(dcSpec.vals)
    requires bw.Valid()
    modifies bw
    ensures bw.Valid() && bw.head == old(bw.head) && old(bw.raw) <= bw.raw
    ensures bw.Bits() == old(bw.Bits()) + DcBits(dc, diff)
  {
    LevelBitLength(diff);
    BitLengthBounds(Abs(diff));
    var size := MagnitudeBits(diff);
    PutSymbol(dcH, size, bw, dc, dcSpec);
    if size > 0 {
      PutMag(diff, size, bw);
    }
    ConcatAssoc(old(bw.Bits()), CodeBits(dc[size]), MagBits(diff));
  }

  /** The AC part of EncodeBlock. */
  method PutAc(block: array<int>, acH: array<HCode>, bw: BitWriter, ghost levels: seq<int>, ghost ac: seq<HCode>,
               ghost acSpec: HuffSpec)
    requires block[..] == levels && IsBlock(levels)
    requires Holds(acH, ac, acSpec) && CompleteAc(acSpec.vals)
    requires bw.Valid()
    modifies bw
    ensures bw.Valid() && bw.head == old(bw.head) && old(bw.raw) <= bw.raw
    ensures bw.Bits() == old(bw.Bits()) + AcBits(ac, levels, 1, 0)
  {
    ghost var goal := bw.Bits() + AcBits(ac, levels, 1, 0);
    var run: nat := 0;
    var i: nat := 1;
    while i < 64
      invariant 1 <= i <= 64
      invariant bw.Valid() && bw.head == old(bw.head) && old(bw.raw) <= bw.raw
      invariant bw.Bits() + AcBits(ac, levels, i, run) == goal
    {
      if block[i] == 0 {
        run := run + 1;
      } else {
        run := PutRuns(acH, bw, run, i, levels, ac, acSpec);
        PutCoefficient(block[i], run, acH, bw, i, levels, ac, acSpec);
        run := 0;
      }
      i := i + 1;
    }
    if run > 0 {
      PutSymbol(acH, EOB, bw, ac, acSpec);
    } else {
      assert AcBits(ac, levels, i, run) == [];
    }
  }

  method PutCoefficient(v: int, run: nat, acH: array<HCode>, bw: BitWriter, ghost i: nat, ghost levels: seq<int>,
                        ghost ac: seq<HCode>, ghost acSpec: HuffSpec)
    requires IsBlock(levels) && i < 64 && v == levels[i] != 0 && run < 16
    requires Holds(acH, ac, acSpec) && CompleteAc(acSpec.vals)
    requires bw.Valid()
    modifies bw
    ensures bw.Valid() && bw.head == old(bw.head) && old(bw.raw) <= bw.raw
    ensures bw.Bits() + AcBits(ac, levels, i + 1, 0) == old(bw.Bits()) + AcBits(ac, levels, i, run)
  {
    LevelBitLength(v);
    BitLengthBounds(Abs(v));
    AcBitsCoefficient(ac, levels, i, run);
    var size := MagnitudeBits(v);
    ghost var code := CodeBits(ac[Symbol(run, size)]);
    ConcatAssoc(bw.Bits(), code + MagBits(v), AcBits(ac, levels, i + 1, 0));
    ConcatAssoc(bw.Bits(), code, MagBits(v));
    PutSymbol(acH, Symbol(run, size), bw, ac, acSpec);
    PutMag(v, size, bw);
  }

  /** Writes a ZRL for each 16 zeros of the run. */
  method PutRuns(acH: array<HCode>, bw: BitWriter, run0: nat, ghost i: nat, ghost levels: seq<int>,
                 ghost ac: seq<HCode>, ghost acSpec: HuffSpec)
    returns (run: nat)
    requires IsBlock(levels) && i < 64 && levels[i] != 0
    requires Holds(acH, ac, acSpec) && CompleteAc(acSpec.vals)
    requires bw.Valid()
    modifies bw
    ensures bw.Valid() && bw.head == old(bw.head) && old(bw.raw) <= bw.raw
    ensures run < 16
    ensures bw.Bits() + AcBits(ac, levels, i, run) == old(bw.Bits()) + AcBits(ac, levels, i, run0)
  {
    hide AcBits, CodeBits;
    run := run0;
    while run >= 16
      invariant bw.Valid() && bw.head == old(bw.head) && old(bw.raw) <= bw.raw
      invariant bw.Bits() + AcBits(ac, levels, i, run) == old(bw.Bits()) + AcBits(ac, levels, i, run0)
    {
      AcBitsRunOf16(ac, levels, i, run);
      ConcatAssoc(bw.Bits(), CodeBits(ac[ZRL]), AcBits(ac, levels, i, run - 16));
      PutSymbol(acH, ZRL, bw, ac, acSpec);
      run := run - 16;
    }
  }
}
