/** A whole entropy-coded segment: blocks of three components with per-component DC prediction, and the
    decoder that recovers all of them. */
module JpegScan {
  import opened Results
  import opened Words
  import opened JpegHuffman
  import opened JpegBitWriter
  import opened JpegBlock
  import opened JpegTables

  /** A block as coded: its component (0 is luminance) and its levels. */
  datatype Coded = Coded(comp: nat, levels: seq<int>)

  ghost predicate IsCoded(b: Coded) {
    b.comp < 3 && IsBlock(b.levels)
  }

  ghost predicate AllCoded(blocks: seq<Coded>) {
    forall i :: 0 <= i < |blocks| ==> IsCoded(blocks[i])
  }

  lemma AllCodedAppend(a: seq<Coded>, b: seq<Coded>)
    requires AllCoded(a) && AllCoded(b)
    ensures AllCoded(a + b)
  {
  }

  /** The DC prediction for a component: the DC level of its latest block, or zero. */
  function PredOf(blocks: seq<Coded>, comp: nat): (p: int)
    requires AllCoded(blocks)
    ensures IsLevel(p)
  {
    if blocks == [] then 0
    else if blocks[|blocks| - 1].comp == comp then blocks[|blocks| - 1].levels[0]
    else PredOf(blocks[..|blocks| - 1], comp)
  }

  function Preds(blocks: seq<Coded>): (p: seq<int>)
    requires AllCoded(blocks)
    ensures |p| == 3
    ensures forall c: nat :: c < 3 ==> p[c] == PredOf(blocks, c) && IsLevel(p[c])
  {
    [PredOf(blocks, 0), PredOf(blocks, 1), PredOf(blocks, 2)]
  }

  /** Coding a block changes its own component's prediction only. */
  lemma PredsAppend(blocks: seq<Coded>, b: Coded)
    requires AllCoded(blocks) && IsCoded(b)
    ensures AllCoded(blocks + [b])
    ensures Preds(blocks + [b]) == Preds(blocks)[b.comp := b.levels[0]]
  {
    assert (blocks + [b])[..|blocks|] == blocks;
  }

  /** The code tables of the two table classes. */
  datatype Codes = Codes(dcLum: seq<HCode>, acLum: seq<HCode>, dcChr: seq<HCode>, acChr: seq<HCode>)

  /** The four tables built from the Annex K specifications. */
  ghost predicate Standard(t: Codes) {
    Encodes(t.dcLum, DC_LUM) && Encodes(t.acLum, AC_LUM) && Encodes(t.dcChr, DC_CHR) && Encodes(t.acChr, AC_CHR)
  }

  ghost predicate Sized(t: Codes) {
    |t.dcLum| == |t.acLum| == |t.dcChr| == |t.acChr| == 256
  }

  function CodedBits(t: Codes, b: Coded, pred: int): seq<bool>
    requires Sized(t) && IsCoded(b) && IsLevel(pred)
  {
    if b.comp == 0 then BlockBits(t.dcLum, t.acLum, b.levels, pred)
    else BlockBits(t.dcChr, t.acChr, b.levels, pred)
  }

  function ScanBits(t: Codes, blocks: seq<Coded>): seq<bool>
    requires Sized(t) && AllCoded(blocks)
  {
    if blocks == [] then []
    else
      var init, b := blocks[..|blocks| - 1], blocks[|blocks| - 1];
      ScanBits(t, init) + CodedBits(t, b, PredOf(init, b.comp))
  }

  lemma ScanBitsAppend(t: Codes, blocks: seq<Coded>, b: Coded)
    requires Sized(t) && AllCoded(blocks) && IsCoded(b)
    ensures AllCoded(blocks + [b])
    ensures ScanBits(t, blocks + [b]) == ScanBits(t, blocks) + CodedBits(t, b, PredOf(blocks, b.comp))
  {
    assert (blocks + [b])[..|blocks|] == blocks;
  }

  /** The bits of `todo` when `done` has been coded before it. */
  function BitsAfter(t: Codes, done: seq<Coded>, todo: seq<Coded>): seq<bool>
    requires Sized(t) && AllCoded(done) && AllCoded(todo)
    decreases |todo|
  {
    if todo == [] then []
    else CodedBits(t, todo[0], PredOf(done, todo[0].comp)) + BitsAfter(t, done + [todo[0]], todo[1..])
  }

  lemma {:induction false} ScanBitsSplit(t: Codes, done: seq<Coded>, todo: seq<Coded>)
    requires Sized(t) && AllCoded(done) && AllCoded(todo)
    ensures AllCoded(done + todo)
    ensures ScanBits(t, done) + BitsAfter(t, done, todo) == ScanBits(t, done + todo)
    decreases |todo|
  {
    if todo == [] {
      assert done + todo == done;
      assert ScanBits(t, done) + [] == ScanBits(t, done);
    } else {
      assert done + [todo[0]] + todo[1..] == done + todo;
      AllCodedAppend(done, [todo[0]]);
      ScanBitsSplit(t, done + [todo[0]], todo[1..]);
      MoveBlock(t, done, todo);
    }
  }

  lemma MoveBlock(t: Codes, done: seq<Coded>, todo: seq<Coded>)
    requires Sized(t) && AllCoded(done) && AllCoded(todo) && todo != [] && AllCoded(done + [todo[0]])
    ensures ScanBits(t, done) + BitsAfter(t, done, todo)
         == ScanBits(t, done + [todo[0]]) + BitsAfter(t, done + [todo[0]], todo[1..])
  {
    ScanBitsAppend(t, done, todo[0]);
    ConcatAssoc(ScanBits(t, done), CodedBits(t, todo[0], PredOf(done, todo[0].comp)),
                BitsAfter(t, done + [todo[0]], todo[1..]));
  }

  lemma BitsFromStart(t: Codes, blocks: seq<Coded>)
    requires Sized(t) && AllCoded(blocks)
    ensures BitsAfter(t, [], blocks) == ScanBits(t, blocks)
  {
    ScanBitsSplit(t, [], blocks);
    assert [] + blocks == blocks;
    assert [] + BitsAfter(t, [], blocks) == BitsAfter(t, [], blocks);
  }

  // ---- decoding ----

  /** The symbol decoders of the two table classes. */
  datatype Decoders = Decoders(dcLum: SymbolDecoder, acLum: SymbolDecoder, dcChr: SymbolDecoder, acChr: SymbolDecoder)

  function StandardDecoders(): Decoders {
    DcLumTable();
    AcLumTable();
    DcChrTable();
    AcChrTable();
    Decoders(DecoderOf(DC_LUM), DecoderOf(AC_LUM), DecoderOf(DC_CHR), DecoderOf(AC_CHR))
  }

  function DecodeCoded(d: Decoders, comp: nat, bits: seq<bool>, pred: int): Option<(seq<int>, seq<bool>)> {
    if comp == 0 then DecodeBlock(d.dcLum, d.acLum, bits, pred) else DecodeBlock(d.dcChr, d.acChr, bits, pred)
  }

  /** Decodes a block for each of `comps`; `preds` are the DC predictions. */
  function DecodeScan(d: Decoders, comps: seq<nat>, bits: seq<bool>, preds: seq<int>): Option<(seq<Coded>, seq<bool>)>
    requires |preds| == 3 && forall i :: 0 <= i < |comps| ==> comps[i] < 3
  {
    if comps == [] then Some(([], bits))
    else
      match DecodeCoded(d, comps[0], bits, preds[comps[0]])
      case None => None
      case Some(first) =>
        if first.0 == [] then None
        else
          match DecodeScan(d, comps[1..], first.1, preds[comps[0] := first.0[0]])
          case None => None
          case Some(others) => Some(([Coded(comps[0], first.0)] + others.0, others.1))
  }

  function Comps(blocks: seq<Coded>): (c: seq<nat>)
    ensures |c| == |blocks|
  {
    seq(|blocks|, i requires 0 <= i < |blocks| => blocks[i].comp)
  }

  ghost predicate DecodersUndo(d: Decoders, t: Codes) {
    && Undoes(d.dcLum, t.dcLum, DC_LUM.vals) && CompleteDc(DC_LUM.vals)
    && Undoes(d.acLum, t.acLum, AC_LUM.vals) && CompleteAc(AC_LUM.vals)
    && Undoes(d.dcChr, t.dcChr, DC_CHR.vals) && CompleteDc(DC_CHR.vals)
    && Undoes(d.acChr, t.acChr, AC_CHR.vals) && CompleteAc(AC_CHR.vals)
  }

  lemma StandardDecodersUndo(t: Codes)
    requires Standard(t)
    ensures Sized(t) && DecodersUndo(StandardDecoders(), t)
  {
    DcLumTable();
    AcLumTable();
    DcChrTable();
    AcChrTable();
    DecoderUndoes(t.dcLum, DC_LUM);
    DecoderUndoes(t.acLum, AC_LUM);
    DecoderUndoes(t.dcChr, DC_CHR);
    DecoderUndoes(t.acChr, AC_CHR);
  }

  lemma DecodeCodedCorrect(d: Decoders, t: Codes, b: Coded, pred: int, rest: seq<bool>)
    requires Sized(t) && DecodersUndo(d, t) && IsCoded(b) && IsLevel(pred)
    ensures DecodeCoded(d, b.comp, CodedBits(t, b, pred) + rest, pred) == Some((b.levels, rest))
  {
    if b.comp == 0 {
      DecodeBlockCorrect(t.dcLum, d.dcLum, DC_LUM.vals, t.acLum, d.acLum, AC_LUM.vals, b.levels, pred, rest);
    } else {
      DecodeBlockCorrect(t.dcChr, d.dcChr, DC_CHR.vals, t.acChr, d.acChr, AC_CHR.vals, b.levels, pred, rest);
    }
  }

  lemma {:induction false} DecodeScanCorrect(d: Decoders, t: Codes, done: seq<Coded>, todo: seq<Coded>, rest: seq<bool>)
    requires Sized(t) && DecodersUndo(d, t) && AllCoded(done) && AllCoded(todo)
    ensures DecodeScan(d, Comps(todo), BitsAfter(t, done, todo) + rest, Preds(done)) == Some((todo, rest))
    decreases |todo|
  {
    if todo == [] {
      assert BitsAfter(t, done, todo) + rest == rest;
    } else {
      var b, later := todo[0], todo[1..];
      PredsAppend(done, b);
      DecodeScanCorrect(d, t, done + [b], later, rest);
      DecodeScanStep(d, t, done, b, later, rest);
      assert todo == [b] + later;
    }
  }

  lemma DecodeScanStep(d: Decoders, t: Codes, done: seq<Coded>, b: Coded, later: seq<Coded>, rest: seq<bool>)
    requires Sized(t) && DecodersUndo(d, t) && AllCoded(done) && IsCoded(b) && AllCoded(later)
    requires AllCoded(done + [b])
    requires DecodeScan(d, Comps(later), BitsAfter(t, done + [b], later) + rest, Preds(done)[b.comp := b.levels[0]])
          == Some((later, rest))
    ensures AllCoded([b] + later)
    ensures DecodeScan(d, Comps([b] + later), BitsAfter(t, done, [b] + later) + rest, Preds(done))
         == Some(([b] + later, rest))
  {
    BitsOfFirst(t, done, b, later, rest);
    var pred := PredOf(done, b.comp);
    DecodeCodedCorrect(d, t, b, pred, BitsAfter(t, done + [b], later) + rest);
    assert Comps([b] + later)[1..] == Comps(later);
  }

  lemma BitsOfFirst(t: Codes, done: seq<Coded>, b: Coded, later: seq<Coded>, rest: seq<bool>)
    requires Sized(t) && AllCoded(done) && IsCoded(b) && AllCoded(later) && AllCoded(done + [b])
    ensures AllCoded([b] + later)
    ensures BitsAfter(t, done, [b] + later) + rest
         == CodedBits(t, b, PredOf(done, b.comp)) + (BitsAfter(t, done + [b], later) + rest)
  {
    assert ([b] + later)[1..] == later;
    ConcatAssoc(CodedBits(t, b, PredOf(done, b.comp)), BitsAfter(t, done + [b], later), rest);
  }

  /** The entropy round trip: decoding with the same tables, from zero predictions, gives back exactly the
      blocks that were coded, in order, and leaves exactly the bits that followed. */
  lemma ScanRoundTrip(t: Codes, blocks: seq<Coded>, rest: seq<bool>)
    requires Standard(t) && AllCoded(blocks)
    ensures Sized(t)
    ensures DecodeScan(StandardDecoders(), Comps(blocks), ScanBits(t, blocks) + rest, [0, 0, 0])
         == Some((blocks, rest))
  {
    StandardDecodersUndo(t);
    DecodeScanCorrect(StandardDecoders(), t, [], blocks, rest);
    BitsFromStart(t, blocks);
    assert Preds([]) == [0, 0, 0];
  }
}
