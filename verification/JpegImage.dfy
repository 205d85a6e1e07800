/** The encoder's loops: planes, block fetches, and the walk over the 16x16 units. */
module JpegImage {
  import opened Results
  import opened Words
  import opened JpegHuffman
  import opened JpegBitWriter
  import opened JpegBlock
  import opened JpegTables
  import opened JpegDct
  import opened JpegScan
  import opened JpegEncoder
  import JpegDecoder

  function PaddedWidth(img: Image): nat {
    UnitsWide(img) * 16
  }

  function PaddedHeight(img: Image): nat {
    UnitsHigh(img) * 16
  }

  /** The pixel at a row-major index of the padded picture. */
  function PixelAtIndex(img: Image, i: nat): Ycc
    requires ValidImage(img)
  {
    DivModIdentity(i, PaddedWidth(img));
    PixelAt(img, i % PaddedWidth(img), i / PaddedWidth(img))
  }

  function Component(p: Ycc, comp: nat): byte {
    if comp == 0 then p.y else if comp == 1 then p.cb else p.cr
  }

  /** `a` is a full-resolution plane, row by row, padded to whole units. */
  ghost predicate IsPlane(a: array<byte>, img: Image, comp: nat)
    requires ValidImage(img)
    reads a
  {
    && a.Length == PaddedHeight(img) * PaddedWidth(img)
    && forall i :: 0 <= i < a.Length ==> a[i] == Component(PixelAtIndex(img, i), comp)
  }

  function RowMajor(x: nat, y: nat, w: nat): nat {
    y * w + x
  }

  lemma PlaneIndex(img: Image, x: nat, y: nat)
    requires ValidImage(img) && x < PaddedWidth(img) && y < PaddedHeight(img)
    ensures RowMajor(x, y, PaddedWidth(img)) < PaddedHeight(img) * PaddedWidth(img)
    ensures PixelAtIndex(img, RowMajor(x, y, PaddedWidth(img))) == PixelAt(img, x, y)
  {
    hide PixelAt;
    MulStep(y, PaddedHeight(img), PaddedWidth(img));
    IndexSplit(y, x, PaddedWidth(img));
  }

  /** The row-major index of (x, y) in a padded plane. */
  function Index(img: Image, x: nat, y: nat): (i: nat)
    requires ValidImage(img) && x < PaddedWidth(img) && y < PaddedHeight(img)
    ensures i < PaddedHeight(img) * PaddedWidth(img) && PixelAtIndex(img, i) == PixelAt(img, x, y)
  {
    hide *;
    PlaneIndex(img, x, y);
    RowMajor(x, y, PaddedWidth(img))
  }

  /** The first `n` samples of the three planes are done. */
  ghost predicate PlanesUpTo(yp: array<byte>, cbp: array<byte>, crp: array<byte>, img: Image, n: nat)
    requires ValidImage(img)
    reads yp, cbp, crp
  {
    && n <= yp.Length == cbp.Length == crp.Length
    && forall i :: 0 <= i < n ==>
         var p := PixelAtIndex(img, i);
         yp[i] == p.y && cbp[i] == p.cb && crp[i] == p.cr
  }

  /** Fills row `py` of the three planes, which starts at index `start`. */
  method BuildRow(img: Image, py: nat, start: nat, yp: array<byte>, cbp: array<byte>, crp: array<byte>)
    requires ValidImage(img) && py < PaddedHeight(img) && start == RowMajor(0, py, PaddedWidth(img))
    requires yp != cbp && cbp != crp && yp != crp
    requires yp.Length == cbp.Length == crp.Length && start + PaddedWidth(img) <= yp.Length
    requires PlanesUpTo(yp, cbp, crp, img, start)
    modifies yp, cbp, crp
    ensures PlanesUpTo(yp, cbp, crp, img, start + PaddedWidth(img))
  {
    hide RowMajor, PixelAtIndex, PixelAt, PaddedWidth, PaddedHeight, ValidImage;
    var px: nat := 0;
    while px < PaddedWidth(img)
      invariant px <= PaddedWidth(img)
      invariant PlanesUpTo(yp, cbp, crp, img, start + px)
    {
      PlaneIndex(img, px, py);
      RowMajorFrom(px, py, PaddedWidth(img));
      var p := PixelAt(img, px, py);
      yp[start + px] := p.y;
      cbp[start + px] := p.cb;
      crp[start + px] := p.cr;
      px := px + 1;
    }
  }

  lemma RowMajorFrom(x: nat, y: nat, w: nat)
    ensures RowMajor(x, y, w) == RowMajor(0, y, w) + x
    ensures RowMajor(0, y + 1, w) == RowMajor(0, y, w) + w
    ensures RowMajor(0, 0, w) == 0
  {
  }

  lemma RowFits(y: nat, h: nat, w: nat)
    requires y <= h
    ensures RowMajor(0, y, w) <= h * w
    ensures y < h ==> RowMajor(0, y, w) + w <= h * w
    ensures RowMajor(0, h, w) == h * w
  {
    if y < h {
      MulStep(y, h, w);
    }
  }

  method BuildPlanes(img: Image) returns (yp: array<byte>, cbp: array<byte>, crp: array<byte>)
    requires ValidImage(img)
    ensures fresh(yp) && fresh(cbp) && fresh(crp)
    ensures IsPlane(yp, img, 0) && IsPlane(cbp, img, 1) && IsPlane(crp, img, 2)
  {
    hide RowMajor, PixelAtIndex, PixelAt, PaddedWidth, PaddedHeight, ValidImage;
    var pw, ph := PaddedWidth(img), PaddedHeight(img);
    yp := new byte[ph * pw];
    cbp := new byte[ph * pw];
    crp := new byte[ph * pw];
    var py: nat := 0;
    RowMajorFrom(0, 0, pw);
    RowFits(0, ph, pw);
    while py < ph
      invariant py <= ph
      invariant PlanesUpTo(yp, cbp, crp, img, RowMajor(0, py, pw))
    {
      RowFits(py, ph, pw);
      RowMajorFrom(0, py, pw);
      BuildRow(img, py, RowMajor(0, py, pw), yp, cbp, crp);
      py := py + 1;
    }
  }

  // ---- the entropy coder ----

  datatype Specs = Specs(dcLum: HuffSpec, acLum: HuffSpec, dcChr: HuffSpec, acChr: HuffSpec)

  /** The tables have a code for everything a block can need. */
  ghost predicate Usable(t: Codes, s: Specs) {
    && Sized(t)
    && Encodes(t.dcLum, s.dcLum) && Encodes(t.acLum, s.acLum) && Encodes(t.dcChr, s.dcChr) && Encodes(t.acChr, s.acChr)
    && CompleteDc(s.dcLum.vals) && CompleteAc(s.acLum.vals) && CompleteDc(s.dcChr.vals) && CompleteAc(s.acChr.vals)
  }

  method NewTable(spec: HuffSpec) returns (t: array<HCode>)
    requires Proper(spec)
    ensures fresh(t) && Encodes(t[..], spec)
  {
    var zero := HCode(0, 0);
    t := new HCode[256](_ => zero);
    BuildHuff(spec, t);
  }

  /** The state of the entropy coder between blocks. */
  lemma NothingCoded(t: Codes, s: Specs)
    requires Usable(t, s)
    ensures AllCoded([]) && Preds([]) == [0, 0, 0] && ScanBits(t, []) == []
  {
  }

  class ScanEncoder {
    const bw: BitWriter
    const dcPred: array<int>
    const block: array<int>
    const px: array2<byte>
    const dcLum: array<HCode>
    const acLum: array<HCode>
    const dcChr: array<HCode>
    const acChr: array<HCode>
    ghost const codes: Codes
    ghost const specs: Specs
    ghost var blocks: seq<Coded>  // the blocks coded so far

    ghost predicate Shapes() {
      && dcPred.Length == 3 && block.Length == 64 && px.Length0 == 8 && px.Length1 == 8
      && dcPred != block
      && Usable(codes, specs)
    }

    ghost predicate TablesHold()
      reads dcLum, acLum, dcChr, acChr
    {
      dcLum[..] == codes.dcLum && acLum[..] == codes.acLum && dcChr[..] == codes.dcChr && acChr[..] == codes.acChr
    }

    ghost predicate PredsHold()
      requires AllCoded(blocks)
      reads this, dcPred
    {
      dcPred[..] == Preds(blocks)
    }

    ghost predicate Valid()
      reads this, bw, dcPred, dcLum, acLum, dcChr, acChr
    {
      && Shapes() && TablesHold() && bw.Valid() && AllCoded(blocks) && PredsHold()
      && bw.Bits() == ScanBits(codes, blocks)
    }

    constructor (header: seq<byte>, dl: array<HCode>, al: array<HCode>, dc: array<HCode>, ac: array<HCode>,
                 ghost t: Codes, ghost s: Specs)
      requires dl[..] == t.dcLum && al[..] == t.acLum && dc[..] == t.dcChr && ac[..] == t.acChr && Usable(t, s)
      ensures Valid() && blocks == [] && bw.head == header && codes == t
      ensures fresh(bw) && fresh(dcPred) && fresh(block) && fresh(px)
    {
      hide Usable, Sized, IsCoded, AllCoded, Preds, PredOf, ScanBits, Encodes, CompleteDc, CompleteAc;
      hide BitWriter.Valid, BitWriter.Consistent, BitWriter.Bits, InTopBits, RawBits, Stuff;
      bw := new BitWriter(header);
      dcLum, acLum, dcChr, acChr := dl, al, dc, ac;
      dcPred := new int[] [0, 0, 0];
      block := new int[64];
      px := new byte[8, 8];
      codes, specs := t, s;
      blocks := [];
      new;
      NothingCoded(codes, specs);
      assert dcPred[..] == [0, 0, 0];
    }

    lemma ShapesOf()
      requires Valid()
      ensures px.Length0 == 8 && px.Length1 == 8 && block.Length == 64 && block != dcPred
    {
    }

    /** Transforms and codes the samples in `px`. */
    method PutBlock(comp: nat, q: Table8)
      requires Valid() && comp < 3 && Steps(q)
      modifies this`blocks, bw, dcPred, block
      ensures Valid() && bw.head == old(bw.head)
      ensures blocks == old(blocks) + [Coded(comp, Levels(PlaneOf(px), q))]
    {
      hide *;
      ShapesOf();
      ghost var coded := Coded(comp, Levels(PlaneOf(px), q));
      IsCodedLevels(comp, PlaneOf(px), q);
      DctQuantBlock(px, q, block);
      PutLevels(comp, coded);
    }

    method PutLevels(comp: nat, ghost coded: Coded)
      requires Valid() && comp < 3 && coded == Coded(comp, block[..]) && IsCoded(coded)
      modifies this`blocks, bw, dcPred
      ensures Valid() && bw.head == old(bw.head)
      ensures blocks == old(blocks) + [coded]
    {
      hide BlockBits, PredOf, Encodes, CompleteAc, CompleteDc;
      ScanBitsAppend(codes, blocks, coded);
      PredsAppend(blocks, coded);
      if comp == 0 {
        EncodeBlock(block, dcPred, comp, dcLum, acLum, bw, codes.dcLum, specs.dcLum, codes.acLum, specs.acLum);
      } else {
        EncodeBlock(block, dcPred, comp, dcChr, acChr, bw, codes.dcChr, specs.dcChr, codes.acChr, specs.acChr);
      }
      blocks := blocks + [coded];
    }

    /** Fetches and codes a luminance block of unit (mx, my). */
    method PutLuma(yp: array<byte>, img: Image, mx: nat, my: nat, sub: nat)
      requires Valid() && ValidImage(img) && IsPlane(yp, img, 0)
      requires mx < UnitsWide(img) && my < UnitsHigh(img) && sub < 4
      modifies this`blocks, bw, dcPred, block, px
      ensures Valid() && bw.head == old(bw.head)
      ensures blocks == old(blocks) + [UnitBlock(img, mx, my, sub)]
    {
      hide *;
      ShapesOf();
      LumaUnit(img, mx, my, sub);
      FetchLuma(px, yp, img, mx * 2 + sub % 2, my * 2 + sub / 2);
      PutBlock(0, QUANT_LUMA);
    }

    /** Fetches and codes a chrominance block of unit (mx, my). */
    method PutChroma(plane: array<byte>, img: Image, mx: nat, my: nat, comp: nat)
      requires Valid() && ValidImage(img) && 1 <= comp <= 2 && IsPlane(plane, img, comp)
      requires mx < UnitsWide(img) && my < UnitsHigh(img)
      modifies this`blocks, bw, dcPred, block, px
      ensures Valid() && bw.head == old(bw.head)
      ensures blocks == old(blocks) + [UnitBlock(img, mx, my, comp + 3)]
    {
      hide *;
      ShapesOf();
      ChromaUnit(img, mx, my, comp);
      WithinPlane(img, mx, my);
      FetchChroma(px, plane, img, mx * 16, my * 16, comp);
      PutBlock(comp, QUANT_CHROMA);
    }
  }

  lemma IsCodedLevels(comp: nat, p: Plane, q: Table8)
    requires comp < 3 && Steps(q)
    ensures IsCoded(Coded(comp, Levels(p, q)))
  {
  }

  lemma WithinPlane(img: Image, mx: nat, my: nat)
    requires mx < UnitsWide(img) && my < UnitsHigh(img)
    ensures mx * 16 + 16 <= PaddedWidth(img) && my * 16 + 16 <= PaddedHeight(img)
  {
  }

  lemma LumaUnit(img: Image, mx: nat, my: nat, sub: nat)
    requires ValidImage(img) && sub < 4
    ensures Steps(QUANT_LUMA)
    ensures UnitBlock(img, mx, my, sub) == Coded(0, Levels(LumaPlane(img, mx * 2 + sub % 2, my * 2 + sub / 2), QUANT_LUMA))
  {
    QuantTablesOk();
  }

  lemma ChromaUnit(img: Image, mx: nat, my: nat, comp: nat)
    requires ValidImage(img) && 1 <= comp <= 2
    ensures Steps(QUANT_CHROMA)
    ensures UnitBlock(img, mx, my, comp + 3) == Coded(comp, Levels(ChromaPlane(img, comp, mx * 16, my * 16), QUANT_CHROMA))
  {
    QuantTablesOk();
  }

  lemma LumaWithin(img: Image, col: nat, row: nat)
    requires col < 2 * UnitsWide(img) && row < 2 * UnitsHigh(img)
    ensures col * 8 + 8 <= PaddedWidth(img) && row * 8 + 8 <= PaddedHeight(img)
  {
  }

  lemma LumaSample(yp: array<byte>, img: Image, col: nat, row: nat, xx: nat, yy: nat)
    requires ValidImage(img) && IsPlane(yp, img, 0) && xx < 8 && yy < 8
    requires col * 8 + 8 <= PaddedWidth(img) && row * 8 + 8 <= PaddedHeight(img)
    ensures var i := Index(img, col * 8 + xx, row * 8 + yy);
            i < yp.Length && yp[i] == LumaPlane(img, col, row)[yy][xx]
  {
    hide PixelAt, PaddedWidth, PaddedHeight;
  }

  /** Copies an 8x8 luminance block into `px`. */
  method FetchLuma(px: array2<byte>, yp: array<byte>, img: Image, col: nat, row: nat)
    requires ValidImage(img) && IsPlane(yp, img, 0) && px.Length0 == 8 && px.Length1 == 8
    requires col < 2 * UnitsWide(img) && row < 2 * UnitsHigh(img)
    modifies px
    ensures PlaneOf(px) == LumaPlane(img, col, row)
  {
    hide *;
    LumaWithin(img, col, row);
    var px0, py0 := col * 8, row * 8;
    ghost var p := LumaPlane(img, col, row);
    var yy: nat := 0;
    while yy < 8
      invariant yy <= 8
      invariant forall x, y :: 0 <= x < 8 && 0 <= y < yy ==> px[y, x] == p[y][x]
    {
      var xx: nat := 0;
      while xx < 8
        invariant xx <= 8
        invariant forall x, y :: 0 <= x < 8 && 0 <= y < yy ==> px[y, x] == p[y][x]
        invariant forall x :: 0 <= x < xx ==> px[yy, x] == p[yy][x]
      {
        LumaSample(yp, img, col, row, xx, yy);
        px[yy, xx] := yp[Index(img, px0 + xx, py0 + yy)];
        xx := xx + 1;
      }
      yy := yy + 1;
    }
    SamePlane(px, p);
  }

  /** The average of the 2x2 pixels at (x, y). */
  method AverageAt(plane: array<byte>, img: Image, x: nat, y: nat, comp: nat) returns (v: byte)
    requires ValidImage(img) && 1 <= comp <= 2 && IsPlane(plane, img, comp)
    requires x + 1 < PaddedWidth(img) && y + 1 < PaddedHeight(img)
    ensures v == ChromaAt(img, comp, x, y)
  {
    v := Average(plane[Index(img, x, y)], plane[Index(img, x + 1, y)],
                 plane[Index(img, x, y + 1)], plane[Index(img, x + 1, y + 1)]);
  }

  /** Copies an 8x8 block of chroma averages into `px`. */
  method FetchChroma(px: array2<byte>, plane: array<byte>, img: Image, px0: nat, py0: nat, comp: nat)
    requires ValidImage(img) && 1 <= comp <= 2 && IsPlane(plane, img, comp) && px.Length0 == 8 && px.Length1 == 8
    requires px0 + 16 <= PaddedWidth(img) && py0 + 16 <= PaddedHeight(img)
    modifies px
    ensures PlaneOf(px) == ChromaPlane(img, comp, px0, py0)
  {
    hide *;
    ghost var p := ChromaPlane(img, comp, px0, py0);
    var yy: nat := 0;
    while yy < 8
      invariant yy <= 8
      invariant forall x, y :: 0 <= x < 8 && 0 <= y < yy ==> px[y, x] == p[y][x]
    {
      var xx: nat := 0;
      while xx < 8
        invariant xx <= 8
        invariant forall x, y :: 0 <= x < 8 && 0 <= y < yy ==> px[y, x] == p[y][x]
        invariant forall x :: 0 <= x < xx ==> px[yy, x] == p[yy][x]
      {
        var v := AverageAt(plane, img, px0 + xx * 2, py0 + yy * 2, comp);
        px[yy, xx] := v;
        xx := xx + 1;
      }
      yy := yy + 1;
    }
    SamePlane(px, p);
  }

  lemma SamePlane(px: array2<byte>, p: Plane)
    requires px.Length0 == 8 && px.Length1 == 8
    requires forall x, y :: 0 <= x < 8 && 0 <= y < 8 ==> px[y, x] == p[y][x]
    ensures PlaneOf(px) == p
  {
    forall y | 0 <= y < 8
      ensures PlaneOf(px)[y] == p[y]
    {
    }
  }

  /** Codes the six blocks of a unit. */
  method PutUnit(enc: ScanEncoder, yp: array<byte>, cbp: array<byte>, crp: array<byte>, img: Image, mx: nat, my: nat)
    requires enc.Valid() && ValidImage(img) && IsPlane(yp, img, 0) && IsPlane(cbp, img, 1) && IsPlane(crp, img, 2)
    requires mx < UnitsWide(img) && my < UnitsHigh(img)
    modifies enc`blocks, enc.bw, enc.dcPred, enc.block, enc.px
    ensures enc.Valid() && enc.bw.head == old(enc.bw.head)
    ensures enc.blocks == old(enc.blocks) + UnitBlocks(img, mx, my)
  {
    hide *;
    ghost var before, unit := enc.blocks, UnitBlocks(img, mx, my);
    var sub: nat := 0;
    while sub < 4
      invariant sub <= 4
      invariant enc.Valid() && enc.bw.head == old(enc.bw.head)
      invariant enc.blocks == before + unit[..sub]
    {
      enc.PutLuma(yp, img, mx, my, sub);
      assert unit[sub] == UnitBlock(img, mx, my, sub);
      sub := sub + 1;
    }
    var comp: nat := 1;
    while comp <= 2
      invariant 1 <= comp <= 3
      invariant enc.Valid() && enc.bw.head == old(enc.bw.head)
      invariant enc.blocks == before + unit[..comp + 3]
    {
      enc.PutChroma(if comp == 1 then cbp else crp, img, mx, my, comp);
      assert unit[comp + 3] == UnitBlock(img, mx, my, comp + 3);
      comp := comp + 1;
    }
    assert unit[..6] == unit;
  }

  /** Codes every unit, row by row. */
  method PutUnits(enc: ScanEncoder, img: Image)
    requires enc.Valid() && enc.blocks == [] && ValidImage(img)
    modifies enc`blocks, enc.bw, enc.dcPred, enc.block, enc.px
    ensures enc.Valid() && enc.bw.head == old(enc.bw.head)
    ensures enc.blocks == ImageBlocks(img, UnitsHigh(img))
  {
    hide *;
    var yp, cbp, crp := BuildPlanes(img);
    StartOfImage(img);
    var my: nat := 0;
    while my < UnitsHigh(img)
      invariant my <= UnitsHigh(img)
      invariant enc.Valid() && enc.bw.head == old(enc.bw.head)
      invariant enc.blocks == ImageBlocks(img, my)
      invariant IsPlane(yp, img, 0) && IsPlane(cbp, img, 1) && IsPlane(crp, img, 2)
    {
      var mx: nat := 0;
      StartOfRow(img, my);
      while mx < UnitsWide(img)
        invariant mx <= UnitsWide(img)
        invariant enc.Valid() && enc.bw.head == old(enc.bw.head)
        invariant enc.blocks == ImageBlocks(img, my) + RowBlocks(img, my, mx)
        invariant IsPlane(yp, img, 0) && IsPlane(cbp, img, 1) && IsPlane(crp, img, 2)
      {
        PutUnit(enc, yp, cbp, crp, img, mx, my);
        NextUnit(img, mx, my);
        mx := mx + 1;
      }
      NextRow(img, my);
      my := my + 1;
    }
  }

  lemma StartOfImage(img: Image)
    requires ValidImage(img)
    ensures ImageBlocks(img, 0) == []
  {
  }

  lemma StartOfRow(img: Image, my: nat)
    requires ValidImage(img)
    ensures ImageBlocks(img, my) + RowBlocks(img, my, 0) == ImageBlocks(img, my)
  {
  }

  lemma NextUnit(img: Image, mx: nat, my: nat)
    requires ValidImage(img)
    ensures ImageBlocks(img, my) + RowBlocks(img, my, mx) + UnitBlocks(img, mx, my)
         == ImageBlocks(img, my) + RowBlocks(img, my, mx + 1)
  {
    ConcatAssoc(ImageBlocks(img, my), RowBlocks(img, my, mx), UnitBlocks(img, mx, my));
  }

  lemma NextRow(img: Image, my: nat)
    requires ValidImage(img)
    ensures ImageBlocks(img, my) + RowBlocks(img, my, UnitsWide(img)) == ImageBlocks(img, my + 1)
  {
  }

  /** Pads and ends the segment; what has been written is a file holding the coded blocks. */
  method Finish(enc: ScanEncoder) returns (out: seq<byte>)
    requires enc.Valid()
    modifies enc.bw
    ensures Sized(enc.codes) && AllCoded(enc.blocks)
    ensures out == FileOf(old(enc.bw.head), enc.codes, enc.blocks)
  {
    enc.bw.Flush();
    out := enc.bw.out + END_OF_IMAGE;
    RawBitsInjective(enc.bw.raw, SegmentBytes(enc.codes, enc.blocks));
  }

  method StandardTables() returns (dl: array<HCode>, al: array<HCode>, dc: array<HCode>, ac: array<HCode>)
    ensures fresh(dl) && fresh(al) && fresh(dc) && fresh(ac)
    ensures Usable(Codes(dl[..], al[..], dc[..], ac[..]), Specs(DC_LUM, AC_LUM, DC_CHR, AC_CHR))
    ensures Standard(Codes(dl[..], al[..], dc[..], ac[..]))
  {
    DcLumTable();
    AcLumTable();
    DcChrTable();
    AcChrTable();
    hide *;
    dl := NewTable(DC_LUM);
    al := NewTable(AC_LUM);
    dc := NewTable(DC_CHR);
    ac := NewTable(AC_CHR);
    TablesUsable(dl[..], al[..], dc[..], ac[..]);
  }

  lemma TablesUsable(dl: seq<HCode>, al: seq<HCode>, dc: seq<HCode>, ac: seq<HCode>)
    requires Encodes(dl, DC_LUM) && Encodes(al, AC_LUM) && Encodes(dc, DC_CHR) && Encodes(ac, AC_CHR)
    ensures Usable(Codes(dl, al, dc, ac), Specs(DC_LUM, AC_LUM, DC_CHR, AC_CHR))
    ensures Standard(Codes(dl, al, dc, ac))
  {
    DcLumTable();
    AcLumTable();
    DcChrTable();
    AcChrTable();
  }

  /** Encodes a picture: nothing for what the encoder refuses, otherwise a file that decodes, with nothing known but
      its bytes, to the picture's size, its quantisation tables and exactly its quantised blocks. */
  method EncodeJpeg(rgb: Option<seq<byte>>, width: int, height: int, rowStride: int) returns (out: seq<byte>)
    requires rgb.Some? && 0 < width <= 65535 && 0 < height <= 65535 && (rowStride < 0 || width * 3 <= rowStride) ==>
               (height - 1) * (if rowStride < 0 then width * 3 else rowStride) + width * 3 <= |rgb.value|
    ensures Refused(rgb, width, height, rowStride) ==> out == []
    ensures !Refused(rgb, width, height, rowStride) ==>
              var img := Image(rgb.value, width, height, if rowStride < 0 then width * 3 else rowStride);
              ValidImage(img)
              && DecodesTo(out, Header(width, height), ImageBlocks(img, UnitsHigh(img)))
              && JpegDecoder.DecodeJpeg(out) == Some(JpegDecoder.AsDecoded(img))
  {
    if rgb.None? || width <= 0 || height <= 0 {
      return [];
    }
    if width > 65535 || height > 65535 {
      return [];
    }
    var stride := if rowStride < 0 then width * 3 else rowStride;
    if stride < width * 3 {
      return [];
    }
    out := EncodeValid(Image(rgb.value, width, height, stride));
  }

  predicate Refused(rgb: Option<seq<byte>>, width: int, height: int, rowStride: int) {
    rgb.None? || width <= 0 || height <= 0 || width > 65535 || height > 65535 || 0 <= rowStride < width * 3
  }

  method EncodeValid(img: Image) returns (out: seq<byte>)
    requires ValidImage(img)
    ensures exists t: Codes :: Sized(t) && Standard(t) && out == JpegFile(img, t)
    ensures DecodesTo(out, Header(img.width, img.height), ImageBlocks(img, UnitsHigh(img)))
    ensures JpegDecoder.DecodeJpeg(out) == Some(JpegDecoder.AsDecoded(img))
  {
    hide *;
    var dl, al, dc, ac := StandardTables();
    ghost var t := Codes(dl[..], al[..], dc[..], ac[..]);
    var enc := new ScanEncoder(Header(img.width, img.height), dl, al, dc, ac, t, Specs(DC_LUM, AC_LUM, DC_CHR, AC_CHR));
    PutUnits(enc, img);
    out := Finish(enc);
    FileIs(img, t, out);
    FileRoundTrip(img, t);
    JpegDecoder.FileDecodes(img, t);
  }

  lemma FileIs(img: Image, t: Codes, out: seq<byte>)
    requires ValidImage(img) && Sized(t)
    requires out == FileOf(Header(img.width, img.height), t, ImageBlocks(img, UnitsHigh(img)))
    ensures out == JpegFile(img, t)
  {
  }
}
