/** The whole encoder: colour conversion, 16x16 units of six blocks, and the file around them. */
module JpegEncoder {
  import opened Results
  import opened Words
  import opened JpegHuffman
  import opened JpegBitWriter
  import opened JpegBlock
  import opened JpegTables
  import opened JpegDct
  import opened JpegScan

  // ---- the input ----

  datatype Image = Image(rgb: seq<byte>, width: nat, height: nat, stride: nat)

  /** What the encoder is given once its checks have passed; the buffer covers every pixel. */
  ghost predicate ValidImage(img: Image) {
    && 0 < img.width <= 65535 && 0 < img.height <= 65535
    && img.width * 3 <= img.stride
    && (img.height - 1) * img.stride + img.width * 3 <= |img.rgb|
  }

  function Min(a: int, b: int): int {
    if a < b then a else b
  }

  lemma PixelInBuffer(img: Image, x: nat, y: nat)
    requires ValidImage(img) && x < img.width && y < img.height
    ensures 0 <= y * img.stride + x * 3 && y * img.stride + x * 3 + 2 < |img.rgb|
  {
    if y < img.height - 1 {
      MulStep(y, img.height - 1, img.stride);
    }
  }

  datatype Ycc = Ycc(y: byte, cb: byte, cr: byte)

  function Clamp255(v: int): byte {
    if v < 0 then 0 else if v > 255 then 255 else v
  }

  /** Full-range conversion in 16-bit fixed point; the shifts round down. */
  function RgbToYcc(r: byte, g: byte, b: byte): Ycc {
    var rr: int, gg: int, bb: int := r, g, b;
    Ycc(Clamp255((19595 * rr + 38470 * gg + 7471 * bb + 32768) / 0x1_0000),
        Clamp255((-11059 * rr - 21709 * gg + 32768 * bb + 32768) / 0x1_0000 + 128),
        Clamp255((32768 * rr - 27439 * gg - 5329 * bb + 32768) / 0x1_0000 + 128))
  }

  /** Grey keeps its value and has no colour. */
  lemma NeutralColour(v: byte)
    ensures RgbToYcc(v, v, v) == Ycc(v, 128, 128)
  {
    var w: int := v;
    assert (65536 * w + 32768) / 0x1_0000 == w;
  }

  /** Rounding and clamping move a chrominance by no more than half a step. */
  lemma ChromaNear(v: int)
    requires -8355840 <= v <= 8355840
    ensures var c: int := Clamp255((v + 32768) / 0x1_0000 + 128); -32768 <= 0x1_0000 * (c - 128) - v <= 32768
  {
  }

  lemma LumaNear(v: int)
    requires 0 <= v <= 255 * 0x1_0000
    ensures var c: int := Clamp255((v + 32768) / 0x1_0000); -32768 <= 0x1_0000 * c - v <= 32768
  {
  }

  /** The inverse conversion of values each within half a step. */
  lemma InverseNear(r: int, g: int, b: int, y: int, cb: int, cr: int)
    requires 0 <= r <= 255 && 0 <= g <= 255 && 0 <= b <= 255
    requires -32768 <= 0x1_0000 * y - (19595 * r + 38470 * g + 7471 * b) <= 32768
    requires -32768 <= 0x1_0000 * cb - (-11059 * r - 21709 * g + 32768 * b) <= 32768
    requires -32768 <= 0x1_0000 * cr - (32768 * r - 27439 * g - 5329 * b) <= 32768
    ensures -1500 <= 1000 * y + 1402 * cr - 1000 * r <= 1500
    ensures -1500 <= 1000 * y - 344 * cb - 714 * cr - 1000 * g <= 1500
    ensures -1500 <= 1000 * y + 1772 * cb - 1000 * b <= 1500
  {
  }

  /** A conversion that loses nothing but rounding: the inverse of JFIF, its coefficients in thousandths, gives red,
      green and blue back to within a step and a half. */
  ghost predicate GivesBack(c: Ycc, r: byte, g: byte, b: byte) {
    var y: int, cb: int, cr: int := c.y, c.cb, c.cr;
    var rr: int, gg: int, bb: int := r, g, b;
    && -1500 <= 1000 * y + 1402 * (cr - 128) - 1000 * rr <= 1500
    && -1500 <= 1000 * y - 344 * (cb - 128) - 714 * (cr - 128) - 1000 * gg <= 1500
    && -1500 <= 1000 * y + 1772 * (cb - 128) - 1000 * bb <= 1500
  }

  /** Each value of the conversion is within half a step of what it stands for. */
  lemma ConversionNear(r: byte, g: byte, b: byte)
    ensures var c := RgbToYcc(r, g, b);
      var y: int, cb: int, cr: int := c.y, c.cb, c.cr;
      var rr: int, gg: int, bb: int := r, g, b;
      && -32768 <= 0x1_0000 * y - (19595 * rr + 38470 * gg + 7471 * bb) <= 32768
      && -32768 <= 0x1_0000 * (cb - 128) - (-11059 * rr - 21709 * gg + 32768 * bb) <= 32768
      && -32768 <= 0x1_0000 * (cr - 128) - (32768 * rr - 27439 * gg - 5329 * bb) <= 32768
  {
    var rr: int, gg: int, bb: int := r, g, b;
    hide Clamp255;
    LumaNear(19595 * rr + 38470 * gg + 7471 * bb);
    ChromaNear(-11059 * rr - 21709 * gg + 32768 * bb);
    ChromaNear(32768 * rr - 27439 * gg - 5329 * bb);
  }

  lemma ColourComesBack(r: byte, g: byte, b: byte)
    ensures GivesBack(RgbToYcc(r, g, b), r, g, b)
  {
    hide RgbToYcc;
    ConversionNear(r, g, b);
    var c := RgbToYcc(r, g, b);
    var y: int, cb: int, cr: int := c.y, c.cb, c.cr;
    InverseNear(r, g, b, y, cb - 128, cr - 128);
  }

  /** The pixel at (x, y), the picture being continued by its last column and row. */
  function PixelAt(img: Image, x: nat, y: nat): Ycc
    requires ValidImage(img)
  {
    var sx: nat, sy: nat := Min(x, img.width - 1), Min(y, img.height - 1);
    PixelInBuffer(img, sx, sy);
    var at := sy * img.stride + sx * 3;
    RgbToYcc(img.rgb[at], img.rgb[at + 1], img.rgb[at + 2])
  }

  // ---- the blocks ----

  /** The plane whose sample in column x of row y is `f(x, y)`. */
  function PlaneFrom(f: (nat, nat) -> byte): (p: Plane)
    ensures forall x, y :: 0 <= x < 8 && 0 <= y < 8 ==> p[y][x] == f(x, y)
  {
    var rows := seq(8, y requires 0 <= y < 8 => seq(8, x requires 0 <= x < 8 => f(x, y)));
    assert forall y :: 0 <= y < 8 ==> |rows[y]| == 8;
    rows
  }

  function LumaAt(img: Image, x: nat, y: nat): byte
    requires ValidImage(img)
  {
    PixelAt(img, x, y).y
  }

  function LumaPlane(img: Image, col: nat, row: nat): (p: Plane)
    requires ValidImage(img)
    ensures forall x, y :: 0 <= x < 8 && 0 <= y < 8 ==> p[y][x] == LumaAt(img, col * 8 + x, row * 8 + y)
  {
    PlaneFrom((x: nat, y: nat) => LumaAt(img, col * 8 + x, row * 8 + y))
  }

  function Average(a: byte, b: byte, c: byte, d: byte): byte {
    (a + b + c + d + 2) / 4
  }

  /** The chroma sample for the 2x2 pixels at (x, y). */
  function ChromaAt(img: Image, comp: nat, x: nat, y: nat): byte
    requires ValidImage(img)
  {
    var a, b, c, d := PixelAt(img, x, y), PixelAt(img, x + 1, y), PixelAt(img, x, y + 1), PixelAt(img, x + 1, y + 1);
    if comp == 1 then Average(a.cb, b.cb, c.cb, d.cb) else Average(a.cr, b.cr, c.cr, d.cr)
  }

  function ChromaPlane(img: Image, comp: nat, px: nat, py: nat): (p: Plane)
    requires ValidImage(img)
    ensures forall x, y :: 0 <= x < 8 && 0 <= y < 8 ==> p[y][x] == ChromaAt(img, comp, px + x * 2, py + y * 2)
  {
    PlaneFrom((x: nat, y: nat) => ChromaAt(img, comp, px + x * 2, py + y * 2))
  }

  function LumaBlock(img: Image, mx: nat, my: nat, sub: nat): (b: Coded)
    requires ValidImage(img)
    ensures IsCoded(b)
  {
    QuantTablesOk();
    Coded(0, Levels(LumaPlane(img, mx * 2 + sub % 2, my * 2 + sub / 2), QUANT_LUMA))
  }

  function ChromaBlock(img: Image, mx: nat, my: nat, comp: nat): (b: Coded)
    requires ValidImage(img) && 1 <= comp <= 2
    ensures IsCoded(b)
  {
    QuantTablesOk();
    Coded(comp, Levels(ChromaPlane(img, comp, mx * 16, my * 16), QUANT_CHROMA))
  }

  /** Block `k` of the unit in column `mx` of row `my`: four of luminance, then one of each chroma. */
  function UnitBlock(img: Image, mx: nat, my: nat, k: nat): (b: Coded)
    requires ValidImage(img) && k < 6
    ensures IsCoded(b)
  {
    if k < 4 then LumaBlock(img, mx, my, k) else ChromaBlock(img, mx, my, k - 3)
  }

  function UnitBlocks(img: Image, mx: nat, my: nat): (b: seq<Coded>)
    requires ValidImage(img)
    ensures |b| == 6 && AllCoded(b) && forall k :: 0 <= k < 6 ==> b[k] == UnitBlock(img, mx, my, k)
  {
    seq(6, k requires 0 <= k < 6 => UnitBlock(img, mx, my, k))
  }

  /** The blocks of the first `n` units of a row. */
  function RowBlocks(img: Image, my: nat, n: nat): (b: seq<Coded>)
    requires ValidImage(img)
    ensures AllCoded(b)
  {
    if n == 0 then []
    else
      AllCodedAppend(RowBlocks(img, my, n - 1), UnitBlocks(img, n - 1, my));
      RowBlocks(img, my, n - 1) + UnitBlocks(img, n - 1, my)
  }

  function UnitsWide(img: Image): nat {
    (img.width + 15) / 16
  }

  function UnitsHigh(img: Image): nat {
    (img.height + 15) / 16
  }

  /** The blocks of the first `n` rows of units. */
  function ImageBlocks(img: Image, n: nat): (b: seq<Coded>)
    requires ValidImage(img)
    ensures AllCoded(b)
  {
    if n == 0 then [] else ImageBlocks(img, n - 1) + RowBlocks(img, n - 1, UnitsWide(img))
  }

  // ---- the file ----

  function U16(v: nat): seq<byte> {
    [v / 256 % 256, v % 256]
  }

  function QuantBytes(q: Table8): seq<byte> {
    seq(64, j requires 0 <= j < 64 => ZigzagIsPermutation(j); var b: nat := Abs(q[Zigzag(j) / 8][Zigzag(j) % 8]); b % 256)
  }

  function HuffSegment(id: byte, spec: HuffSpec): seq<byte>
    requires |spec.bits| == 17
  {
    [0xFF, 0xC4] + U16(2 + 1 + 16 + |spec.vals|) + [id]
    + seq(16, i requires 0 <= i < 16 => spec.bits[i + 1] % 256) + spec.vals
  }

  /** The segments before the entropy-coded one. */
  function HeaderSegments(width: nat, height: nat): seq<seq<byte>> {
    [[0xFF, 0xD8],
     [0xFF, 0xE0] + U16(16) + [0x4A, 0x46, 0x49, 0x46, 0x00, 0x01, 0x01, 0x00, 0x00, 0x01, 0x00, 0x01, 0x00, 0x00],
     [0xFF, 0xDB] + U16(2 + 1 + 64) + [0x00] + QuantBytes(QUANT_LUMA),
     [0xFF, 0xDB] + U16(2 + 1 + 64) + [0x01] + QuantBytes(QUANT_CHROMA),
     HuffSegment(0x00, DC_LUM), HuffSegment(0x10, AC_LUM), HuffSegment(0x01, DC_CHR), HuffSegment(0x11, AC_CHR),
     [0xFF, 0xC0] + U16(17) + [8] + U16(height) + U16(width) + [3, 1, 0x22, 0, 2, 0x11, 1, 3, 0x11, 1],
     [0xFF, 0xDA] + U16(12) + [3, 1, 0x00, 2, 0x11, 3, 0x11, 0, 63, 0]]
  }

  function Flatten(segments: seq<seq<byte>>): seq<byte> {
    if segments == [] then [] else segments[0] + Flatten(segments[1..])
  }

  function Header(width: nat, height: nat): seq<byte> {
    Flatten(HeaderSegments(width, height))
  }

  const END_OF_IMAGE: seq<byte> := [0xFF, 0xD9]

  lemma PadToBytes(bits: seq<bool>)
    ensures |bits + Padding(|bits|)| % 8 == 0
  {
  }

  /** The entropy-coded segment for some blocks, before stuffing. */
  function SegmentBytes(t: Codes, blocks: seq<Coded>): (raw: seq<byte>)
    requires Sized(t) && AllCoded(blocks)
    ensures RawBits(raw) == ScanBits(t, blocks) + Padding(|ScanBits(t, blocks)|)
  {
    PadToBytes(ScanBits(t, blocks));
    Pack(ScanBits(t, blocks) + Padding(|ScanBits(t, blocks)|))
  }

  /** A file: a header, the stuffed segment, and the end-of-image marker. */
  function FileOf(header: seq<byte>, t: Codes, blocks: seq<Coded>): seq<byte>
    requires Sized(t) && AllCoded(blocks)
  {
    header + Stuff(SegmentBytes(t, blocks)) + END_OF_IMAGE
  }

  /** The file of a valid image, given the four code tables. */
  function JpegFile(img: Image, t: Codes): seq<byte>
    requires ValidImage(img) && Sized(t)
  {
    FileOf(Header(img.width, img.height), t, ImageBlocks(img, UnitsHigh(img)))
  }

  /** A decoder: skips the header, unstuffs up to the next marker, and decodes a block for each of `comps`. */
  function DecodeFile(file: seq<byte>, headerLength: nat, comps: seq<nat>): Option<(seq<Coded>, seq<bool>)>
    requires headerLength <= |file| && forall i :: 0 <= i < |comps| ==> comps[i] < 3
  {
    DecodeScan(StandardDecoders(), comps, RawBits(Unstuff(file[headerLength..])), [0, 0, 0])
  }

  lemma UnstuffFile(header: seq<byte>, raw: seq<byte>)
    ensures Unstuff((header + Stuff(raw) + END_OF_IMAGE)[|header|..]) == raw
  {
    assert (header + Stuff(raw) + END_OF_IMAGE)[|header|..] == Stuff(raw) + END_OF_IMAGE;
    UnstuffStuff(raw, END_OF_IMAGE);
    assert Unstuff(END_OF_IMAGE) == [];
    assert raw + [] == raw;
  }

  lemma HeaderFits(header: seq<byte>, t: Codes, blocks: seq<Coded>)
    requires Sized(t) && AllCoded(blocks)
    ensures header <= FileOf(header, t, blocks)
  {
  }

  const FILL: seq<bool> := [true, false, false, false, false, false, false]

  lemma PaddingIsFill(n: nat)
    ensures |Padding(n)| < 8 && Padding(n) <= FILL
  {
  }

  /** Decoding `file` after `header`, one block for each of `blocks`, gives exactly those blocks in order,
      with fewer than 8 bits left over, a 1 and zeros. */
  ghost predicate DecodesTo(file: seq<byte>, header: seq<byte>, blocks: seq<Coded>)
    requires AllCoded(blocks)
  {
    && header <= file
    && exists left {:trigger |left|} ::
         |left| < 8 && left <= FILL && DecodeFile(file, |header|, Comps(blocks)) == Some((blocks, left))
  }

  lemma SegmentDecodes(header: seq<byte>, t: Codes, blocks: seq<Coded>)
    requires Sized(t) && Standard(t) && AllCoded(blocks)
    ensures DecodesTo(FileOf(header, t, blocks), header, blocks)
  {
    hide Stuff, Unstuff, RawBits, Pack, SegmentBytes, ScanBits, DecodeScan, StandardDecoders;
    HeaderFits(header, t, blocks);
    UnstuffFile(header, SegmentBytes(t, blocks));
    ScanRoundTrip(t, blocks, Padding(|ScanBits(t, blocks)|));
    PaddingIsFill(|ScanBits(t, blocks)|);
    assert |Padding(|ScanBits(t, blocks)|)| < 8;
  }

  /** The file of a picture decodes to exactly the picture's quantised blocks. */
  lemma FileRoundTrip(img: Image, t: Codes)
    requires ValidImage(img) && Sized(t) && Standard(t)
    ensures DecodesTo(JpegFile(img, t), Header(img.width, img.height), ImageBlocks(img, UnitsHigh(img)))
  {
    SegmentDecodes(Header(img.width, img.height), t, ImageBlocks(img, UnitsHigh(img)));
  }

  /** No marker can appear between the header and the end-of-image marker. */
  lemma NoMarkerInside(header: seq<byte>, t: Codes, blocks: seq<Coded>)
    requires Sized(t) && AllCoded(blocks)
    ensures var file := FileOf(header, t, blocks);
            && |header| <= |file| - 2 && NoMarker(file[|header|..|file| - 2])
            && file[..|header|] == header && file[|file| - 2..] == END_OF_IMAGE
  {
    var file := FileOf(header, t, blocks);
    StuffHasNoMarker(SegmentBytes(t, blocks));
    assert file[|header|..|file| - 2] == Stuff(SegmentBytes(t, blocks));
  }

  /** Every pixel, once converted, is without colour. */
  ghost predicate Colourless(img: Image)
    requires ValidImage(img)
  {
    forall x: nat, y: nat :: PixelAt(img, x, y).cb == 128 && PixelAt(img, x, y).cr == 128
  }

  lemma ColourlessPlaneIsFlat(img: Image, comp: nat, px: nat, py: nat)
    requires ValidImage(img) && Colourless(img) && 1 <= comp <= 2
    ensures Flat(ChromaPlane(img, comp, px, py), 0)
  {
    var p := ChromaPlane(img, comp, px, py);
    forall x: nat, y: nat | x < 8 && y < 8
      ensures Sample(p, x, y) == 0
    {
      assert ChromaAt(img, comp, px + x * 2, py + y * 2) == 128;
      assert p[y][x] == 128;
    }
  }

  /** Where a pixel is in the buffer. */
  function Offset(img: Image, x: nat, y: nat): (at: nat)
    requires ValidImage(img) && x < img.width && y < img.height
    ensures at + 2 < |img.rgb|
  {
    PixelInBuffer(img, x, y);
    y * img.stride + x * 3
  }

  /** Every pixel has equal red, green and blue. */
  ghost predicate IsGrey(img: Image)
    requires ValidImage(img)
  {
    forall x: nat, y: nat :: x < img.width && y < img.height ==>
      img.rgb[Offset(img, x, y)] == img.rgb[Offset(img, x, y) + 1] == img.rgb[Offset(img, x, y) + 2]
  }

  lemma GreyIsColourless(img: Image)
    requires ValidImage(img) && IsGrey(img)
    ensures Colourless(img)
  {
    hide RgbToYcc;
    forall x: nat, y: nat
      ensures PixelAt(img, x, y).cb == 128 && PixelAt(img, x, y).cr == 128
    {
      var sx: nat, sy: nat := Min(x, img.width - 1), Min(y, img.height - 1);
      NeutralColour(img.rgb[Offset(img, sx, sy)]);
    }
  }

  /** A grey picture has no chroma: every chroma level is zero. */
  lemma GreyHasNoChroma(img: Image, mx: nat, my: nat, comp: nat, j: nat)
    requires ValidImage(img) && IsGrey(img) && 1 <= comp <= 2 && j < 64
    ensures ChromaBlock(img, mx, my, comp).levels[j] == 0
  {
    hide ChromaPlane, IsGrey, ValidImage, Flat, Level, Levels, Zigzag, ScanPosition, Steps, IsCoded, IsBlock, Colourless;
    var p := ChromaPlane(img, comp, mx * 16, my * 16);
    GreyIsColourless(img);
    ColourlessPlaneIsFlat(img, comp, mx * 16, my * 16);
    QuantTablesOk();
    LevelInOrder(p, QUANT_CHROMA, j);
    MidLevelBlockIsZero(p, QUANT_CHROMA, Zigzag(j) % 8, Zigzag(j) / 8);
  }
}
