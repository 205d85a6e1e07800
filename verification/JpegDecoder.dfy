/** A baseline decoder that takes all it needs from the file: tables, size and the order of components come out of
    the marker segments of ITU-T T.81 annex B. What the encoder writes, it reads back. */
module JpegDecoder {
  import opened Results
  import opened Words
  import opened JpegHuffman
  import opened JpegBitWriter
  import opened JpegBlock
  import opened JpegTables
  import opened JpegDct
  import opened JpegScan
  import opened JpegEncoder

  // ---- marker segments ----

  datatype Part = Part(marker: byte, body: seq<byte>)

  /** Quantisation tables in scan order and Huffman tables by their ids, and the frame. */
  datatype Setup = Setup(quants: map<byte, seq<byte>>, huffs: map<byte, HuffSpec>, frame: Option<Frame>)

  datatype Frame = Frame(width: nat, height: nat, comps: seq<Component>)

  /** A component: its sampling factors and its quantisation table. */
  datatype Component = Component(id: byte, across: nat, down: nat, quant: byte)

  /** A component in the scan: the ids of its Huffman tables. */
  datatype Selector = Selector(id: byte, dc: nat, ac: nat)

  function Word(s: seq<byte>, off: nat): nat
    requires off + 2 <= |s|
  {
    var hi: nat, lo: nat := s[off], s[off + 1];
    hi * 256 + lo
  }

  /** The segment `s` begins with, and what follows it. */
  function TakePart(s: seq<byte>): (r: Option<(Part, seq<byte>)>)
    ensures r.Some? ==> |r.value.1| < |s|
  {
    if |s| < 4 || s[0] != 0xFF || Word(s, 2) < 2 || |s| < 2 + Word(s, 2) then None
    else Some((Part(s[1], s[4..2 + Word(s, 2)]), s[2 + Word(s, 2)..]))
  }

  function ReadQuants(body: seq<byte>, quants: map<byte, seq<byte>>): Option<map<byte, seq<byte>>> {
    if body == [] then Some(quants)
    else if |body| < 65 || 16 <= body[0] then None
    else ReadQuants(body[65..], quants[body[0] := body[1..65]])
  }

  /** The counts of codes of each length, from none of length 0. */
  function Counts(s: seq<byte>): (bits: seq<nat>)
    ensures |bits| == |s| + 1
  {
    [0] + seq(|s|, i requires 0 <= i < |s| => s[i] as nat)
  }

  function ReadHuffs(body: seq<byte>, huffs: map<byte, HuffSpec>): Option<map<byte, HuffSpec>> {
    if body == [] then Some(huffs)
    else if |body| < 17 then None
    else
      var bits := Counts(body[1..17]);
      var end := 17 + |Lengths(bits, 16)|;
      if |body| < end then None else ReadHuffs(body[end..], huffs[body[0] := HuffSpec(bits, body[17..end])])
  }

  function ReadFrame(body: seq<byte>): Option<Frame> {
    if |body| < 6 || body[0] != 8 || |body| != 6 + 3 * body[5] as nat then None
    else
      Some(Frame(Word(body, 3), Word(body, 1), seq(body[5] as nat, i requires 0 <= i < body[5] as nat =>
        Component(body[6 + 3 * i], body[7 + 3 * i] as nat / 16, body[7 + 3 * i] as nat % 16, body[8 + 3 * i]))))
  }

  function ReadScan(body: seq<byte>): Option<seq<Selector>> {
    if |body| < 1 || |body| != 4 + 2 * body[0] as nat then None
    else
      Some(seq(body[0] as nat, i requires 0 <= i < body[0] as nat =>
        Selector(body[1 + 2 * i], body[2 + 2 * i] as nat / 16, body[2 + 2 * i] as nat % 16)))
  }

  const QUANT_TABLES: byte := 0xDB
  const HUFFMAN_TABLES: byte := 0xC4
  const BASELINE_FRAME: byte := 0xC0
  const SCAN: byte := 0xDA

  /** Application data is passed over; what is not baseline is refused. */
  function ReadPart(p: Part, so: Setup): Option<Setup> {
    if p.marker == QUANT_TABLES then
      match ReadQuants(p.body, so.quants)
      case Some(quants) => Some(so.(quants := quants))
      case None => None
    else if p.marker == HUFFMAN_TABLES then
      match ReadHuffs(p.body, so.huffs)
      case Some(huffs) => Some(so.(huffs := huffs))
      case None => None
    else if p.marker == BASELINE_FRAME then
      match ReadFrame(p.body)
      case Some(frame) => Some(so.(frame := Some(frame)))
      case None => None
    else if 0xE0 <= p.marker <= 0xEF then Some(so)
    else None
  }

  /** Reads segments up to the start of the scan. */
  function ReadParts(s: seq<byte>, so: Setup): Option<(Setup, seq<Selector>, seq<byte>)>
    decreases |s|
  {
    match TakePart(s)
    case None => None
    case Some((part, rest)) =>
      if part.marker == SCAN then
        match ReadScan(part.body)
        case Some(selectors) => Some((so, selectors, rest))
        case None => None
      else
        match ReadPart(part, so)
        case Some(next) => ReadParts(rest, next)
        case None => None
  }

  // ---- the order of blocks ----

  function Copies(s: seq<nat>, n: nat): (r: seq<nat>)
    ensures forall i :: 0 <= i < |r| ==> r[i] in s
  {
    if n == 0 then [] else Copies(s, n - 1) + s
  }

  /** The components of a unit's blocks, for the first `n` components. */
  function UnitOrder(comps: seq<Component>, n: nat): (r: seq<nat>)
    requires n <= |comps|
    ensures forall i :: 0 <= i < |r| ==> r[i] < n
  {
    if n == 0 then [] else UnitOrder(comps, n - 1) + Copies([n - 1], comps[n - 1].across * comps[n - 1].down)
  }

  /** The largest of some factors, at least 1. */
  function Most(factors: seq<nat>): (m: nat)
    ensures 1 <= m
  {
    if factors == [] then 1
    else
      var m, f := Most(factors[..|factors| - 1]), factors[|factors| - 1];
      if m < f then f else m
  }

  function Across(comps: seq<Component>): seq<nat> {
    seq(|comps|, i requires 0 <= i < |comps| => comps[i].across)
  }

  function Down(comps: seq<Component>): seq<nat> {
    seq(|comps|, i requires 0 <= i < |comps| => comps[i].down)
  }

  /** How many units of `size` samples cover a length. */
  function Cover(length: nat, size: nat): nat
    requires 0 < size
  {
    (length + size - 1) / size
  }

  /** The component of each block of the scan. */
  function BlockOrder(f: Frame): (r: seq<nat>)
    ensures forall i :: 0 <= i < |r| ==> r[i] < |f.comps|
  {
    var across, down := Most(Across(f.comps)), Most(Down(f.comps));
    Copies(Copies(UnitOrder(f.comps, |f.comps|), Cover(f.width, 8 * across)), Cover(f.height, 8 * down))
  }

  // ---- decoding ----

  /** A decoded picture: its size, the quantisation table of each component, and its quantised blocks. */
  datatype Picture = Picture(width: nat, height: nat, quants: seq<seq<byte>>, blocks: seq<Coded>)

  /** Three components, the last two sharing their tables, with every table they name there and usable. */
  ghost predicate Decodable(so: Setup, sel: seq<Selector>) {
    && so.frame.Some? && |so.frame.value.comps| == |sel| == 3
    && (forall i :: 0 <= i < 3 ==>
          && sel[i].id == so.frame.value.comps[i].id && so.frame.value.comps[i].quant in so.quants
          && sel[i].dc < 16 && sel[i].ac < 16
          && DcKey(sel[i]) in so.huffs && Proper(so.huffs[DcKey(sel[i])])
          && AcKey(sel[i]) in so.huffs && Proper(so.huffs[AcKey(sel[i])]))
    && sel[1].dc == sel[2].dc && sel[1].ac == sel[2].ac
  }

  function DcKey(sel: Selector): byte
    requires sel.dc < 16
  {
    sel.dc
  }

  function AcKey(sel: Selector): byte
    requires sel.ac < 16
  {
    16 + sel.ac
  }

  ghost function DecodersFor(so: Setup, sel: seq<Selector>): Decoders
    requires Decodable(so, sel)
  {
    Decoders(DecoderOf(so.huffs[DcKey(sel[0])]), DecoderOf(so.huffs[AcKey(sel[0])]),
             DecoderOf(so.huffs[DcKey(sel[1])]), DecoderOf(so.huffs[AcKey(sel[1])]))
  }

  ghost function DecodePicture(so: Setup, sel: seq<Selector>, data: seq<byte>): Option<Picture>
    requires Decodable(so, sel)
  {
    var frame := so.frame.value;
    match DecodeScan(DecodersFor(so, sel), BlockOrder(frame), RawBits(Unstuff(data)), [0, 0, 0])
    case None => None
    case Some((blocks, left)) =>
      if 8 <= |left| then None
      else
        Some(Picture(frame.width, frame.height,
                     seq(3, i requires 0 <= i < 3 => so.quants[frame.comps[i].quant]), blocks))
  }

  /** Decodes a file. */
  ghost function DecodeJpeg(file: seq<byte>): Option<Picture> {
    if |file| < 2 || file[0] != 0xFF || file[1] != 0xD8 then None
    else
      match ReadParts(file[2..], Setup(map[], map[], None))
      case None => None
      case Some((so, sel, data)) => if Decodable(so, sel) then DecodePicture(so, sel, data) else None
  }

  // ---- reading the encoder's segments ----

  function Segment(marker: byte, body: seq<byte>): seq<byte> {
    [0xFF, marker] + U16(|body| + 2) + body
  }

  lemma TakeSegment(marker: byte, body: seq<byte>, rest: seq<byte>)
    requires |body| + 2 <= 0xFFFF
    ensures TakePart(Segment(marker, body) + rest) == Some((Part(marker, body), rest))
  {
    var s := Segment(marker, body) + rest;
    var len := |body| + 2;
    assert s[2] == len / 256 && s[3] == len % 256;
    assert Word(s, 2) == len;
    assert s[4..2 + len] == body && s[2 + len..] == rest;
  }

  lemma ReadSegment(marker: byte, body: seq<byte>, rest: seq<byte>, so: Setup)
    requires |body| + 2 <= 0xFFFF && marker != SCAN && ReadPart(Part(marker, body), so).Some?
    ensures ReadParts(Segment(marker, body) + rest, so) == ReadParts(rest, ReadPart(Part(marker, body), so).value)
  {
    hide ReadPart, TakePart, Segment;
    TakeSegment(marker, body, rest);
  }

  lemma ReadQuantSegment(id: byte, table: seq<byte>, rest: seq<byte>, so: Setup)
    requires |table| == 64 && id < 16
    ensures ReadParts(Segment(QUANT_TABLES, [id] + table) + rest, so) == ReadParts(rest, so.(quants := so.quants[id := table]))
  {
    hide ReadParts, Segment;
    var body := [id] + table;
    assert body[0] == id && body[1..65] == table && body[65..] == [];
    assert ReadQuants(body[65..], so.quants[id := table]) == Some(so.quants[id := table]);
    assert ReadQuants(body, so.quants) == Some(so.quants[id := table]);
    ReadSegment(QUANT_TABLES, body, rest, so);
  }

  function HuffBody(id: byte, spec: HuffSpec): seq<byte>
    requires |spec.bits| == 17
  {
    [id] + seq(16, i requires 0 <= i < 16 => spec.bits[i + 1] % 256) + spec.vals
  }

  /** A table whose counts fit a byte each. */
  ghost predicate Plain(spec: HuffSpec) {
    Proper(spec) && spec.bits[0] == 0 && |spec.vals| <= 256 && forall i :: 0 < i < 17 ==> spec.bits[i] < 256
  }

  lemma ReadHuffBody(id: byte, spec: HuffSpec, huffs: map<byte, HuffSpec>)
    requires Plain(spec)
    ensures ReadHuffs(HuffBody(id, spec), huffs) == Some(huffs[id := spec])
  {
    hide Lengths, ValidLengths, Distinct;
    var body := HuffBody(id, spec);
    var bits := Counts(body[1..17]);
    assert bits == spec.bits;
    var end := 17 + |Lengths(bits, 16)|;
    assert body[0] == id && body[17..end] == spec.vals && body[end..] == [];
    assert HuffSpec(bits, body[17..end]) == spec;
    assert ReadHuffs(body[end..], huffs[id := spec]) == Some(huffs[id := spec]);
  }

  lemma ReadHuffSegment(id: byte, spec: HuffSpec, rest: seq<byte>, so: Setup)
    requires Plain(spec)
    ensures ReadParts(Segment(HUFFMAN_TABLES, HuffBody(id, spec)) + rest, so)
         == ReadParts(rest, so.(huffs := so.huffs[id := spec]))
  {
    hide ReadParts, Segment, ReadHuffs;
    ReadHuffBody(id, spec, so.huffs);
    var body := HuffBody(id, spec);
    ReadSegment(HUFFMAN_TABLES, body, rest, so);
  }

  function FrameBody(width: nat, height: nat): seq<byte> {
    [8] + U16(height) + U16(width) + [3, 1, 0x22, 0, 2, 0x11, 1, 3, 0x11, 1]
  }

  function FrameOf(width: nat, height: nat): Frame {
    Frame(width, height, [Component(1, 2, 2, 0), Component(2, 1, 1, 1), Component(3, 1, 1, 1)])
  }

  lemma ReadFrameSegment(width: nat, height: nat, rest: seq<byte>, so: Setup)
    requires width <= 0xFFFF && height <= 0xFFFF
    ensures ReadParts(Segment(BASELINE_FRAME, FrameBody(width, height)) + rest, so)
         == ReadParts(rest, so.(frame := Some(FrameOf(width, height))))
  {
    hide ReadParts, Segment;
    var body := FrameBody(width, height);
    assert |body| == 15 && body[5] == 3;
    assert ReadFrame(body).value.comps == FrameOf(width, height).comps;
    ReadSegment(BASELINE_FRAME, body, rest, so);
  }

  const APP_BODY: seq<byte> := [0x4A, 0x46, 0x49, 0x46, 0x00, 0x01, 0x01, 0x00, 0x00, 0x01, 0x00, 0x01, 0x00, 0x00]
  const SCAN_BODY: seq<byte> := [3, 1, 0x00, 2, 0x11, 3, 0x11, 0, 63, 0]

  lemma ReadScanSegment(rest: seq<byte>, so: Setup)
    ensures ReadParts(Segment(SCAN, SCAN_BODY) + rest, so)
         == Some((so, [Selector(1, 0, 0), Selector(2, 1, 1), Selector(3, 1, 1)], rest))
  {
    hide Segment, TakePart;
    TakeSegment(SCAN, SCAN_BODY, rest);
    assert ReadScan(SCAN_BODY).value == [Selector(1, 0, 0), Selector(2, 1, 1), Selector(3, 1, 1)];
  }

  lemma DcTablesPlain()
    ensures Plain(DC_LUM) && Plain(DC_CHR)
  {
    hide Proper, Distinct, Lengths, ValidLengths, CompleteDc;
    DcLumTable();
    DcChrTable();
  }

  lemma AcCountsSmall()
    ensures |BITS_AC_LUM| == |BITS_AC_CHR| == 17 && BITS_AC_LUM[0] == BITS_AC_CHR[0] == 0
    ensures forall i :: 0 < i < 17 ==> BITS_AC_LUM[i] < 256 && BITS_AC_CHR[i] < 256
  {
  }

  lemma PlainByParts(bits: seq<nat>, vals: seq<byte>)
    requires Proper(HuffSpec(bits, vals)) && |bits| == 17 && bits[0] == 0 && |vals| <= 256
    requires forall i :: 0 < i < 17 ==> bits[i] < 256
    ensures Plain(HuffSpec(bits, vals))
  {
  }

  lemma AcTablesPlain()
    ensures Plain(AC_LUM) && Plain(AC_CHR)
  {
    hide Proper, Plain, Distinct, Lengths, CompleteAc, IsAcSymbol, VALS_AC_LUM, VALS_AC_CHR, BITS_AC_LUM, BITS_AC_CHR;
    AcCountsSmall();
    AcLumTable();
    LumValues();
    PlainByParts(BITS_AC_LUM, VALS_AC_LUM);
    AcChrTable();
    ChrValues();
    PlainByParts(BITS_AC_CHR, VALS_AC_CHR);
  }

  // ---- the whole header ----

  /** What the header says. */
  function HeaderSetup(width: nat, height: nat): Setup {
    Setup(map[0 := QuantBytes(QUANT_LUMA), 1 := QuantBytes(QUANT_CHROMA)],
          map[0 := DC_LUM, 16 := AC_LUM, 1 := DC_CHR, 17 := AC_CHR], Some(FrameOf(width, height)))
  }

  function QuantParts(): seq<byte> {
    Segment(0xE0, APP_BODY) + (Segment(QUANT_TABLES, [0x00] + QuantBytes(QUANT_LUMA))
    + Segment(QUANT_TABLES, [0x01] + QuantBytes(QUANT_CHROMA)))
  }

  function HuffParts(): seq<byte> {
    (Segment(HUFFMAN_TABLES, HuffBody(0x00, DC_LUM)) + Segment(HUFFMAN_TABLES, HuffBody(0x10, AC_LUM)))
    + (Segment(HUFFMAN_TABLES, HuffBody(0x01, DC_CHR)) + Segment(HUFFMAN_TABLES, HuffBody(0x11, AC_CHR)))
  }

  function FrameParts(width: nat, height: nat): seq<byte> {
    Segment(BASELINE_FRAME, FrameBody(width, height)) + Segment(SCAN, SCAN_BODY)
  }

  lemma QuantBytesCount(q: Table8)
    ensures |QuantBytes(q)| == 64
  {
  }

  lemma ReadQuantParts(rest: seq<byte>)
    ensures ReadParts(QuantParts() + rest, Setup(map[], map[], None))
         == ReadParts(rest, Setup(map[0 := QuantBytes(QUANT_LUMA), 1 := QuantBytes(QUANT_CHROMA)], map[], None))
  {
    hide ReadParts, Segment, QuantBytes;
    QuantBytesCount(QUANT_LUMA);
    QuantBytesCount(QUANT_CHROMA);
    var app := Segment(0xE0, APP_BODY);
    var luma := Segment(QUANT_TABLES, [0x00] + QuantBytes(QUANT_LUMA));
    var chroma := Segment(QUANT_TABLES, [0x01] + QuantBytes(QUANT_CHROMA));
    var so := Setup(map[], map[], None);
    assert QuantParts() + rest == app + (luma + (chroma + rest));
    ReadSegment(0xE0, APP_BODY, luma + (chroma + rest), so);
    ReadQuantSegment(0, QuantBytes(QUANT_LUMA), chroma + rest, so);
    ReadQuantSegment(1, QuantBytes(QUANT_CHROMA), rest, so.(quants := map[0 := QuantBytes(QUANT_LUMA)]));
    assert map[0 := QuantBytes(QUANT_LUMA)][1 := QuantBytes(QUANT_CHROMA)]
        == map[0 := QuantBytes(QUANT_LUMA), 1 := QuantBytes(QUANT_CHROMA)];
  }

  /** Two Huffman tables of one class of component. */
  lemma ReadHuffPair(dcId: byte, dc: HuffSpec, acId: byte, ac: HuffSpec, rest: seq<byte>, so: Setup)
    requires Plain(dc) && Plain(ac)
    ensures ReadParts((Segment(HUFFMAN_TABLES, HuffBody(dcId, dc)) + Segment(HUFFMAN_TABLES, HuffBody(acId, ac))) + rest, so)
         == ReadParts(rest, so.(huffs := so.huffs[dcId := dc][acId := ac]))
  {
    hide ReadParts, Segment, HuffBody, Plain;
    PlainHasLengths(dc);
    PlainHasLengths(ac);
    var a, b := Segment(HUFFMAN_TABLES, HuffBody(dcId, dc)), Segment(HUFFMAN_TABLES, HuffBody(acId, ac));
    assert (a + b) + rest == a + (b + rest);
    ReadHuffSegment(dcId, dc, b + rest, so);
    ReadHuffSegment(acId, ac, rest, so.(huffs := so.huffs[dcId := dc]));
  }

  lemma PlainHasLengths(spec: HuffSpec)
    requires Plain(spec)
    ensures |spec.bits| == 17
  {
  }

  lemma ReadHuffParts(rest: seq<byte>, so: Setup)
    requires so.huffs == map[]
    ensures ReadParts(HuffParts() + rest, so)
         == ReadParts(rest, so.(huffs := map[0 := DC_LUM, 16 := AC_LUM, 1 := DC_CHR, 17 := AC_CHR]))
  {
    hide ReadParts, Segment, HuffBody, Plain, DC_LUM, AC_LUM, DC_CHR, AC_CHR;
    DcTablesPlain();
    AcTablesPlain();
    PlainHasLengths(DC_LUM);
    PlainHasLengths(AC_LUM);
    PlainHasLengths(DC_CHR);
    PlainHasLengths(AC_CHR);
    var lum := Segment(HUFFMAN_TABLES, HuffBody(0x00, DC_LUM)) + Segment(HUFFMAN_TABLES, HuffBody(0x10, AC_LUM));
    var chr := Segment(HUFFMAN_TABLES, HuffBody(0x01, DC_CHR)) + Segment(HUFFMAN_TABLES, HuffBody(0x11, AC_CHR));
    assert HuffParts() + rest == lum + (chr + rest);
    ReadHuffPair(0, DC_LUM, 16, AC_LUM, chr + rest, so);
    ReadHuffPair(1, DC_CHR, 17, AC_CHR, rest, so.(huffs := so.huffs[0 := DC_LUM][16 := AC_LUM]));
    assert so.huffs[0 := DC_LUM][16 := AC_LUM][1 := DC_CHR][17 := AC_CHR]
        == map[0 := DC_LUM, 16 := AC_LUM, 1 := DC_CHR, 17 := AC_CHR];
  }

  lemma ReadFrameParts(width: nat, height: nat, rest: seq<byte>, so: Setup)
    requires width <= 0xFFFF && height <= 0xFFFF
    ensures ReadParts(FrameParts(width, height) + rest, so)
         == Some((so.(frame := Some(FrameOf(width, height))), HeaderSelectors(), rest))
  {
    hide ReadParts, Segment, FrameBody, FrameOf;
    var frame, scan := Segment(BASELINE_FRAME, FrameBody(width, height)), Segment(SCAN, SCAN_BODY);
    assert FrameParts(width, height) + rest == frame + (scan + rest);
    ReadFrameSegment(width, height, scan + rest, so);
    ReadScanSegment(rest, so.(frame := Some(FrameOf(width, height))));
  }

  function HeaderSelectors(): seq<Selector> {
    [Selector(1, 0, 0), Selector(2, 1, 1), Selector(3, 1, 1)]
  }

  lemma FlattenStep(first: seq<byte>, others: seq<seq<byte>>)
    ensures Flatten([first] + others) == first + Flatten(others)
  {
    assert ([first] + others)[1..] == others;
  }

  lemma FlattenTwo(a: seq<byte>, b: seq<byte>, others: seq<seq<byte>>)
    ensures Flatten([a, b] + others) == (a + b) + Flatten(others)
  {
    FlattenStep(b, others);
    FlattenStep(a, [b] + others);
    assert [a, b] + others == [a] + ([b] + others);
    assert a + (b + Flatten(others)) == (a + b) + Flatten(others);
  }

  /** A Huffman segment of the header is a marker segment. */
  lemma HuffSegmentIs(id: byte, spec: HuffSpec)
    requires |spec.bits| == 17
    ensures HuffSegment(id, spec) == Segment(HUFFMAN_TABLES, HuffBody(id, spec))
  {
  }

  lemma QuantSegmentIs(id: byte, table: seq<byte>)
    requires |table| == 64
    ensures [0xFF, 0xDB] + U16(2 + 1 + 64) + [id] + table == Segment(QUANT_TABLES, [id] + table)
  {
  }

  lemma FrameSegmentsAre(width: nat, height: nat)
    ensures [0xFF, 0xE0] + U16(16) + APP_BODY == Segment(0xE0, APP_BODY)
    ensures [0xFF, 0xC0] + U16(17) + [8] + U16(height) + U16(width) + [3, 1, 0x22, 0, 2, 0x11, 1, 3, 0x11, 1]
         == Segment(BASELINE_FRAME, FrameBody(width, height))
    ensures [0xFF, 0xDA] + U16(12) + SCAN_BODY == Segment(SCAN, SCAN_BODY)
  {
  }

  /** The header is those segments, after the start of the image. */
  lemma HeaderIs(width: nat, height: nat)
    ensures Header(width, height) == [0xFF, 0xD8] + (QuantParts() + (HuffParts() + FrameParts(width, height)))
  {
    hide Flatten, Segment, HuffSegment, HuffBody, QuantBytes, FrameBody, U16, DC_LUM, AC_LUM, DC_CHR, AC_CHR;
    DcTablesPlain();
    AcTablesPlain();
    HuffSegmentIs(0x00, DC_LUM);
    HuffSegmentIs(0x10, AC_LUM);
    HuffSegmentIs(0x01, DC_CHR);
    HuffSegmentIs(0x11, AC_CHR);
    QuantBytesCount(QUANT_LUMA);
    QuantBytesCount(QUANT_CHROMA);
    QuantSegmentIs(0, QuantBytes(QUANT_LUMA));
    QuantSegmentIs(1, QuantBytes(QUANT_CHROMA));
    FrameSegmentsAre(width, height);
    var h := HeaderSegments(width, height);
    assert h == [h[0], h[1]] + ([h[2], h[3]] + ([h[4], h[5]] + ([h[6], h[7]] + ([h[8], h[9]] + []))));
    FlattenTwo(h[0], h[1], [h[2], h[3]] + ([h[4], h[5]] + ([h[6], h[7]] + ([h[8], h[9]] + []))));
    FlattenTwo(h[2], h[3], [h[4], h[5]] + ([h[6], h[7]] + ([h[8], h[9]] + [])));
    FlattenTwo(h[4], h[5], [h[6], h[7]] + ([h[8], h[9]] + []));
    FlattenTwo(h[6], h[7], [h[8], h[9]] + []);
    FlattenTwo(h[8], h[9], []);
    Regrouped(h[0], h[1], h[2] + h[3], h[4] + h[5], h[6] + h[7], h[8] + h[9]);
  }

  lemma NothingFlat()
    ensures Flatten([]) == []
  {
  }

  lemma Regrouped(a: seq<byte>, b: seq<byte>, c: seq<byte>, d: seq<byte>, e: seq<byte>, f: seq<byte>)
    ensures (a + b) + (c + (d + (e + (f + Flatten([]))))) == a + ((b + c) + ((d + e) + f))
  {
    NothingFlat();
  }

  /** Reading a header gives what it says, and what follows it. */
  lemma ReadHeader(width: nat, height: nat, rest: seq<byte>)
    requires width <= 0xFFFF && height <= 0xFFFF
    ensures |Header(width, height)| >= 2 && Header(width, height)[0] == 0xFF && Header(width, height)[1] == 0xD8
    ensures ReadParts((Header(width, height) + rest)[2..], Setup(map[], map[], None))
         == Some((HeaderSetup(width, height), HeaderSelectors(), rest))
  {
    hide ReadParts, Header, QuantParts, HuffParts, FrameParts, QuantBytes, FrameOf, HeaderSelectors;
    hide DC_LUM, AC_LUM, DC_CHR, AC_CHR;
    HeaderIs(width, height);
    var a, b, c := QuantParts(), HuffParts(), FrameParts(width, height);
    assert (Header(width, height) + rest)[2..] == a + (b + (c + rest));
    ReadQuantParts(b + (c + rest));
    var so := Setup(map[0 := QuantBytes(QUANT_LUMA), 1 := QuantBytes(QUANT_CHROMA)], map[], None);
    ReadHuffParts(c + rest, so);
    ReadFrameParts(width, height, rest, so.(huffs := HeaderSetup(width, height).huffs));
  }

  // ---- the order of the encoder's blocks ----

  const UNIT: seq<nat> := [0, 0, 0, 0, 1, 2]

  lemma CompsConcat(a: seq<Coded>, b: seq<Coded>)
    ensures Comps(a + b) == Comps(a) + Comps(b)
  {
  }

  lemma UnitComps(img: Image, mx: nat, my: nat)
    requires ValidImage(img)
    ensures Comps(UnitBlocks(img, mx, my)) == UNIT
  {
    hide Levels, LumaPlane, ChromaPlane;
    var b := UnitBlocks(img, mx, my);
    assert b[0].comp == b[1].comp == b[2].comp == b[3].comp == 0 && b[4].comp == 1 && b[5].comp == 2;
  }

  lemma {:induction false} RowComps(img: Image, my: nat, n: nat)
    requires ValidImage(img)
    ensures Comps(RowBlocks(img, my, n)) == Copies(UNIT, n)
  {
    hide UnitBlocks, Comps;
    if n == 0 {
      assert Comps([]) == [];
    } else {
      RowComps(img, my, n - 1);
      UnitComps(img, n - 1, my);
      CompsConcat(RowBlocks(img, my, n - 1), UnitBlocks(img, n - 1, my));
    }
  }

  lemma {:induction false} ImageComps(img: Image, n: nat)
    requires ValidImage(img)
    ensures Comps(ImageBlocks(img, n)) == Copies(Copies(UNIT, UnitsWide(img)), n)
  {
    hide RowBlocks, Comps, UnitsWide;
    if n == 0 {
      assert Comps([]) == [];
    } else {
      ImageComps(img, n - 1);
      RowComps(img, n - 1, UnitsWide(img));
      CompsConcat(ImageBlocks(img, n - 1), RowBlocks(img, n - 1, UnitsWide(img)));
    }
  }

  /** The frame of the header gives the order the encoder's blocks have. */
  lemma HeaderOrder(img: Image)
    requires ValidImage(img)
    ensures BlockOrder(FrameOf(img.width, img.height)) == Comps(ImageBlocks(img, UnitsHigh(img)))
  {
    ImageComps(img, UnitsHigh(img));
    FrameUnits(img.width, img.height);
    hide Copies, UnitOrder, Most, ImageBlocks, Comps, FrameOf;
  }

  lemma FrameUnits(width: nat, height: nat)
    ensures var comps := FrameOf(width, height).comps;
      |comps| == 3 && UnitOrder(comps, 3) == UNIT && Most(Across(comps)) == 2 && Most(Down(comps)) == 2
  {
    var comps := FrameOf(width, height).comps;
    assert Copies([0], 4) == [0, 0, 0, 0];
    assert UnitOrder(comps, 1) == [0, 0, 0, 0];
    assert UnitOrder(comps, 2) == [0, 0, 0, 0, 1];
    MostOfThree(2, 1, 1);
    assert Across(comps) == [2, 1, 1] && Down(comps) == [2, 1, 1];
  }

  lemma MostOfThree(a: nat, b: nat, c: nat)
    requires 1 <= b <= a && c <= a
    ensures Most([a, b, c]) == a
  {
    assert [a, b, c][..2] == [a, b] && [a, b][..1] == [a] && [a][..0] == [];
    assert Most([a]) == a;
    assert Most([a, b]) == a;
  }

  // ---- the round trip ----

  lemma QuantTablesSmall(q: Table8, v: nat, u: nat)
    requires v < 8 && u < 8 && (q == QUANT_LUMA || q == QUANT_CHROMA)
    ensures 0 <= q[v][u] < 256
  {
  }

  /** The quantisation tables in the file are the tables used, in scan order. */
  lemma QuantBytesAre(q: Table8, j: nat)
    requires j < 64 && (q == QUANT_LUMA || q == QUANT_CHROMA)
    ensures 0 <= Zigzag(j) < 64 && QuantBytes(q)[j] == q[Zigzag(j) / 8][Zigzag(j) % 8]
  {
    hide Zigzag, ScanPosition, QUANT_LUMA, QUANT_CHROMA;
    ZigzagIsPermutation(j);
    QuantTablesSmall(q, Zigzag(j) / 8, Zigzag(j) % 8);
  }

  lemma HeaderDecodable(width: nat, height: nat)
    ensures Decodable(HeaderSetup(width, height), HeaderSelectors())
    ensures DecodersFor(HeaderSetup(width, height), HeaderSelectors()) == StandardDecoders()
  {
    hide Proper, DecoderOf, QuantBytes, DC_LUM, AC_LUM, DC_CHR, AC_CHR;
    DcLumTable();
    AcLumTable();
    DcChrTable();
    AcChrTable();
  }

  /** A picture as the decoder gives it. */
  function AsDecoded(img: Image): Picture
    requires ValidImage(img)
  {
    Picture(img.width, img.height, [QuantBytes(QUANT_LUMA), QuantBytes(QUANT_CHROMA), QuantBytes(QUANT_CHROMA)],
            ImageBlocks(img, UnitsHigh(img)))
  }

  lemma DecodeSegment(img: Image, t: Codes)
    requires ValidImage(img) && Sized(t) && Standard(t)
    requires Decodable(HeaderSetup(img.width, img.height), HeaderSelectors())
    requires DecodersFor(HeaderSetup(img.width, img.height), HeaderSelectors()) == StandardDecoders()
    ensures var raw := SegmentBytes(t, ImageBlocks(img, UnitsHigh(img)));
      DecodePicture(HeaderSetup(img.width, img.height), HeaderSelectors(), Stuff(raw) + END_OF_IMAGE) == Some(AsDecoded(img))
  {
    hide Stuff, Unstuff, RawBits, Pack, SegmentBytes, ScanBits, DecodeScan, StandardDecoders, DecodersFor, Decodable;
    hide ImageBlocks, BlockOrder, Comps, QuantBytes, Standard, Sized;
    var blocks := ImageBlocks(img, UnitsHigh(img));
    var raw := SegmentBytes(t, blocks);
    UnstuffFile([], raw);
    assert ([] + Stuff(raw) + END_OF_IMAGE)[0..] == Stuff(raw) + END_OF_IMAGE;
    ScanRoundTrip(t, blocks, Padding(|ScanBits(t, blocks)|));
    HeaderOrder(img);
    var so := HeaderSetup(img.width, img.height);
    assert seq(3, i requires 0 <= i < 3 => so.quants[so.frame.value.comps[i].quant])
        == [QuantBytes(QUANT_LUMA), QuantBytes(QUANT_CHROMA), QuantBytes(QUANT_CHROMA)];
  }

  /** Decoding the file of a picture, with nothing known but its bytes, gives its size, its quantisation tables and
      exactly its quantised blocks. */
  lemma FileDecodes(img: Image, t: Codes)
    requires ValidImage(img) && Sized(t) && Standard(t)
    ensures DecodeJpeg(JpegFile(img, t)) == Some(AsDecoded(img))
  {
    hide ReadParts, Header, SegmentBytes, DecodePicture, Decodable, DecodersFor, Stuff, HeaderSetup, HeaderSelectors;
    hide ImageBlocks, AsDecoded, StandardDecoders, Standard;
    var header := Header(img.width, img.height);
    var raw := SegmentBytes(t, ImageBlocks(img, UnitsHigh(img)));
    assert JpegFile(img, t) == header + (Stuff(raw) + END_OF_IMAGE);
    ReadHeader(img.width, img.height, Stuff(raw) + END_OF_IMAGE);
    HeaderDecodable(img.width, img.height);
    DecodeSegment(img, t);
  }
}
