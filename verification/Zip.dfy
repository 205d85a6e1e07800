/** STORE-only ZIP containers: the bytes written and the integrity-checking reader. */
module Zip {
  import opened Results
  import opened Words
  import Crc32

  datatype Entry = Entry(name: seq<byte>, data: seq<byte>)

  datatype ReadEntry = ReadEntry(name: seq<byte>, data: seq<byte>, crc: nat)

  // Section 4.3 of the PKWARE APPNOTE.
  const SIG_LOCAL: nat := 0x0403_4b50
  const SIG_CENTRAL: nat := 0x0201_4b50
  const SIG_EOCD: nat := 0x0605_4b50
  const VERSION_NEEDED: nat := 20
  const FLAG_UTF8: nat := 0x0800
  const METHOD_STORE: nat := 0
  const DOS_TIME: nat := 0
  const DOS_DATE: nat := 0x0021
  const MAX16: nat := 0xFFFF
  const MAX32: nat := 0xFFFF_FFFF

  // ---- little-endian fields ----

  function U16(v: nat): (s: seq<byte>)
    ensures |s| == 2
  {
    [v % 256, v / 256 % 256]
  }

  function U32(v: nat): (s: seq<byte>)
    ensures |s| == 4
  {
    [v % 256, v / 0x100 % 256, v / 0x1_0000 % 256, v / 0x100_0000 % 256]
  }

  function Get16(s: seq<byte>, off: nat): (v: nat)
    requires off + 2 <= |s|
    ensures v <= MAX16
  {
    var b0: nat, b1: nat := s[off], s[off + 1];
    b0 + 0x100 * b1
  }

  function Get32(s: seq<byte>, off: nat): (v: nat)
    requires off + 4 <= |s|
    ensures v <= MAX32
  {
    var b0: nat, b1: nat, b2: nat, b3: nat := s[off], s[off + 1], s[off + 2], s[off + 3];
    b0 + 0x100 * b1 + 0x1_0000 * b2 + 0x100_0000 * b3
  }

  lemma GetU16(v: nat)
    requires v <= MAX16
    ensures Get16(U16(v), 0) == v
  {
  }

  lemma GetU32(v: nat)
    requires v <= MAX32
    ensures Get32(U32(v), 0) == v
  {
    var a, b, c := v / 0x100, v / 0x1_0000, v / 0x100_0000;
    assert v == v % 256 + 256 * a;
    assert b == a / 256 && a == a % 256 + 256 * b;
    assert c == b / 256 && b == b % 256 + 256 * c;
    assert c % 256 == c;
  }

  /** A field is read where a run of bytes holding it starts. */
  lemma Get16At(s: seq<byte>, off: nat, v: nat)
    requires v <= MAX16 && off + 2 <= |s| && s[off..off + 2] == U16(v)
    ensures Get16(s, off) == v
  {
    GetU16(v);
    assert s[off..off + 2][0] == s[off] && s[off..off + 2][1] == s[off + 1];
  }

  lemma Get32At(s: seq<byte>, off: nat, v: nat)
    requires v <= MAX32 && off + 4 <= |s| && s[off..off + 4] == U32(v)
    ensures Get32(s, off) == v
  {
    GetU32(v);
    var f := s[off..off + 4];
    assert f[0] == s[off] && f[1] == s[off + 1] && f[2] == s[off + 2] && f[3] == s[off + 3];
  }

  // ---- records ----

  function LocalHeader(name: seq<byte>, crc: nat, size: nat): (h: seq<byte>)
    ensures |h| == 30
  {
    U32(SIG_LOCAL) + U16(VERSION_NEEDED) + U16(FLAG_UTF8) + U16(METHOD_STORE) + U16(DOS_TIME) + U16(DOS_DATE)
    + U32(crc) + U32(size) + U32(size) + U16(|name|) + U16(0)
  }

  function CentralHeader(name: seq<byte>, crc: nat, size: nat, offset: nat): (h: seq<byte>)
    ensures |h| == 46
  {
    U32(SIG_CENTRAL) + U16(VERSION_NEEDED) + U16(VERSION_NEEDED) + U16(FLAG_UTF8) + U16(METHOD_STORE)
    + U16(DOS_TIME) + U16(DOS_DATE) + U32(crc) + U32(size) + U32(size) + U16(|name|) + U16(0) + U16(0) + U16(0)
    + U16(0) + U32(0) + U32(offset)
  }

  function EndRecord(count: nat, cdSize: nat, cdOffset: nat): (h: seq<byte>)
    ensures |h| == 22
  {
    U32(SIG_EOCD) + U16(0) + U16(0) + U16(count) + U16(count) + U32(cdSize) + U32(cdOffset) + U16(0)
  }

  function LocalRecord(e: ReadEntry): (r: seq<byte>)
    ensures |r| == 30 + |e.name| + |e.data|
  {
    LocalHeader(e.name, e.crc, |e.data|) + e.name + e.data
  }

  function CentralRecord(e: ReadEntry, offset: nat): (r: seq<byte>)
    ensures |r| == 46 + |e.name|
  {
    CentralHeader(e.name, e.crc, |e.data|, offset) + e.name
  }

  /** The local records of the first `n` entries. */
  function Locals(entries: seq<ReadEntry>, n: nat): seq<byte>
    requires n <= |entries|
  {
    if n == 0 then [] else Locals(entries, n - 1) + LocalRecord(entries[n - 1])
  }

  /** The central directory records of the first `n` entries. */
  function Central(entries: seq<ReadEntry>, n: nat): seq<byte>
    requires n <= |entries|
  {
    if n == 0 then []
    else Central(entries, n - 1) + CentralRecord(entries[n - 1], |Locals(entries, n - 1)|)
  }

  /** A whole container: local records, central directory, end record. */
  function Package(entries: seq<ReadEntry>): seq<byte> {
    var n := |entries|;
    Locals(entries, n) + Central(entries, n) + EndRecord(n, |Central(entries, n)|, |Locals(entries, n)|)
  }

  // ---- what the writer accepts ----

  datatype WriteError = EmptyName | EntryTooLarge | PackageTooLarge | DirectoryTooLarge

  /** An entry as written: with the checksum of its data. */
  function Stamp(e: Entry): ReadEntry {
    ReadEntry(e.name, e.data, Crc32.Crc(e.data))
  }

  function StampAll(entries: seq<Entry>): (r: seq<ReadEntry>)
    ensures |r| == |entries|
  {
    seq(|entries|, i requires 0 <= i < |entries| => Stamp(entries[i]))
  }

  ghost predicate EntryFits(e: ReadEntry) {
    0 < |e.name| <= MAX16 && |e.data| <= MAX32 && e.crc <= MAX32
  }

  /** Every count, size and offset fits its field. */
  ghost predicate Fits(entries: seq<ReadEntry>) {
    && |entries| <= MAX16
    && (forall i :: 0 <= i < |entries| ==> EntryFits(entries[i]))
    && |Locals(entries, |entries|)| <= MAX32
    && |Central(entries, |entries|)| <= MAX32
  }

  lemma {:induction false} LocalsGrow(entries: seq<ReadEntry>, i: nat, n: nat)
    requires i <= n <= |entries|
    ensures Locals(entries, i) <= Locals(entries, n)
  {
    if i < n {
      LocalsGrow(entries, i, n - 1);
    }
  }

  lemma {:induction false} CentralGrows(entries: seq<ReadEntry>, i: nat, n: nat)
    requires i <= n <= |entries|
    ensures Central(entries, i) <= Central(entries, n)
  {
    if i < n {
      CentralGrows(entries, i, n - 1);
    }
  }

  // ---- the reader ----

  datatype ReadError =
    | TooSmall | NoEndRecord | DirectoryRange
    | CentralSignature | CentralName | CentralMethod
    | LocalSignature | LocalMethod | HeaderMismatch | DataRange | CrcMismatch

  /** The last end-record signature at or before `i`, not looking before `from`. */
  function FindEnd(bytes: seq<byte>, i: nat, from: nat): (r: Option<nat>)
    requires from <= i && i + 22 <= |bytes|
    ensures r.Some? ==> from <= r.value <= i && Get32(bytes, r.value) == SIG_EOCD
    ensures forall j :: (if r.Some? then r.value < j else from <= j) && j <= i ==> Get32(bytes, j) != SIG_EOCD
    decreases i
  {
    if Get32(bytes, i) == SIG_EOCD then Some(i)
    else if i == from then None
    else FindEnd(bytes, i - 1, from)
  }

  /** How far back the search for the end record goes. */
  function SearchFrom(size: nat): nat {
    if size > 22 + MAX16 then size - (22 + MAX16) else 0
  }

  datatype CdItem = CdItem(name: seq<byte>, crc: nat, size: nat, offset: nat)

  /** The directory item at `p`, and where the next one starts. */
  function ReadItem(bytes: seq<byte>, p: nat): (r: Result<(CdItem, nat), ReadError>)
    ensures r.Ok? ==> p < r.value.1
  {
    if p + 46 > |bytes| || Get32(bytes, p) != SIG_CENTRAL then Err(CentralSignature)
    else
      var nameLen := Get16(bytes, p + 28);
      if p + 46 + nameLen > |bytes| then Err(CentralName)
      else if Get16(bytes, p + 10) != METHOD_STORE then Err(CentralMethod)
      else
        Ok((CdItem(bytes[p + 46..p + 46 + nameLen], Get32(bytes, p + 16), Get32(bytes, p + 24), Get32(bytes, p + 42)),
            p + 46 + nameLen + Get16(bytes, p + 30) + Get16(bytes, p + 32)))
  }

  function ReadItems(bytes: seq<byte>, p: nat, count: nat): Result<seq<CdItem>, ReadError>
    decreases count
  {
    if count == 0 then Ok([])
    else
      match ReadItem(bytes, p)
      case Err(e) => Err(e)
      case Ok(first) =>
        match ReadItems(bytes, first.1, count - 1)
        case Err(e) => Err(e)
        case Ok(others) => Ok([first.0] + others)
  }

  /** The entry a directory item refers to, every check passed. */
  function ReadData(bytes: seq<byte>, it: CdItem): Result<ReadEntry, ReadError> {
    var lfh := it.offset;
    if lfh + 30 > |bytes| || Get32(bytes, lfh) != SIG_LOCAL then Err(LocalSignature)
    else if Get16(bytes, lfh + 8) != METHOD_STORE then Err(LocalMethod)
    else if Get32(bytes, lfh + 14) != it.crc || Get32(bytes, lfh + 22) != it.size then Err(HeaderMismatch)
    else
      var at := lfh + 30 + Get16(bytes, lfh + 26) + Get16(bytes, lfh + 28);
      if at + it.size > |bytes| then Err(DataRange)
      else if Crc32.Crc(bytes[at..at + it.size]) != it.crc then Err(CrcMismatch)
      else Ok(ReadEntry(it.name, bytes[at..at + it.size], it.crc))
  }

  function ReadAll(bytes: seq<byte>, items: seq<CdItem>): Result<seq<ReadEntry>, ReadError> {
    if items == [] then Ok([])
    else
      match ReadData(bytes, items[0])
      case Err(e) => Err(e)
      case Ok(first) =>
        match ReadAll(bytes, items[1..])
        case Err(e) => Err(e)
        case Ok(others) => Ok([first] + others)
  }

  /** What reading a container gives: all its entries, or why it is rejected. */
  function Read(bytes: seq<byte>): Result<seq<ReadEntry>, ReadError> {
    if |bytes| < 22 then Err(TooSmall)
    else
      match FindEnd(bytes, |bytes| - 22, SearchFrom(|bytes|))
      case None => Err(NoEndRecord)
      case Some(end) =>
        var cdSize, cdOffset := Get32(bytes, end + 12), Get32(bytes, end + 16);
        if cdOffset + cdSize > end then Err(DirectoryRange)
        else
          match ReadItems(bytes, cdOffset, Get16(bytes, end + 10))
          case Err(e) => Err(e)
          case Ok(items) => ReadAll(bytes, items)
  }

  // ---- reading what was written ----

  ghost predicate HoldsAt(bytes: seq<byte>, p: nat, s: seq<byte>) {
    p + |s| <= |bytes| && bytes[p..p + |s|] == s
  }

  lemma FieldAt16(bytes: seq<byte>, p: nat, s: seq<byte>, k: nat, v: nat)
    requires HoldsAt(bytes, p, s) && k + 2 <= |s| && s[k..k + 2] == U16(v) && v <= MAX16
    ensures Get16(bytes, p + k) == v
  {
    SliceOfSlice(bytes, p, |s|, k, k + 2);
    Get16At(bytes, p + k, v);
  }

  lemma FieldAt32(bytes: seq<byte>, p: nat, s: seq<byte>, k: nat, v: nat)
    requires HoldsAt(bytes, p, s) && k + 4 <= |s| && s[k..k + 4] == U32(v) && v <= MAX32
    ensures Get32(bytes, p + k) == v
  {
    SliceOfSlice(bytes, p, |s|, k, k + 4);
    Get32At(bytes, p + k, v);
  }

  lemma HoldsPart(bytes: seq<byte>, p: nat, s: seq<byte>, i: nat, j: nat)
    requires HoldsAt(bytes, p, s) && i <= j <= |s|
    ensures HoldsAt(bytes, p + i, s[i..j])
  {
    SliceOfSlice(bytes, p, |s|, i, j);
  }

  lemma CentralFields(name: seq<byte>, crc: nat, size: nat, offset: nat)
    ensures var h := CentralHeader(name, crc, size, offset);
            && h[0..4] == U32(SIG_CENTRAL) && h[10..12] == U16(METHOD_STORE) && h[16..20] == U32(crc)
            && h[24..28] == U32(size) && h[28..30] == U16(|name|) && h[30..32] == U16(0) && h[32..34] == U16(0)
            && h[42..46] == U32(offset)
  {
  }

  lemma LocalFields(name: seq<byte>, crc: nat, size: nat)
    ensures var h := LocalHeader(name, crc, size);
            && h[0..4] == U32(SIG_LOCAL) && h[8..10] == U16(METHOD_STORE) && h[14..18] == U32(crc)
            && h[22..26] == U32(size) && h[26..28] == U16(|name|) && h[28..30] == U16(0)
  {
  }

  lemma EndFields(count: nat, cdSize: nat, cdOffset: nat)
    ensures var h := EndRecord(count, cdSize, cdOffset);
            && h[0..4] == U32(SIG_EOCD) && h[10..12] == U16(count) && h[12..16] == U32(cdSize)
            && h[16..20] == U32(cdOffset)
  {
  }

  /** A written directory record reads back as its item. */
  lemma ReadItemBack(bytes: seq<byte>, p: nat, e: ReadEntry, offset: nat)
    requires EntryFits(e) && offset <= MAX32 && HoldsAt(bytes, p, CentralRecord(e, offset))
    ensures ReadItem(bytes, p) == Ok((CdItem(e.name, e.crc, |e.data|, offset), p + |CentralRecord(e, offset)|))
  {
    hide CentralHeader, Get16, Get32, U16, U32;
    var rec := CentralRecord(e, offset);
    var h := CentralHeader(e.name, e.crc, |e.data|, offset);
    CentralFields(e.name, e.crc, |e.data|, offset);
    HoldsPart(bytes, p, rec, 0, 46);
    assert rec[0..46] == h;
    FieldAt32(bytes, p, h, 0, SIG_CENTRAL);
    FieldAt16(bytes, p, h, 10, METHOD_STORE);
    FieldAt32(bytes, p, h, 16, e.crc);
    FieldAt32(bytes, p, h, 24, |e.data|);
    FieldAt16(bytes, p, h, 28, |e.name|);
    FieldAt16(bytes, p, h, 30, 0);
    FieldAt16(bytes, p, h, 32, 0);
    FieldAt32(bytes, p, h, 42, offset);
    HoldsPart(bytes, p, rec, 46, |rec|);
    assert rec[46..] == e.name;
  }

  lemma LocalFieldsBack(bytes: seq<byte>, p: nat, e: ReadEntry)
    requires EntryFits(e) && HoldsAt(bytes, p, LocalRecord(e))
    ensures p + 30 + |e.name| + |e.data| <= |bytes|
    ensures Get32(bytes, p) == SIG_LOCAL && Get16(bytes, p + 8) == METHOD_STORE
    ensures Get32(bytes, p + 14) == e.crc && Get32(bytes, p + 22) == |e.data|
    ensures Get16(bytes, p + 26) == |e.name| && Get16(bytes, p + 28) == 0
    ensures HoldsAt(bytes, p + 30 + |e.name|, e.data)
  {
    hide LocalHeader, Get16, Get32, U16, U32;
    var rec := LocalRecord(e);
    var h := LocalHeader(e.name, e.crc, |e.data|);
    LocalFields(e.name, e.crc, |e.data|);
    HoldsPart(bytes, p, rec, 0, 30);
    assert rec[0..30] == h;
    FieldAt32(bytes, p, h, 0, SIG_LOCAL);
    FieldAt16(bytes, p, h, 8, METHOD_STORE);
    FieldAt32(bytes, p, h, 14, e.crc);
    FieldAt32(bytes, p, h, 22, |e.data|);
    FieldAt16(bytes, p, h, 26, |e.name|);
    FieldAt16(bytes, p, h, 28, 0);
    HoldsPart(bytes, p, rec, 30 + |e.name|, |rec|);
    assert rec[30 + |e.name|..] == e.data;
  }

  /** A written local record gives its data back exactly when the recorded checksum matches it. */
  lemma ReadDataBack(bytes: seq<byte>, p: nat, e: ReadEntry)
    requires EntryFits(e) && HoldsAt(bytes, p, LocalRecord(e))
    ensures ReadData(bytes, CdItem(e.name, e.crc, |e.data|, p))
         == if Crc32.Crc(e.data) == e.crc then Ok(e) else Err(CrcMismatch)
  {
    hide LocalRecord, Get16, Get32, Crc32.Crc;
    LocalFieldsBack(bytes, p, e);
    var at := p + 30 + |e.name|;
    assert at == p + 30 + Get16(bytes, p + 26) + Get16(bytes, p + 28);
    assert bytes[at..at + |e.data|] == e.data;
  }

  lemma Parts(entries: seq<ReadEntry>)
    ensures var n, b := |entries|, Package(entries);
            && HoldsAt(b, 0, Locals(entries, n))
            && HoldsAt(b, |Locals(entries, n)|, Central(entries, n))
            && |b| == |Locals(entries, n)| + |Central(entries, n)| + 22
            && HoldsAt(b, |b| - 22, EndRecord(n, |Central(entries, n)|, |Locals(entries, n)|))
  {
    var n, b := |entries|, Package(entries);
    var l, c, e := Locals(entries, n), Central(entries, n), EndRecord(n, |Central(entries, n)|, |Locals(entries, n)|);
    assert b[|l|..|l| + |c|] == c;
    assert b[|l| + |c|..] == e;
  }

  lemma LocalsHeld(entries: seq<ReadEntry>)
    ensures HoldsAt(Package(entries), 0, Locals(entries, |entries|))
  {
    hide *;
    Parts(entries);
  }

  lemma NextLocal(entries: seq<ReadEntry>, i: nat)
    requires i < |entries|
    ensures Locals(entries, i + 1) == Locals(entries, i) + LocalRecord(entries[i])
  {
  }

  lemma LocalInPackage(entries: seq<ReadEntry>, i: nat)
    requires i < |entries|
    ensures HoldsAt(Package(entries), |Locals(entries, i)|, LocalRecord(entries[i]))
  {
    hide *;
    var before, rec, l := Locals(entries, i), LocalRecord(entries[i]), Locals(entries, |entries|);
    NextLocal(entries, i);
    LocalsHeld(entries);
    LocalsGrow(entries, i + 1, |entries|);
    SliceOfPrefix(before, rec, l);
    HoldsPart(Package(entries), 0, l, |before|, |before| + |rec|);
    assert 0 + |before| == |before|;
  }

  lemma NextCentral(entries: seq<ReadEntry>, i: nat)
    requires i < |entries|
    ensures Central(entries, i + 1) == Central(entries, i) + CentralRecord(entries[i], |Locals(entries, i)|)
  {
  }

  lemma CentralInPackage(entries: seq<ReadEntry>, i: nat)
    requires i < |entries|
    ensures HoldsAt(Package(entries), |Locals(entries, |entries|)| + |Central(entries, i)|,
                    CentralRecord(entries[i], |Locals(entries, i)|))
  {
    hide *;
    Parts(entries);
    NextCentral(entries, i);
    CentralGrows(entries, i + 1, |entries|);
    var c := Central(entries, |entries|);
    SliceOfPrefix(Central(entries, i), CentralRecord(entries[i], |Locals(entries, i)|), c);
    HoldsPart(Package(entries), |Locals(entries, |entries|)|, c, |Central(entries, i)|, |Central(entries, i + 1)|);
  }

  function ItemOf(entries: seq<ReadEntry>, i: nat): CdItem
    requires i < |entries|
  {
    CdItem(entries[i].name, entries[i].crc, |entries[i].data|, |Locals(entries, i)|)
  }

  function ItemsFrom(entries: seq<ReadEntry>, i: nat): seq<CdItem>
    requires i <= |entries|
    decreases |entries| - i
  {
    if i == |entries| then [] else [ItemOf(entries, i)] + ItemsFrom(entries, i + 1)
  }

  lemma {:induction false} ReadItemsBack(entries: seq<ReadEntry>, i: nat)
    requires Fits(entries) && i <= |entries|
    ensures ReadItems(Package(entries), |Locals(entries, |entries|)| + |Central(entries, i)|, |entries| - i)
         == Ok(ItemsFrom(entries, i))
    decreases |entries| - i
  {
    hide Package, Locals, ReadItem, CentralRecord;
    if i < |entries| {
      CentralInPackage(entries, i);
      LocalsGrow(entries, i, |entries|);
      ReadItemBack(Package(entries), |Locals(entries, |entries|)| + |Central(entries, i)|, entries[i], |Locals(entries, i)|);
      ReadItemsBack(entries, i + 1);
    }
  }

  /** Every recorded checksum from entry `i` on is that of the data. */
  ghost predicate Intact(entries: seq<ReadEntry>, i: nat) {
    forall j :: i <= j < |entries| ==> Crc32.Crc(entries[j].data) == entries[j].crc
  }

  lemma ReadItemData(entries: seq<ReadEntry>, i: nat)
    requires Fits(entries) && i < |entries|
    ensures ReadData(Package(entries), ItemOf(entries, i))
         == if Crc32.Crc(entries[i].data) == entries[i].crc then Ok(entries[i]) else Err(CrcMismatch)
  {
    hide Package, Locals, ReadData, LocalRecord, Crc32.Crc;
    LocalInPackage(entries, i);
    ReadDataBack(Package(entries), |Locals(entries, i)|, entries[i]);
  }

  lemma IntactFrom(entries: seq<ReadEntry>, i: nat)
    requires i < |entries|
    ensures Intact(entries, i) <==> Crc32.Crc(entries[i].data) == entries[i].crc && Intact(entries, i + 1)
  {
  }

  lemma AllRead(bytes: seq<byte>, entries: seq<ReadEntry>)
    ensures ReadAll(bytes, []) == Ok(entries[|entries|..]) && Intact(entries, |entries|)
  {
    assert entries[|entries|..] == [];
  }

  lemma ReadAllStep(bytes: seq<byte>, it: CdItem, items: seq<CdItem>)
    ensures ReadAll(bytes, [it] + items)
         == match ReadData(bytes, it)
            case Err(e) => Err(e)
            case Ok(first) =>
              match ReadAll(bytes, items)
              case Err(e) => Err(e)
              case Ok(others) => Ok([first] + others)
  {
    assert ([it] + items)[1..] == items;
  }

  lemma ItemsNext(entries: seq<ReadEntry>, i: nat)
    requires i < |entries|
    ensures ItemsFrom(entries, i) == [ItemOf(entries, i)] + ItemsFrom(entries, i + 1)
  {
  }

  lemma ReadAllBackStep(entries: seq<ReadEntry>, i: nat)
    requires Fits(entries) && i < |entries|
    requires ReadAll(Package(entries), ItemsFrom(entries, i + 1))
          == if Intact(entries, i + 1) then Ok(entries[i + 1..]) else Err(CrcMismatch)
    ensures ReadAll(Package(entries), ItemsFrom(entries, i))
         == if Intact(entries, i) then Ok(entries[i..]) else Err(CrcMismatch)
  {
    hide *;
    ReadItemData(entries, i);
    ItemsNext(entries, i);
    IntactFrom(entries, i);
    ReadAllStep(Package(entries), ItemOf(entries, i), ItemsFrom(entries, i + 1));
    assert entries[i..] == [entries[i]] + entries[i + 1..];
  }

  lemma NoItemsLeft(entries: seq<ReadEntry>)
    ensures ItemsFrom(entries, |entries|) == []
  {
  }

  lemma {:induction false} ReadAllBack(entries: seq<ReadEntry>, i: nat)
    requires Fits(entries) && i <= |entries|
    ensures ReadAll(Package(entries), ItemsFrom(entries, i))
         == if Intact(entries, i) then Ok(entries[i..]) else Err(CrcMismatch)
    decreases |entries| - i
  {
    hide *;
    if i == |entries| {
      NoItemsLeft(entries);
      AllRead(Package(entries), entries);
    } else {
      ReadAllBack(entries, i + 1);
      ReadAllBackStep(entries, i);
    }
  }

  /** Reading a container gives all its entries back when every recorded checksum is that of the data, and
      rejects it otherwise, whatever bytes the data hold. */
  lemma ReadPackage(entries: seq<ReadEntry>)
    requires Fits(entries)
    ensures Read(Package(entries)) == if Intact(entries, 0) then Ok(entries) else Err(CrcMismatch)
  {
    var n, b := |entries|, Package(entries);
    hide *;
    EndRecordBack(entries);
    ReadItemsBack(entries, 0);
    ReadAllBack(entries, 0);
    assert entries[0..] == entries;
    ReadByParts(b, n, |Central(entries, n)|, |Locals(entries, n)|);
    NoneYet(entries);
  }

  lemma NoneYet(entries: seq<ReadEntry>)
    ensures |Central(entries, 0)| == 0
  {
  }

  lemma EndRecordBack(entries: seq<ReadEntry>)
    requires Fits(entries)
    ensures var b, n := Package(entries), |entries|;
            && |b| == |Locals(entries, n)| + |Central(entries, n)| + 22
            && Get32(b, |b| - 22) == SIG_EOCD && Get16(b, |b| - 12) == n
            && Get32(b, |b| - 10) == |Central(entries, n)| && Get32(b, |b| - 6) == |Locals(entries, n)|
  {
    hide Package, Locals, Central, EndRecord, Get16, Get32, U16, U32;
    var n, b := |entries|, Package(entries);
    var l, c := |Locals(entries, n)|, |Central(entries, n)|;
    var end := EndRecord(n, c, l);
    Parts(entries);
    EndFields(n, c, l);
    FieldAt32(b, |b| - 22, end, 0, SIG_EOCD);
    FieldAt16(b, |b| - 22, end, 10, n);
    FieldAt32(b, |b| - 22, end, 12, c);
    FieldAt32(b, |b| - 22, end, 16, l);
  }

  /** Reading when the end record is at the very end. */
  lemma ReadByParts(b: seq<byte>, n: nat, c: nat, l: nat)
    requires |b| == l + c + 22
    requires Get32(b, |b| - 22) == SIG_EOCD && Get16(b, |b| - 12) == n && Get32(b, |b| - 10) == c && Get32(b, |b| - 6) == l
    ensures Read(b) == match ReadItems(b, l, n) case Err(e) => Err(e) case Ok(items) => ReadAll(b, items)
  {
    hide Get16, Get32, ReadItems, ReadAll;
    var end := |b| - 22;
    assert FindEnd(b, end, SearchFrom(|b|)) == Some(end);
    assert end + 10 == |b| - 12 && end + 12 == |b| - 10 && end + 16 == |b| - 6;
  }

  // ---- the writer ----

  /** The first reason to refuse any of the first `n` entries. */
  function Fault(entries: seq<ReadEntry>, n: nat): Option<WriteError>
    requires n <= |entries|
  {
    if n == 0 then None
    else if Fault(entries, n - 1).Some? then Fault(entries, n - 1)
    else
      var e := entries[n - 1];
      if e.name == [] then Some(EmptyName)
      else if |e.name| > MAX16 || |e.data| > MAX32 then Some(EntryTooLarge)
      else if |Locals(entries, n - 1)| > MAX32 then Some(PackageTooLarge)
      else None
  }

  /** What writing gives: a container of the stamped entries, or the first reason to refuse them. */
  function Write(entries: seq<Entry>): Result<seq<byte>, WriteError> {
    var s := StampAll(entries);
    var n := |entries|;
    if Fault(s, n).Some? then Err(Fault(s, n).value)
    else if |Locals(s, n)| > MAX32 then Err(PackageTooLarge)
    else if n > MAX16 || |Central(s, n)| > MAX32 then Err(DirectoryTooLarge)
    else Ok(Package(s))
  }

  lemma {:induction false} NoFault(entries: seq<ReadEntry>, n: nat)
    requires n <= |entries|
    ensures Fault(entries, n).None? <==>
              forall i :: 0 <= i < n ==>
                0 < |entries[i].name| <= MAX16 && |entries[i].data| <= MAX32 && |Locals(entries, i)| <= MAX32
  {
    hide Locals;
    if n != 0 {
      NoFault(entries, n - 1);
    }
  }

  /** The writer accepts exactly the entry lists whose every field fits. */
  lemma WriteAccepts(entries: seq<Entry>)
    ensures Write(entries).Ok? <==> Fits(StampAll(entries))
    ensures Write(entries).Ok? ==> Write(entries).value == Package(StampAll(entries))
  {
    var s, n := StampAll(entries), |entries|;
    NoFault(s, n);
    forall i | 0 <= i < n
      ensures s[i].crc <= MAX32
      ensures |Locals(s, n)| <= MAX32 ==> |Locals(s, i)| <= MAX32
    {
      Crc32.CrcRange(entries[i].data);
      Crc32.PolyTop();
      LocalsGrow(s, i, n);
    }
  }

  /** The round trip: whatever the writer accepts reads back with the same names, data and order, each with
      the checksum of its data. */
  lemma WriteThenRead(entries: seq<Entry>)
    requires Write(entries).Ok?
    ensures Read(Write(entries).value) == Ok(StampAll(entries))
  {
    WriteAccepts(entries);
    ReadPackage(StampAll(entries));
  }

  // ---- corruption ----

  /** `entries` with the data of entry `j` replaced but everything else as recorded. */
  function Corrupt(entries: seq<ReadEntry>, j: nat, data: seq<byte>): (r: seq<ReadEntry>)
    requires j < |entries|
    ensures |r| == |entries|
  {
    entries[j := entries[j].(data := data)]
  }

  lemma {:induction false} CorruptLengths(entries: seq<ReadEntry>, j: nat, data: seq<byte>, n: nat)
    requires j < |entries| && |data| == |entries[j].data| && n <= |entries|
    ensures |Locals(Corrupt(entries, j, data), n)| == |Locals(entries, n)|
    ensures Central(Corrupt(entries, j, data), n) == Central(entries, n)
  {
    if n != 0 {
      CorruptLengths(entries, j, data, n - 1);
    }
  }

  lemma CorruptFits(entries: seq<ReadEntry>, j: nat, data: seq<byte>)
    requires Fits(entries) && j < |entries| && |data| == |entries[j].data|
    ensures Fits(Corrupt(entries, j, data))
  {
    CorruptLengths(entries, j, data, |entries|);
  }

  /** Where the data of entry `j` starts in a container. */
  function DataOffset(entries: seq<ReadEntry>, j: nat): nat
    requires j < |entries|
  {
    |Locals(entries, j)| + 30 + |entries[j].name|
  }

  /** `b` with the bytes from `at` on overwritten by `data`. */
  function Overwrite(b: seq<byte>, at: nat, data: seq<byte>): seq<byte>
    requires at + |data| <= |b|
  {
    b[..at] + data + b[at + |data|..]
  }

  lemma OverwriteBefore(a: seq<byte>, at: nat, data: seq<byte>, tail: seq<byte>)
    requires at + |data| <= |a|
    ensures Overwrite(a + tail, at, data) == Overwrite(a, at, data) + tail
  {
    assert (a + tail)[..at] == a[..at];
    assert (a + tail)[at + |data|..] == a[at + |data|..] + tail;
  }

  lemma OverwriteEnd(a: seq<byte>, old_: seq<byte>, data: seq<byte>)
    requires |old_| == |data|
    ensures Overwrite(a + old_, |a|, data) == a + data
  {
    assert (a + old_)[..|a|] == a;
  }

  lemma {:induction false} CorruptLocals(entries: seq<ReadEntry>, j: nat, data: seq<byte>, n: nat)
    requires j < n <= |entries| && |data| == |entries[j].data|
    ensures DataOffset(entries, j) + |data| <= |Locals(entries, n)|
    ensures Locals(Corrupt(entries, j, data), n) == Overwrite(Locals(entries, n), DataOffset(entries, j), data)
  {
    if n == j + 1 {
      SameLocals(entries, j, data, j);
      CorruptRecord(Locals(entries, j), entries[j], data);
    } else {
      CorruptLocals(entries, j, data, n - 1);
      OverwriteBefore(Locals(entries, n - 1), DataOffset(entries, j), data, LocalRecord(entries[n - 1]));
    }
  }

  lemma CorruptRecord(before: seq<byte>, e: ReadEntry, data: seq<byte>)
    requires |data| == |e.data|
    ensures before + LocalRecord(e.(data := data))
         == Overwrite(before + LocalRecord(e), |before| + 30 + |e.name|, data)
  {
    hide LocalHeader, Overwrite;
    var h := LocalHeader(e.name, e.crc, |e.data|);
    assert before + LocalRecord(e) == before + h + e.name + e.data;
    assert before + LocalRecord(e.(data := data)) == before + h + e.name + data;
    OverwriteEnd(before + h + e.name, e.data, data);
  }

  lemma {:induction false} SameLocals(entries: seq<ReadEntry>, j: nat, data: seq<byte>, n: nat)
    requires n <= j < |entries|
    ensures Locals(Corrupt(entries, j, data), n) == Locals(entries, n)
  {
    if n != 0 {
      SameLocals(entries, j, data, n - 1);
    }
  }

  /** Overwriting the data of one entry in the bytes of a container. */
  lemma CorruptPackage(entries: seq<ReadEntry>, j: nat, data: seq<byte>)
    requires j < |entries| && |data| == |entries[j].data|
    ensures DataOffset(entries, j) + |data| <= |Package(entries)|
    ensures Package(Corrupt(entries, j, data)) == Overwrite(Package(entries), DataOffset(entries, j), data)
  {
    var n := |entries|;
    hide Locals, Central, EndRecord, DataOffset, Overwrite, Corrupt;
    CorruptLocals(entries, j, data, n);
    CorruptLengths(entries, j, data, n);
    var c, e := Central(entries, n), EndRecord(n, |Central(entries, n)|, |Locals(entries, n)|);
    OverwriteBefore(Locals(entries, n), DataOffset(entries, j), data, c);
    OverwriteBefore(Locals(entries, n) + c, DataOffset(entries, j), data, e);
  }

  /** Other data of the same length in place of an entry's is refused, whenever its checksum differs. */
  lemma CorruptionRejected(entries: seq<Entry>, j: nat, data: seq<byte>)
    requires Write(entries).Ok? && j < |entries|
    requires |data| == |entries[j].data| && Crc32.Crc(data) != Crc32.Crc(entries[j].data)
    ensures DataOffset(StampAll(entries), j) + |data| <= |Write(entries).value|
    ensures Read(Overwrite(Write(entries).value, DataOffset(StampAll(entries), j), data)) == Err(CrcMismatch)
  {
    var s := StampAll(entries);
    hide *;
    WriteAccepts(entries);
    StampedEntry(entries, j);
    CorruptPackage(s, j, data);
    CorruptFits(s, j, data);
    ReadPackage(Corrupt(s, j, data));
    NotIntact(s, j, data);
  }

  /** A package in which one burst of up to 32 bits of an entry's data was changed is refused. */
  lemma BurstRejected(entries: seq<Entry>, j: nat, data: seq<byte>)
    requires Write(entries).Ok? && j < |entries|
    requires |data| == |entries[j].data| && data != entries[j].data
    requires Crc32.WithinBurst(Crc32.MessageBits(data), Crc32.MessageBits(entries[j].data))
    ensures DataOffset(StampAll(entries), j) + |data| <= |Write(entries).value|
    ensures Read(Overwrite(Write(entries).value, DataOffset(StampAll(entries), j), data)) == Err(CrcMismatch)
  {
    hide *;
    Crc32.BurstDetected(data, entries[j].data);
    CorruptionRejected(entries, j, data);
  }

  /** So is one in which up to four consecutive bytes of an entry's data were changed. */
  lemma FourBytesRejected(entries: seq<Entry>, j: nat, p: seq<byte>, u: seq<byte>, v: seq<byte>, s: seq<byte>)
    requires Write(entries).Ok? && j < |entries| && entries[j].data == p + u + s
    requires |u| == |v| <= 4 && u != v
    ensures DataOffset(StampAll(entries), j) + |p + v + s| <= |Write(entries).value|
    ensures Read(Overwrite(Write(entries).value, DataOffset(StampAll(entries), j), p + v + s)) == Err(CrcMismatch)
  {
    hide *;
    Crc32.FourBytesDetected(p, v, u, s);
    CorruptionRejected(entries, j, p + v + s);
  }

  lemma StampedEntry(entries: seq<Entry>, j: nat)
    requires j < |entries|
    ensures StampAll(entries)[j].data == entries[j].data
    ensures StampAll(entries)[j].crc == Crc32.Crc(entries[j].data)
  {
  }

  lemma NotIntact(entries: seq<ReadEntry>, j: nat, data: seq<byte>)
    requires j < |entries| && Crc32.Crc(data) != entries[j].crc
    ensures !Intact(Corrupt(entries, j, data), 0)
  {
    assert Corrupt(entries, j, data)[j].data == data;
  }

  /** Whatever bytes are read, an entry is only ever delivered with data whose checksum was recorded. */
  lemma {:induction false} ReadAllSound(bytes: seq<byte>, items: seq<CdItem>)
    requires ReadAll(bytes, items).Ok?
    ensures |ReadAll(bytes, items).value| == |items| && Intact(ReadAll(bytes, items).value, 0)
  {
    hide Crc32.Crc;
    if items != [] {
      ReadAllSound(bytes, items[1..]);
    }
  }

  /** Reading is all or nothing: what it delivers has every recorded checksum right and is as many entries as
      the end record counts. */
  lemma ReadSound(bytes: seq<byte>)
    requires Read(bytes).Ok?
    ensures Intact(Read(bytes).value, 0)
    ensures exists end :: 0 <= end && end + 22 <= |bytes| && Get32(bytes, end) == SIG_EOCD
                          && |Read(bytes).value| == Get16(bytes, end + 10)
  {
    hide Get16, Get32, ReadItems, ReadAll, Intact;
    var end := FindEnd(bytes, |bytes| - 22, SearchFrom(|bytes|)).value;
    ReadItemsCount(bytes, Get32(bytes, end + 16), Get16(bytes, end + 10));
    ReadAllSound(bytes, ReadItems(bytes, Get32(bytes, end + 16), Get16(bytes, end + 10)).value);
  }

  lemma {:induction false} ReadItemsCount(bytes: seq<byte>, p: nat, count: nat)
    requires ReadItems(bytes, p, count).Ok?
    ensures |ReadItems(bytes, p, count).value| == count
    decreases count
  {
    if count != 0 {
      ReadItemsCount(bytes, ReadItem(bytes, p).value.1, count - 1);
    }
  }

  // ---- the code ----

  /** Builds a container in memory. */
  method ZipWrite(entries: seq<Entry>) returns (r: Result<seq<byte>, WriteError>)
    ensures r == Write(entries)
  {
    hide LocalHeader, Crc32.Crc, EndRecord, Locals, Central, Fault;
    var fault, out, offsets := BuildLocals(entries);
    if fault.Some? {
      return Err(fault.value);
    }
    if |out| > MAX32 {
      return Err(PackageTooLarge);
    }
    var cdOffset := |out|;
    var central := BuildCentral(entries, offsets, StampAll(entries));
    if |entries| > MAX16 || |central| > MAX32 {
      return Err(DirectoryTooLarge);
    }
    out := out + central;
    out := out + EndRecord(|entries|, |central|, cdOffset);
    return Ok(out);
  }

  method BuildLocals(entries: seq<Entry>) returns (fault: Option<WriteError>, out: seq<byte>, offsets: seq<nat>)
    ensures fault == Fault(StampAll(entries), |entries|)
    ensures fault.None? ==> out == Locals(StampAll(entries), |entries|) && |offsets| == |entries|
    ensures fault.None? ==> forall k :: 0 <= k < |entries| ==> offsets[k] == |Locals(StampAll(entries), k)|
  {
    hide LocalHeader, Crc32.Crc, Locals;
    ghost var s := StampAll(entries);
    fault, out, offsets := None, [], [];
    NoLocals(s);
    var i: nat := 0;
    while i < |entries|
      invariant i <= |entries|
      invariant out == Locals(s, i) && Fault(s, i).None?
      invariant |offsets| == i && forall k :: 0 <= k < i ==> offsets[k] == |Locals(s, k)|
    {
      var e := entries[i];
      if e.name == [] {
        FaultStays(s, i + 1, |entries|);
        fault := Some(EmptyName);
        return;
      }
      if |e.name| > MAX16 || |e.data| > MAX32 {
        FaultStays(s, i + 1, |entries|);
        fault := Some(EntryTooLarge);
        return;
      }
      if |out| > MAX32 {
        FaultStays(s, i + 1, |entries|);
        fault := Some(PackageTooLarge);
        return;
      }
      var crc := Crc32.CrcBytes(e.data);
      offsets := offsets + [|out|];
      out := out + LocalHeader(e.name, crc, |e.data|);
      out := out + e.name;
      out := out + e.data;
      LocalsNext(s, i, e, crc, out);
      i := i + 1;
    }
  }

  lemma NoLocals(s: seq<ReadEntry>)
    ensures Locals(s, 0) == []
  {
  }

  lemma LocalsNext(s: seq<ReadEntry>, i: nat, e: Entry, crc: nat, out: seq<byte>)
    requires i < |s| && s[i] == Stamp(e) && crc == Crc32.Crc(e.data)
    requires out == Locals(s, i) + LocalHeader(e.name, crc, |e.data|) + e.name + e.data
    ensures out == Locals(s, i + 1)
  {
    hide LocalHeader, Crc32.Crc;
    var h := LocalHeader(e.name, crc, |e.data|);
    assert Locals(s, i) + (h + e.name + e.data) == Locals(s, i) + h + e.name + e.data;
  }

  lemma {:induction false} FaultStays(s: seq<ReadEntry>, i: nat, n: nat)
    requires i <= n <= |s| && Fault(s, i).Some?
    ensures Fault(s, n) == Fault(s, i)
  {
    hide Locals;
    if i < n {
      FaultStays(s, i, n - 1);
    }
  }

  method BuildCentral(entries: seq<Entry>, offsets: seq<nat>, ghost s: seq<ReadEntry>) returns (central: seq<byte>)
    requires s == StampAll(entries) && |offsets| == |entries|
    requires forall k :: 0 <= k < |entries| ==> offsets[k] == |Locals(s, k)|
    ensures central == Central(s, |entries|)
  {
    hide CentralHeader, Locals, Crc32.Crc;
    central := [];
    var i: nat := 0;
    while i < |entries|
      invariant i <= |entries| && central == Central(s, i)
    {
      var e := entries[i];
      var crc := Crc32.CrcBytes(e.data);
      ghost var before := central;
      central := central + CentralHeader(e.name, crc, |e.data|, offsets[i]);
      central := central + e.name;
      ConcatAssoc(before, CentralHeader(e.name, crc, |e.data|, offsets[i]), e.name);
      i := i + 1;
    }
  }

  /** Reads a container from memory. */
  method ZipRead(bytes: seq<byte>) returns (r: Result<seq<ReadEntry>, ReadError>)
    ensures r == Read(bytes)
  {
    hide FindEnd, ReadItems, ReadAll, Get16, Get32;
    if |bytes| < 22 {
      return Err(TooSmall);
    }
    var searchFrom := SearchFrom(|bytes|);
    var end := FindEndRecord(bytes, searchFrom);
    if end.None? {
      return Err(NoEndRecord);
    }
    var count := Get16(bytes, end.value + 10);
    var cdSize := Get32(bytes, end.value + 12);
    var cdOffset := Get32(bytes, end.value + 16);
    if cdOffset + cdSize > end.value {
      return Err(DirectoryRange);
    }
    var items := ParseDirectory(bytes, cdOffset, count);
    if items.Err? {
      return Err(items.error);
    }
    r := ExtractAll(bytes, items.value);
  }

  /** Searches backwards from the last place an end record can be. */
  method FindEndRecord(bytes: seq<byte>, searchFrom: nat) returns (end: Option<nat>)
    requires 22 <= |bytes| && searchFrom <= |bytes| - 22
    ensures end == FindEnd(bytes, |bytes| - 22, searchFrom)
  {
    var i: nat := |bytes| - 22 + 1;
    while i > searchFrom
      invariant searchFrom <= i <= |bytes| - 22 + 1
      invariant i > searchFrom ==>
                  FindEnd(bytes, |bytes| - 22, searchFrom) == FindEnd(bytes, i - 1, searchFrom)
      invariant i == searchFrom ==> FindEnd(bytes, |bytes| - 22, searchFrom) == None
    {
      hide Get32;
      i := i - 1;
      if Get32(bytes, i) == SIG_EOCD {
        return Some(i);
      }
    }
    return None;
  }

  method ParseDirectory(bytes: seq<byte>, cdOffset: nat, count: nat) returns (r: Result<seq<CdItem>, ReadError>)
    ensures r == ReadItems(bytes, cdOffset, count)
  {
    hide ReadItem, Get16, Get32;
    var items: seq<CdItem> := [];
    var p := cdOffset;
    var i: nat := 0;
    PrependNothing(ReadItems(bytes, cdOffset, count));
    while i < count
      invariant i <= count
      invariant ReadItems(bytes, cdOffset, count) == Prepend(items, ReadItems(bytes, p, count - i))
    {
      var it := ReadItem(bytes, p);
      if it.Err? {
        return Err(it.error);
      }
      PrependOne(items, it.value.0, ReadItems(bytes, it.value.1, count - i - 1));
      items := items + [it.value.0];
      p := it.value.1;
      i := i + 1;
    }
    assert items + [] == items;
    return Ok(items);
  }

  function Prepend<T, E>(done: seq<T>, r: Result<seq<T>, E>): Result<seq<T>, E> {
    match r
    case Ok(rest) => Ok(done + rest)
    case Err(e) => Err(e)
  }

  lemma PrependNothing<T, E>(r: Result<seq<T>, E>)
    ensures Prepend([], r) == r
  {
    if r.Ok? {
      assert [] + r.value == r.value;
    }
  }

  lemma PrependOne<T, E>(done: seq<T>, x: T, r: Result<seq<T>, E>)
    ensures Prepend(done, Prepend([x], r)) == Prepend(done + [x], r)
  {
    if r.Ok? {
      ConcatAssoc(done, [x], r.value);
    }
  }

  method ExtractAll(bytes: seq<byte>, items: seq<CdItem>) returns (r: Result<seq<ReadEntry>, ReadError>)
    ensures r == ReadAll(bytes, items)
  {
    hide ReadData;
    var out: seq<ReadEntry> := [];
    var i: nat := 0;
    assert items[0..] == items;
    PrependNothing(ReadAll(bytes, items));
    while i < |items|
      invariant i <= |items|
      invariant ReadAll(bytes, items) == Prepend(out, ReadAll(bytes, items[i..]))
    {
      assert items[i..][1..] == items[i + 1..];
      var e := Extract(bytes, items[i]);
      if e.Err? {
        return Err(e.error);
      }
      PrependOne(out, e.value, ReadAll(bytes, items[i + 1..]));
      out := out + [e.value];
      i := i + 1;
    }
    assert out + [] == out;
    return Ok(out);
  }

  method Extract(bytes: seq<byte>, it: CdItem) returns (r: Result<ReadEntry, ReadError>)
    ensures r == ReadData(bytes, it)
  {
    hide Crc32.Crc, Get16, Get32;
    var lfh := it.offset;
    if lfh + 30 > |bytes| || Get32(bytes, lfh) != SIG_LOCAL {
      return Err(LocalSignature);
    }
    if Get16(bytes, lfh + 8) != METHOD_STORE {
      return Err(LocalMethod);
    }
    if Get32(bytes, lfh + 14) != it.crc || Get32(bytes, lfh + 22) != it.size {
      return Err(HeaderMismatch);
    }
    var at := lfh + 30 + Get16(bytes, lfh + 26) + Get16(bytes, lfh + 28);
    if at + it.size > |bytes| {
      return Err(DataRange);
    }
    var data := bytes[at..at + it.size];
    var crc := Crc32.CrcBytes(data);
    if crc != it.crc {
      return Err(CrcMismatch);
    }
    return Ok(ReadEntry(it.name, data, it.crc));
  }
}
