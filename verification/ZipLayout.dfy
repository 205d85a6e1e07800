/** Where the parts of a ZIP container stand, byte by byte (PKWARE APPNOTE section 4.3), and that the reader delivers
    exactly the entries of the containers laid out so. */
module ZipLayout {
  import opened Results
  import opened Words
  import opened Zip
  import Crc32

  /** The value of `n` bytes, least significant first. */
  function Little(s: seq<byte>, p: nat, n: nat): nat
    requires p + n <= |s|
    decreases n
  {
    if n == 0 then 0 else s[p] as int + 256 * Little(s, p + 1, n - 1)
  }

  lemma LittleTwo(s: seq<byte>, p: nat)
    requires p + 2 <= |s|
    ensures Get16(s, p) == Little(s, p, 2)
  {
    assert Little(s, p + 1, 1) == s[p + 1] as int + 256 * Little(s, p + 2, 0);
  }

  lemma LittleFour(s: seq<byte>, p: nat)
    requires p + 4 <= |s|
    ensures Get32(s, p) == Little(s, p, 4)
  {
    assert Little(s, p + 3, 1) == s[p + 3] as int;
    assert Little(s, p + 2, 2) == s[p + 2] as int + 256 * Little(s, p + 3, 1);
    assert Little(s, p + 1, 3) == s[p + 1] as int + 256 * Little(s, p + 2, 2);
  }

  /** The letters PK and the two bytes that tell the records apart. */
  predicate Signed(s: seq<byte>, p: nat, a: byte, b: byte)
    requires p + 4 <= |s|
  {
    s[p] as int == 'P' as int && s[p + 1] as int == 'K' as int && s[p + 2] == a && s[p + 3] == b
  }

  lemma SignedIs(s: seq<byte>, p: nat)
    requires p + 4 <= |s|
    ensures Get32(s, p) == SIG_LOCAL <==> Signed(s, p, 3, 4)
    ensures Get32(s, p) == SIG_CENTRAL <==> Signed(s, p, 1, 2)
    ensures Get32(s, p) == SIG_EOCD <==> Signed(s, p, 5, 6)
  {
  }

  // ---- what the reader delivers ----

  /** The local record at `at` holds the data of the entry, behind a name and an extra field of any length. */
  ghost predicate DataStands(s: seq<byte>, at: nat, e: ReadEntry) {
    && at + 30 <= |s| && Signed(s, at, 3, 4) && Little(s, at + 8, 2) == 0
    && Little(s, at + 14, 4) == e.crc && Little(s, at + 22, 4) == |e.data|
    && var from := at + 30 + Little(s, at + 26, 2) + Little(s, at + 28, 2);
       from + |e.data| <= |s| && s[from..from + |e.data|] == e.data && Crc32.Crc(e.data) == e.crc
  }

  /** The directory record at `p` tells name, checksum, size and place of the entry; the next one is behind its extra
      field and comment. */
  ghost predicate EntryStands(s: seq<byte>, p: nat, e: ReadEntry, next: nat) {
    && p + 46 + |e.name| <= |s| && Signed(s, p, 1, 2) && Little(s, p + 10, 2) == 0
    && Little(s, p + 16, 4) == e.crc && Little(s, p + 24, 4) == |e.data|
    && Little(s, p + 28, 2) == |e.name| && s[p + 46..p + 46 + |e.name|] == e.name
    && next == p + 46 + |e.name| + Little(s, p + 30, 2) + Little(s, p + 32, 2)
    && DataStands(s, Little(s, p + 42, 4), e)
  }

  ghost predicate AllStand(s: seq<byte>, p: nat, entries: seq<ReadEntry>)
    decreases |entries|
  {
    entries == [] || exists next :: EntryStands(s, p, entries[0], next) && AllStand(s, next, entries[1..])
  }

  /** The last end record, no further from the end than a comment reaches. */
  ghost predicate EndStands(s: seq<byte>, end: nat) {
    && end + 22 <= |s| <= end + 22 + 0xFFFF && Signed(s, end, 5, 6)
    && forall j :: end < j && j + 22 <= |s| ==> !Signed(s, j, 5, 6)
  }

  /** A container of these entries: the directory, as the end record tells it, does not overlap the end record. */
  ghost predicate Holds(s: seq<byte>, entries: seq<ReadEntry>) {
    exists end: nat :: EndStands(s, end)
      && Little(s, end + 16, 4) + Little(s, end + 12, 4) <= end
      && Little(s, end + 10, 2) == |entries| && AllStand(s, Little(s, end + 16, 4), entries)
  }

  lemma DataIff(s: seq<byte>, it: CdItem, e: ReadEntry)
    ensures ReadData(s, it) == Ok(e) <==>
      it.name == e.name && it.crc == e.crc && it.size == |e.data| && DataStands(s, it.offset, e)
  {
    hide Get16, Get32, Little, Signed, Crc32.Crc;
    var at := it.offset;
    if at + 30 <= |s| {
      SignedIs(s, at);
      LittleTwo(s, at + 8);
      LittleFour(s, at + 14);
      LittleFour(s, at + 22);
      LittleTwo(s, at + 26);
      LittleTwo(s, at + 28);
    }
  }

  /** What the directory record itself says of an entry. */
  ghost predicate Told(s: seq<byte>, p: nat, it: CdItem, next: nat) {
    && p + 46 + |it.name| <= |s| && Signed(s, p, 1, 2) && Little(s, p + 10, 2) == 0
    && Little(s, p + 16, 4) == it.crc && Little(s, p + 24, 4) == it.size
    && Little(s, p + 28, 2) == |it.name| && s[p + 46..p + 46 + |it.name|] == it.name
    && next == p + 46 + |it.name| + Little(s, p + 30, 2) + Little(s, p + 32, 2)
    && it.offset == Little(s, p + 42, 4)
  }

  lemma ItemIff(s: seq<byte>, p: nat, it: CdItem, next: nat)
    ensures ReadItem(s, p) == Ok((it, next)) <==> Told(s, p, it, next)
  {
    hide Get16, Get32, Little, Signed;
    if p + 46 <= |s| {
      SignedIs(s, p);
      LittleTwo(s, p + 10);
      LittleFour(s, p + 16);
      LittleFour(s, p + 24);
      LittleTwo(s, p + 28);
      LittleTwo(s, p + 30);
      LittleTwo(s, p + 32);
      LittleFour(s, p + 42);
    }
  }

  lemma EntryIff(s: seq<byte>, p: nat, e: ReadEntry, next: nat)
    ensures EntryStands(s, p, e, next) <==>
      ReadItem(s, p).Ok? && ReadItem(s, p).value.1 == next && ReadData(s, ReadItem(s, p).value.0) == Ok(e)
  {
    hide Get16, Get32, Little, Signed, ReadItem, ReadData, DataStands;
    if ReadItem(s, p).Ok? {
      var (it, after) := ReadItem(s, p).value;
      ItemIff(s, p, it, after);
      DataIff(s, it, e);
    }
    if EntryStands(s, p, e, next) {
      var it := CdItem(e.name, e.crc, |e.data|, Little(s, p + 42, 4));
      ItemIff(s, p, it, next);
    }
  }

  lemma {:induction false} EntriesIff(s: seq<byte>, p: nat, entries: seq<ReadEntry>)
    ensures AllStand(s, p, entries) <==>
      var items := ReadItems(s, p, |entries|); items.Ok? && ReadAll(s, items.value) == Ok(entries)
    decreases |entries|
  {
    hide ReadItem, ReadData, EntryStands, ReadAll;
    if entries == [] {
      NothingRead(s);
    } else {
      forall next
        ensures EntryStands(s, p, entries[0], next) <==>
          ReadItem(s, p).Ok? && ReadItem(s, p).value.1 == next && ReadData(s, ReadItem(s, p).value.0) == Ok(entries[0])
      {
        EntryIff(s, p, entries[0], next);
      }
      if ReadItem(s, p).Ok? {
        var (it, next) := ReadItem(s, p).value;
        EntriesIff(s, next, entries[1..]);
        var rest := ReadItems(s, next, |entries| - 1);
        if rest.Ok? {
          FirstAndRest(s, it, rest.value, entries);
        }
      }
    }
  }

  lemma NothingRead(s: seq<byte>)
    ensures ReadAll(s, []) == Ok([])
  {
  }

  lemma FirstAndRest(s: seq<byte>, it: CdItem, items: seq<CdItem>, entries: seq<ReadEntry>)
    requires entries != []
    ensures ReadAll(s, [it] + items) == Ok(entries) <==>
      ReadData(s, it) == Ok(entries[0]) && ReadAll(s, items) == Ok(entries[1..])
  {
    hide ReadAll, ReadData;
    ReadAllStep(s, it, items);
    assert entries == [entries[0]] + entries[1..];
    if ReadData(s, it).Ok? && ReadAll(s, items).Ok? {
      var first, others := ReadData(s, it).value, ReadAll(s, items).value;
      assert ([first] + others)[0] == first && ([first] + others)[1..] == others;
    }
  }

  lemma EndIff(s: seq<byte>, end: nat)
    requires 22 <= |s|
    ensures FindEnd(s, |s| - 22, SearchFrom(|s|)) == Some(end) <==> EndStands(s, end)
  {
    hide FindEnd, Get32, Signed;
    forall j: nat | j + 22 <= |s|
      ensures Get32(s, j) == SIG_EOCD <==> Signed(s, j, 5, 6)
    {
      SignedIs(s, j);
    }
    var r := FindEnd(s, |s| - 22, SearchFrom(|s|));
    if EndStands(s, end) {
      assert SearchFrom(|s|) <= end;
    }
  }

  /** Reading delivers exactly the entries of a container laid out so, whatever precedes its records, lies between
      them or follows its end record. */
  lemma ReadIff(s: seq<byte>, entries: seq<ReadEntry>)
    ensures Read(s) == Ok(entries) <==> Holds(s, entries)
  {
    hide FindEnd, Get16, Get32, ReadItems, ReadAll, AllStand, EndStands, Little;
    if 22 <= |s| {
      forall end: nat
        ensures FindEnd(s, |s| - 22, SearchFrom(|s|)) == Some(end) <==> EndStands(s, end)
      {
        EndIff(s, end);
      }
      if FindEnd(s, |s| - 22, SearchFrom(|s|)).Some? {
        var end := FindEnd(s, |s| - 22, SearchFrom(|s|)).value;
        LittleTwo(s, end + 10);
        LittleFour(s, end + 12);
        LittleFour(s, end + 16);
        CountRead(s, Get32(s, end + 16), Get16(s, end + 10));
        EntriesIff(s, Get32(s, end + 16), entries);
      }
    }
    TooShort(s);
  }

  lemma TooShort(s: seq<byte>)
    ensures forall end: nat :: EndStands(s, end) ==> 22 <= |s|
  {
  }

  lemma CountRead(s: seq<byte>, p: nat, count: nat)
    ensures var items := ReadItems(s, p, count);
      items.Ok? && ReadAll(s, items.value).Ok? ==> |ReadAll(s, items.value).value| == count
  {
    hide ReadItems, ReadAll;
    if ReadItems(s, p, count).Ok? && ReadAll(s, ReadItems(s, p, count).value).Ok? {
      ReadItemsCount(s, p, count);
      ReadAllSound(s, ReadItems(s, p, count).value);
    }
  }

  // ---- what the writer fills in ----

  lemma Filled16(h: seq<byte>, k: nat, v: nat)
    requires k + 2 <= |h| && h[k..k + 2] == U16(v) && v <= MAX16
    ensures Little(h, k, 2) == v
  {
    Get16At(h, k, v);
    LittleTwo(h, k);
  }

  lemma Filled32(h: seq<byte>, k: nat, v: nat)
    requires k + 4 <= |h| && h[k..k + 4] == U32(v) && v <= MAX32
    ensures Little(h, k, 4) == v
  {
    Get32At(h, k, v);
    LittleFour(h, k);
  }

  /** The fields of a local record that reading does not look at: version 2.0, names in UTF-8, the fixed date
      1980-01-01, and the size a second time. */
  lemma LocalFilled(name: seq<byte>, crc: nat, size: nat)
    requires size <= MAX32
    ensures var h := LocalHeader(name, crc, size);
      && Little(h, 4, 2) == 20 && Little(h, 6, 2) == 0x0800 && Little(h, 10, 2) == 0 && Little(h, 12, 2) == 0x0021
      && Little(h, 18, 4) == size && Little(h, 28, 2) == 0
  {
    hide Little, U16, U32;
    var h := LocalHeader(name, crc, size);
    Filled16(h, 4, 20);
    Filled16(h, 6, 0x0800);
    Filled16(h, 10, 0);
    Filled16(h, 12, 0x0021);
    Filled32(h, 18, size);
    Filled16(h, 28, 0);
  }

  lemma CentralSlices(name: seq<byte>, crc: nat, size: nat, offset: nat)
    ensures var h := CentralHeader(name, crc, size, offset);
      && h[4..6] == U16(20) && h[6..8] == U16(20) && h[8..10] == U16(0x0800) && h[12..14] == U16(0)
      && h[14..16] == U16(0x0021) && h[20..24] == U32(size) && h[30..32] == U16(0) && h[32..34] == U16(0)
      && h[34..36] == U16(0) && h[36..38] == U16(0) && h[38..42] == U32(0)
  {
  }

  /** The same of a directory record. */
  lemma CentralFilled(name: seq<byte>, crc: nat, size: nat, offset: nat)
    requires size <= MAX32
    ensures var h := CentralHeader(name, crc, size, offset);
      && Little(h, 4, 2) == 20 && Little(h, 6, 2) == 20 && Little(h, 8, 2) == 0x0800 && Little(h, 12, 2) == 0
      && Little(h, 14, 2) == 0x0021 && Little(h, 20, 4) == size && Little(h, 30, 2) == 0 && Little(h, 32, 2) == 0
      && Little(h, 34, 2) == 0 && Little(h, 36, 2) == 0 && Little(h, 38, 4) == 0
  {
    hide Little, U16, U32, CentralHeader;
    var h := CentralHeader(name, crc, size, offset);
    CentralSlices(name, crc, size, offset);
    Filled16(h, 4, 20);
    Filled16(h, 6, 20);
    Filled16(h, 8, 0x0800);
    Filled16(h, 12, 0);
    Filled16(h, 14, 0x0021);
    Filled32(h, 20, size);
    Filled16(h, 30, 0);
    Filled16(h, 32, 0);
    Filled16(h, 34, 0);
    Filled16(h, 36, 0);
    Filled32(h, 38, 0);
  }

  /** The same of the end record: one disk, the count a second time, no comment. */
  lemma EndFilled(count: nat, cdSize: nat, cdOffset: nat)
    requires count <= MAX16
    ensures var h := EndRecord(count, cdSize, cdOffset);
      && Little(h, 4, 2) == 0 && Little(h, 6, 2) == 0 && Little(h, 8, 2) == count && Little(h, 20, 2) == 0
  {
    hide Little, U16, U32;
    var h := EndRecord(count, cdSize, cdOffset);
    Filled16(h, 4, 0);
    Filled16(h, 6, 0);
    Filled16(h, 8, count);
    Filled16(h, 20, 0);
  }

  /** What the writer accepts, it lays out as the entries with their checksums. */
  lemma WrittenHolds(entries: seq<Entry>)
    requires Write(entries).Ok?
    ensures Holds(Write(entries).value, StampAll(entries))
  {
    hide Write, Holds, Read;
    WriteThenRead(entries);
    ReadIff(Write(entries).value, StampAll(entries));
  }
}
