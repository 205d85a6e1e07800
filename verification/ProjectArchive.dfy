/** Saving and loading project packages, in memory: the container, the manifest and the packed media. */
module ProjectArchive {
  import opened Results
  import opened Words
  import opened ProjectRefs
  import Zip
  import Sha256
  import Crc32

  const OK: int := 0
  const BAD_PARAM: int := 1002
  const PROJECT_CORRUPT: int := 4001
  const PACKED_MEDIA_MISSING: int := 4003

  /** What the archive relies on: printing and parsing JSON, and the validation of manifest texts. */
  datatype Services = Services(dump: Json -> seq<byte>, parse: seq<byte> -> Option<Json>, validate: seq<byte> -> int)

  /** A file to pack, by its base name; its bytes, if they can be read. */
  datatype Source = Source(name: seq<byte>, content: Option<seq<byte>>)

  const MANIFEST: seq<byte> := Bytes("manifest.json")

  // ---- manifests ----

  /** The members with this one set. */
  function SetMember(members: seq<(seq<byte>, Json)>, key: seq<byte>, v: Json): seq<(seq<byte>, Json)> {
    if members == [] then [(key, v)]
    else if members[0].0 == key then [(key, v)] + members[1..]
    else if Less(key, members[0].0) then [(key, v)] + members
    else [members[0]] + SetMember(members[1..], key, v)
  }

  function Set(m: Json, key: seq<byte>, v: Json): Json
    requires m.Object?
  {
    Object(SetMember(m.members, key, v))
  }

  lemma {:induction false} SetOther(members: seq<(seq<byte>, Json)>, key: seq<byte>, v: Json, other: seq<byte>)
    requires other != key
    ensures FirstMember(SetMember(members, key, v), other) == FirstMember(members, other)
  {
    if members == [] {
      assert [(key, v)][1..] == [];
    } else if members[0].0 == key {
      assert ([(key, v)] + members[1..])[1..] == members[1..];
    } else if Less(key, members[0].0) {
      assert ([(key, v)] + members)[1..] == members;
    } else {
      assert ([members[0]] + SetMember(members[1..], key, v))[1..] == SetMember(members[1..], key, v);
      SetOther(members[1..], key, v, other);
    }
  }

  /** How the project is to be saved. */
  function ModeOf(m: Json): seq<byte> {
    match Member(m, Bytes("project"))
    case Some(project) => OrElse(TextMember(project, Bytes("save_mode")), [])
    case None => []
  }

  // ---- checking packed media ----

  /** The first entry of this name, or the number of entries. */
  function Named(entries: seq<Zip.ReadEntry>, name: seq<byte>): (i: nat)
    ensures i <= |entries| && (i < |entries| ==> entries[i].name == name)
    ensures forall k :: 0 <= k < i ==> entries[k].name != name
  {
    if entries == [] then 0 else if entries[0].name == name then 0 else 1 + Named(entries[1..], name)
  }

  function CheckRef(r: MediaRef, entries: seq<Zip.ReadEntry>): int {
    var i := Named(entries, r.path);
    if i == |entries| then PACKED_MEDIA_MISSING
    else if r.sha != [] && Bytes(Sha256.HexDigest(entries[i].data)) != r.sha then PROJECT_CORRUPT
    else OK
  }

  /** The first fault among the first `n` references. */
  function CheckRefs(refs: seq<MediaRef>, n: nat, entries: seq<Zip.ReadEntry>): int
    requires n <= |refs|
  {
    if n == 0 then OK
    else
      var before := CheckRefs(refs, n - 1, entries);
      if before != OK then before else CheckRef(refs[n - 1], entries)
  }

  function Verify(doc: Json, entries: seq<Zip.ReadEntry>): int {
    CheckRefs(Collected(doc), |Collected(doc)|, entries)
  }

  lemma {:induction false} AllChecked(refs: seq<MediaRef>, n: nat, entries: seq<Zip.ReadEntry>)
    requires n <= |refs|
    ensures CheckRefs(refs, n, entries) == OK <==> forall i :: 0 <= i < n ==> CheckRef(refs[i], entries) == OK
  {
    hide CheckRef;
    if n != 0 {
      AllChecked(refs, n - 1, entries);
    }
  }

  // ---- packing ----

  datatype Packed = Packed(entries: seq<Zip.Entry>, records: seq<(seq<byte>, Json)>)

  function PackedName(hex: string, name: seq<byte>): seq<byte>
    requires |hex| == 64
  {
    MEDIA + (Bytes(hex[..16]) + Bytes("_") + name)
  }

  function RecordOf(packed: seq<byte>, hex: string, name: seq<byte>, size: nat): Json {
    Object([(Bytes("original_name"), Text(name)), (Bytes("packed"), Text(packed)),
            (Bytes("sha256"), Text(Bytes(hex))), (Bytes("size"), Number(size))])
  }

  function PlaceIn(entries: seq<Zip.Entry>, name: seq<byte>): (i: nat)
    ensures i <= |entries| && (i < |entries| ==> entries[i].name == name)
    ensures forall k :: 0 <= k < i ==> entries[k].name != name
  {
    if entries == [] then 0 else if entries[0].name == name then 0 else 1 + PlaceIn(entries[1..], name)
  }

  function PackOne(p: Packed, src: Source): Result<Packed, int> {
    if src.content.None? then Err(PACKED_MEDIA_MISSING)
    else
      var bytes := src.content.value;
      var hex := Sha256.HexDigest(bytes);
      var name := PackedName(hex, src.name);
      var i := PlaceIn(p.entries, name);
      if i < |p.entries| then
        if Crc32.Crc(p.entries[i].data) != Crc32.Crc(bytes) then Err(PROJECT_CORRUPT) else Ok(p)
      else
        Ok(Packed(p.entries + [Zip.Entry(name, bytes)],
                    SetMember(p.records, name, RecordOf(name, hex, src.name, |bytes|))))
  }

  function PackAll(start: seq<(seq<byte>, Json)>, sources: seq<Source>, n: nat): Result<Packed, int>
    requires n <= |sources|
  {
    if n == 0 then Ok(Packed([], start))
    else
      var before := PackAll(start, sources, n - 1);
      if before.Err? then before else PackOne(before.value, sources[n - 1])
  }

  /** The records a manifest already has, by their packed names. */
  function Records(items: seq<Json>, n: nat): seq<(seq<byte>, Json)>
    requires n <= |items|
  {
    if n == 0 then []
    else
      var before := Records(items, n - 1);
      var packed := TextMember(items[n - 1], Bytes("packed"));
      if packed.Some? then SetMember(before, packed.value, items[n - 1]) else before
  }

  function OldRecords(m: Json): seq<(seq<byte>, Json)> {
    match Member(m, Bytes("media_files"))
    case Some(List(items)) => Records(items, |items|)
    case _ => []
  }

  function ValuesOf(members: seq<(seq<byte>, Json)>): seq<Json> {
    seq(|members|, i requires 0 <= i < |members| => members[i].1)
  }

  // ---- saving ----

  /** The manifest and the media entries a save will write. */
  function Prepared(m: Json, sources: seq<Source>, now: seq<byte>): Result<(Json, seq<Zip.Entry>), int> {
    if !m.Object? then Err(PROJECT_CORRUPT)
    else if !OrElse(Member(m, Bytes("project")), Null).Object? then Err(PROJECT_CORRUPT)
    else if ModeOf(m) != Bytes("ref") && ModeOf(m) != Bytes("pack") then Err(PROJECT_CORRUPT)
    else if ModeOf(m) == Bytes("pack") then
      var packed := PackAll(OldRecords(m), sources, |sources|);
      if packed.Err? then Err(packed.error)
      else
        var with := Set(m, Bytes("media_files"), List(ValuesOf(packed.value.records)));
        Ok((Set(with, Bytes("saved_at"), Text(now)), packed.value.entries))
    else Ok((Set(m, Bytes("saved_at"), Text(now)), []))
  }

  /** What a save comes to: the bytes of the package, or an error. */
  function Saved(sv: Services, m: Json, sources: seq<Source>, now: seq<byte>): Result<seq<byte>, int> {
    var prepared := Prepared(m, sources, now);
    if prepared.Err? then Err(prepared.error)
    else
      var (doc, media) := prepared.value;
      var text := sv.dump(doc);
      var entries := [Zip.Entry(MANIFEST, text)] + media;
      if sv.validate(text) != OK then Err(sv.validate(text))
      else if Zip.Write(entries).Err? then Err(BAD_PARAM)
      else if ModeOf(doc) == Bytes("pack") && Verify(doc, Zip.StampAll(entries)) != OK then
        Err(Verify(doc, Zip.StampAll(entries)))
      else Ok(Zip.Write(entries).value)
  }

  /** Checking a package just written: it reads back with as many entries, its manifest is there and valid, and
      its media are there. */
  function Recheck(sv: Services, bytes: seq<byte>, count: nat, doc: Json, mode: seq<byte>): int {
    var back := Zip.Read(bytes);
    if back.Err? || |back.value| != count then PROJECT_CORRUPT
    else
      var code := RecheckManifests(sv, back.value, |back.value|);
      if code != OK then code
      else if Named(back.value, MANIFEST) == |back.value| then PROJECT_CORRUPT
      else if mode == Bytes("pack") then Verify(doc, back.value)
      else OK
  }

  function RecheckManifests(sv: Services, entries: seq<Zip.ReadEntry>, n: nat): int
    requires n <= |entries|
  {
    if n == 0 then OK
    else
      var before := RecheckManifests(sv, entries, n - 1);
      if before != OK then before
      else if entries[n - 1].name == MANIFEST then sv.validate(entries[n - 1].data)
      else OK
  }

  // ---- loading ----

  function Loaded(sv: Services, bytes: seq<byte>): Result<Json, int> {
    var entries := Zip.Read(bytes);
    if entries.Err? then Err(PROJECT_CORRUPT)
    else
      var i := Named(entries.value, MANIFEST);
      if i == |entries.value| then Err(PROJECT_CORRUPT)
      else
        var text := entries.value[i].data;
        if sv.validate(text) != OK then Err(sv.validate(text))
        else
          match sv.parse(text)
          case None => Err(PROJECT_CORRUPT)
          case Some(doc) =>
            if ModeOf(doc) == Bytes("pack") && Verify(doc, entries.value) != OK then Err(Verify(doc, entries.value))
            else Ok(doc)
  }

  // ---- what is packed ----

  lemma {:induction false} SetFound(members: seq<(seq<byte>, Json)>, key: seq<byte>, v: Json)
    ensures FirstMember(SetMember(members, key, v), key) == Some(v)
  {
    if members != [] && members[0].0 != key && !Less(key, members[0].0) {
      assert ([members[0]] + SetMember(members[1..], key, v))[1..] == SetMember(members[1..], key, v);
      SetFound(members[1..], key, v);
    }
  }

  /** A packed name tells the file's own name. */
  lemma PackedNameTells(a: string, b: string, x: seq<byte>, y: seq<byte>)
    requires |a| == |b| == 64 && PackedName(a, x) == PackedName(b, y)
    ensures x == y
  {
    var n := |MEDIA| + 17;
    assert PackedName(a, x)[n..] == x && PackedName(b, y)[n..] == y;
  }

  function NameFor(bytes: seq<byte>, name: seq<byte>): seq<byte> {
    PackedName(Sha256.HexDigest(bytes), name)
  }

  /** The entry holds the content of the file, under the name made of its hash and its own name. */
  ghost predicate PackOf(e: Zip.Entry, src: Source) {
    src.content == Some(e.data) && e.name == NameFor(e.data, src.name)
  }

  /** A file is packed: an entry has its name and content of its checksum, and the record under that name gives the
      hash and the size of what the entry holds. */
  ghost predicate IsPacked(p: Packed, src: Source) {
    src.content.Some? &&
    var name := NameFor(src.content.value, src.name);
    var i := PlaceIn(p.entries, name);
    && i < |p.entries| && Crc32.Crc(p.entries[i].data) == Crc32.Crc(src.content.value)
    && FirstMember(p.records, name)
       == Some(RecordOf(name, Sha256.HexDigest(p.entries[i].data), src.name, |p.entries[i].data|))
  }

  ghost predicate NamesApart(entries: seq<Zip.Entry>) {
    forall i, j :: 0 <= i < j < |entries| ==> entries[i].name != entries[j].name
  }

  ghost predicate AllFrom(entries: seq<Zip.Entry>, sources: seq<Source>, n: nat)
    requires n <= |sources|
  {
    forall i :: 0 <= i < |entries| ==> exists k :: 0 <= k < n && PackOf(entries[i], sources[k])
  }

  lemma {:induction false} PlaceAfter(entries: seq<Zip.Entry>, e: Zip.Entry, name: seq<byte>)
    ensures var i := PlaceIn(entries, name);
      PlaceIn(entries + [e], name) == if i < |entries| || e.name == name then i else i + 1
  {
    if entries != [] {
      assert (entries + [e])[1..] == entries[1..] + [e];
      PlaceAfter(entries[1..], e, name);
    }
  }

  /** Packing a further file leaves those packed before as they were. */
  lemma PackedStays(p: Packed, src: Source, other: Source)
    requires PackOne(p, src).Ok? && IsPacked(p, other)
    ensures IsPacked(PackOne(p, src).value, other)
  {
    hide Sha256.HexDigest, Crc32.Crc, PackedName, RecordOf, SetMember, FirstMember;
    var name := NameFor(src.content.value, src.name);
    if PlaceIn(p.entries, name) == |p.entries| {
      var e := Zip.Entry(name, src.content.value);
      var its := NameFor(other.content.value, other.name);
      PlaceAfter(p.entries, e, its);
      SetOther(p.records, name, RecordOf(name, Sha256.HexDigest(e.data), src.name, |e.data|), its);
    }
  }

  /** What is skipped has the name and the checksum of an entry already there, and is packed by it. */
  lemma SkippedIsPacked(p: Packed, src: Source, other: Source)
    requires src.content.Some? && IsPacked(p, other)
    requires var name := NameFor(src.content.value, src.name); var i := PlaceIn(p.entries, name);
      i < |p.entries| && Crc32.Crc(p.entries[i].data) == Crc32.Crc(src.content.value) && PackOf(p.entries[i], other)
    ensures IsPacked(p, src)
  {
    hide Sha256.Hex, Sha256.Digest, Crc32.Crc, PackedName, RecordOf, FirstMember;
    PackedNameTells(Sha256.HexDigest(src.content.value), Sha256.HexDigest(other.content.value), src.name, other.name);
  }

  /** One more file is packed, whether it is new or skipped. */
  lemma PackedNow(p: Packed, src: Source, sources: seq<Source>, n: nat)
    requires PackOne(p, src).Ok? && n <= |sources| && AllFrom(p.entries, sources, n)
    requires forall k :: 0 <= k < n ==> IsPacked(p, sources[k])
    ensures IsPacked(PackOne(p, src).value, src)
  {
    hide Sha256.HexDigest, Crc32.Crc, PackedName, RecordOf, SetMember, FirstMember, PackOf;
    var bytes := src.content.value;
    var name := NameFor(bytes, src.name);
    var i := PlaceIn(p.entries, name);
    if i < |p.entries| {
      hide IsPacked;
      var k :| 0 <= k < n && PackOf(p.entries[i], sources[k]);
      SkippedIsPacked(p, src, sources[k]);
    } else {
      PlaceAfter(p.entries, Zip.Entry(name, bytes), name);
      SetFound(p.records, name, RecordOf(name, Sha256.HexDigest(bytes), src.name, |bytes|));
    }
  }

  lemma OriginsNow(p: Packed, sources: seq<Source>, n: nat)
    requires n < |sources| && PackOne(p, sources[n]).Ok? && AllFrom(p.entries, sources, n) && NamesApart(p.entries)
    ensures AllFrom(PackOne(p, sources[n]).value.entries, sources, n + 1)
    ensures NamesApart(PackOne(p, sources[n]).value.entries)
  {
    hide Sha256.HexDigest, Crc32.Crc, PackedName, RecordOf, SetMember;
    var entries := PackOne(p, sources[n]).value.entries;
    forall i | 0 <= i < |entries|
      ensures exists k :: 0 <= k < n + 1 && PackOf(entries[i], sources[k])
    {
      if i < |p.entries| {
        var k :| 0 <= k < n && PackOf(p.entries[i], sources[k]);
        assert PackOf(entries[i], sources[k]);
      } else {
        assert PackOf(entries[i], sources[n]);
      }
    }
  }

  /** After packing, every file is packed, every entry is one of the files, and no two entries share a name. */
  lemma {:induction false} PackedAll(start: seq<(seq<byte>, Json)>, sources: seq<Source>, n: nat)
    requires n <= |sources| && PackAll(start, sources, n).Ok?
    ensures var p := PackAll(start, sources, n).value;
      && (forall k :: 0 <= k < n ==> IsPacked(p, sources[k]))
      && AllFrom(p.entries, sources, n) && NamesApart(p.entries)
  {
    hide PackOne, IsPacked, PackOf;
    if n != 0 {
      var before := PackAll(start, sources, n - 1).value;
      PackedAll(start, sources, n - 1);
      PackedNow(before, sources[n - 1], sources, n - 1);
      OriginsNow(before, sources, n - 1);
      forall k | 0 <= k < n - 1
        ensures IsPacked(PackAll(start, sources, n).value, sources[k])
      {
        PackedStays(before, sources[n - 1], sources[k]);
      }
    }
  }

  ghost predicate Readable(sources: seq<Source>, n: nat)
    requires n <= |sources|
  {
    forall k :: 0 <= k < n ==> sources[k].content.Some?
  }

  /** Files that get the same name have content of the same checksum. */
  ghost predicate NoClash(sources: seq<Source>, n: nat)
    requires n <= |sources| && Readable(sources, n)
  {
    forall j, k :: 0 <= j < n && 0 <= k < n
                   && NameFor(sources[j].content.value, sources[j].name) == NameFor(sources[k].content.value, sources[k].name)
                   ==> Crc32.Crc(sources[j].content.value) == Crc32.Crc(sources[k].content.value)
  }

  /** Packing succeeds exactly when every file can be read and no two that get the same name differ in checksum. */
  lemma {:induction false} PackAcceptsIff(start: seq<(seq<byte>, Json)>, sources: seq<Source>, n: nat)
    requires n <= |sources|
    ensures PackAll(start, sources, n).Ok? <==> Readable(sources, n) && NoClash(sources, n)
  {
    hide Sha256.Hex, Sha256.Digest, Crc32.Crc, PackedName, RecordOf, SetMember, FirstMember;
    if PackAll(start, sources, n).Ok? {
      PackedAll(start, sources, n);
    } else {
      PackAcceptsIff(start, sources, n - 1);
      if PackAll(start, sources, n - 1).Ok? && sources[n - 1].content.Some? {
        ClashFound(PackAll(start, sources, n - 1).value, start, sources, n - 1);
      }
    }
  }

  lemma ClashFound(p: Packed, start: seq<(seq<byte>, Json)>, sources: seq<Source>, n: nat)
    requires n < |sources| && PackAll(start, sources, n) == Ok(p) && sources[n].content.Some? && PackOne(p, sources[n]).Err?
    ensures Readable(sources, n + 1) ==> !NoClash(sources, n + 1)
  {
    hide Sha256.Hex, Sha256.Digest, Crc32.Crc, PackedName, RecordOf, SetMember, FirstMember, IsPacked, PackAll;
    PackedAll(start, sources, n);
    var i := PlaceIn(p.entries, NameFor(sources[n].content.value, sources[n].name));
    var k :| 0 <= k < n && PackOf(p.entries[i], sources[k]);
    assert sources[k].content.value == p.entries[i].data;
  }

  // ---- what they are for ----

  lemma {:induction false} MediaNamed(start: seq<(seq<byte>, Json)>, sources: seq<Source>, n: nat)
    requires n <= |sources| && PackAll(start, sources, n).Ok?
    ensures forall i :: 0 <= i < |PackAll(start, sources, n).value.entries| ==>
              HasPrefix(PackAll(start, sources, n).value.entries[i].name, MEDIA)
  {
    hide RecordOf, SetMember, Sha256.HexDigest, Crc32.Crc;
    if n != 0 {
      MediaNamed(start, sources, n - 1);
    }
  }

  lemma ManifestIsNotMedia()
    ensures !HasPrefix(MANIFEST, MEDIA)
  {
    assert Bytes("manifest.json")[1] == 'a' as int % 256 && Bytes("media/")[1] == 'e' as int % 256;
    assert MANIFEST[..6][1] == MANIFEST[1];
  }

  lemma PreparedMedia(m: Json, sources: seq<Source>, now: seq<byte>)
    requires Prepared(m, sources, now).Ok?
    ensures var (doc, media) := Prepared(m, sources, now).value;
      && ModeOf(doc) == ModeOf(m) && forall i :: 0 <= i < |media| ==> media[i].name != MANIFEST
  {
    hide SetMember, PackAll, HasPrefix;
    ManifestIsNotMedia();
    KeysDiffer();
    SetOther(m.members, Bytes("saved_at"), Text(now), Bytes("project"));
    if ModeOf(m) == Bytes("pack") {
      var packed := PackAll(OldRecords(m), sources, |sources|).value;
      var files := List(ValuesOf(packed.records));
      MediaNamed(OldRecords(m), sources, |sources|);
      SetOther(m.members, Bytes("media_files"), files, Bytes("project"));
      SetOther(SetMember(m.members, Bytes("media_files"), files), Bytes("saved_at"), Text(now), Bytes("project"));
    }
  }

  lemma KeysDiffer()
    ensures Bytes("project") != Bytes("saved_at") && Bytes("project") != Bytes("media_files")
  {
    assert |Bytes("project")| == 7 && |Bytes("saved_at")| == 8 && |Bytes("media_files")| == 11;
  }

  /** The checks after writing never find fault with the container or the manifest: only missing or altered media
      can fail them, and that exactly when the written entries lack them. */
  lemma RecheckOnlyMedia(sv: Services, doc: Json, media: seq<Zip.Entry>, mode: seq<byte>)
    requires forall i :: 0 <= i < |media| ==> media[i].name != MANIFEST
    requires var entries := [Zip.Entry(MANIFEST, sv.dump(doc))] + media;
      sv.validate(sv.dump(doc)) == OK && Zip.Write(entries).Ok?
    ensures var entries := [Zip.Entry(MANIFEST, sv.dump(doc))] + media;
      Recheck(sv, Zip.Write(entries).value, |entries|, doc, mode)
        == if mode == Bytes("pack") then Verify(doc, Zip.StampAll(entries)) else OK
  {
    hide Zip.Write, Zip.Read, Verify, Zip.Stamp;
    var entries := [Zip.Entry(MANIFEST, sv.dump(doc))] + media;
    Zip.WriteThenRead(entries);
    StampedNames(entries);
    var back := Zip.StampAll(entries);
    assert back[0].name == MANIFEST && back[0].data == sv.dump(doc);
    OneManifest(sv, back, |back|);
  }

  lemma StampedNames(entries: seq<Zip.Entry>)
    ensures var back := Zip.StampAll(entries);
      |back| == |entries| && forall i :: 0 <= i < |back| ==> back[i].name == entries[i].name && back[i].data == entries[i].data
  {
  }

  lemma {:induction false} OneManifest(sv: Services, back: seq<Zip.ReadEntry>, n: nat)
    requires 0 < |back| && n <= |back| && sv.validate(back[0].data) == OK
    requires forall i :: 0 < i < |back| ==> back[i].name != MANIFEST
    ensures RecheckManifests(sv, back, n) == OK
  {
    if n != 0 {
      OneManifest(sv, back, n - 1);
    }
  }

  /** What was saved loads as the manifest that was written, when parsing undoes printing on that one. */
  lemma SaveThenLoad(sv: Services, m: Json, sources: seq<Source>, now: seq<byte>)
    requires Saved(sv, m, sources, now).Ok?
    requires var doc := Prepared(m, sources, now).value.0; sv.parse(sv.dump(doc)) == Some(doc)
    ensures Loaded(sv, Saved(sv, m, sources, now).value) == Ok(Prepared(m, sources, now).value.0)
  {
    hide Zip.Write, Zip.Read, Verify, Zip.Stamp, Prepared;
    var (doc, media) := Prepared(m, sources, now).value;
    var entries := [Zip.Entry(MANIFEST, sv.dump(doc))] + media;
    Zip.WriteThenRead(entries);
    StampedNames(entries);
    assert Zip.StampAll(entries)[0].name == MANIFEST && Zip.StampAll(entries)[0].data == sv.dump(doc);
    assert sv.parse(sv.dump(doc)) == Some(doc);
  }

  /** A packed project that loads has an entry for every media text in its manifest, at any depth, and where hashes are
      given for it the entry's bytes have one of them. */
  lemma LoadedIsComplete(sv: Services, bytes: seq<byte>, path: seq<byte>)
    requires Loaded(sv, bytes).Ok? && ModeOf(Loaded(sv, bytes).value) == Bytes("pack")
    requires HasPrefix(path, Bytes("media/")) && Mentions(Loaded(sv, bytes).value, path)
    ensures var doc, entries := Loaded(sv, bytes).value, Zip.Read(bytes).value;
      var i := Named(entries, path);
      && i < |entries| && entries[i].name == path
      && ((exists sha :: sha != [] && Gives(doc, path, sha)) ==>
            Gives(doc, path, Bytes(Sha256.HexDigest(entries[i].data))))
  {
    hide Zip.Read, HasPrefix, Mentions, Walk, Collected, FirstSha, Gives, Sha256.HexDigest;
    var doc, entries := Loaded(sv, bytes).value, Zip.Read(bytes).value;
    CollectedIs(doc);
    ShaIsGiven(doc, path);
    var refs := Collected(doc);
    assert RefersTo(refs, path);
    var k :| 0 <= k < |refs| && refs[k].path == path;
    AllChecked(refs, |refs|, entries);
    assert CheckRef(refs[k], entries) == OK;
  }

  // ---- codes, names and records ----

  /** The package has no entry for the reference. */
  ghost predicate Lacking(r: MediaRef, entries: seq<Zip.ReadEntry>) {
    forall i :: 0 <= i < |entries| ==> entries[i].name != r.path
  }

  /** It has one, but of another hash than the one given. */
  ghost predicate Altered(r: MediaRef, entries: seq<Zip.ReadEntry>) {
    exists i :: 0 <= i < |entries| && entries[i].name == r.path && (forall k :: 0 <= k < i ==> entries[k].name != r.path)
      && r.sha != [] && r.sha != Bytes(Sha256.HexDigest(entries[i].data))
  }

  lemma AlteredAt(r: MediaRef, entries: seq<Zip.ReadEntry>, i: nat)
    requires i < |entries| && entries[i].name == r.path && forall k :: 0 <= k < i ==> entries[k].name != r.path
    ensures Altered(r, entries) <==> r.sha != [] && r.sha != Bytes(Sha256.HexDigest(entries[i].data))
  {
    hide Sha256.HexDigest, Bytes;
  }

  lemma CheckRefIs(r: MediaRef, entries: seq<Zip.ReadEntry>)
    ensures CheckRef(r, entries) == if Lacking(r, entries) then 4003 else if Altered(r, entries) then 4001 else 0
  {
    hide Sha256.HexDigest, Bytes, Named, Altered;
    var i := Named(entries, r.path);
    if i < |entries| {
      assert entries[i].name == r.path;
      AlteredAt(r, entries, i);
    }
  }

  lemma {:induction false} FirstFault(refs: seq<MediaRef>, n: nat, entries: seq<Zip.ReadEntry>)
    requires n <= |refs|
    ensures var code := CheckRefs(refs, n, entries);
      if forall i :: 0 <= i < n ==> CheckRef(refs[i], entries) == 0 then code == 0
      else exists i :: 0 <= i < n && code == CheckRef(refs[i], entries) != 0
                       && forall k :: 0 <= k < i ==> CheckRef(refs[k], entries) == 0
  {
    hide CheckRef;
    if n != 0 {
      FirstFault(refs, n - 1, entries);
      AllChecked(refs, n - 1, entries);
    }
  }

  /** Verification gives 4003 for a missing entry and 4001 for one of another hash, for whichever comes first in path
      order. */
  lemma VerifyIs(doc: Json, entries: seq<Zip.ReadEntry>)
    ensures var refs, code := Collected(doc), Verify(doc, entries);
      if forall i :: 0 <= i < |refs| ==> !Lacking(refs[i], entries) && !Altered(refs[i], entries) then code == 0
      else exists i :: 0 <= i < |refs|
             && (if Lacking(refs[i], entries) then code == 4003 else Altered(refs[i], entries) && code == 4001)
             && forall k :: 0 <= k < i ==> !Lacking(refs[k], entries) && !Altered(refs[k], entries)
  {
    hide Collected, CheckRef, Lacking, Altered, CheckRefs;
    var refs := Collected(doc);
    forall i | 0 <= i < |refs|
      ensures CheckRef(refs[i], entries)
           == if Lacking(refs[i], entries) then 4003 else if Altered(refs[i], entries) then 4001 else 0
    {
      CheckRefIs(refs[i], entries);
    }
    FirstFault(refs, |refs|, entries);
  }

  /** A file is packed below media/, under the first sixteen digits of its hash, a low line and its own name. */
  lemma NameForIs(bytes: seq<byte>, name: seq<byte>)
    ensures var packed, hex := NameFor(bytes, name), Sha256.HexDigest(bytes);
      && |packed| == 23 + |name| && packed[23..] == name
      && (forall i :: 0 <= i < 6 ==> packed[i] as int == "media/"[i] as int)
      && (forall i :: 0 <= i < 16 ==> packed[6 + i] as int == hex[i] as int % 256)
      && packed[22] as int == '_' as int
  {
    hide Sha256.Hex, Sha256.Digest, Bytes;
    var hex := Sha256.HexDigest(bytes);
    var tail := Bytes(hex[..16]) + Bytes("_") + name;
    assert NameFor(bytes, name) == MEDIA + tail;
    BytesAre("media/");
    BytesAre("_");
    BytesAre(hex[..16]);
  }

  lemma BytesAre(s: string)
    ensures |Bytes(s)| == |s| && forall i :: 0 <= i < |s| ==> Bytes(s)[i] as int == s[i] as int % 256
  {
  }

  lemma FirstMemberNext(members: seq<(seq<byte>, Json)>, key: seq<byte>)
    requires members != []
    ensures FirstMember(members, key) == if members[0].0 == key then Some(members[0].1) else FirstMember(members[1..], key)
  {
  }

  lemma RecordKeysDiffer()
    ensures Bytes("original_name") != Bytes("packed") && Bytes("original_name") != Bytes("sha256")
    ensures Bytes("packed") != Bytes("sha256") && Bytes("original_name") != Bytes("size")
    ensures Bytes("packed") != Bytes("size") && Bytes("sha256") != Bytes("size")
  {
    assert Bytes("packed")[0] == 'p' as int % 256 && Bytes("sha256")[0] == 's' as int % 256;
    assert |Bytes("original_name")| == 13 && |Bytes("packed")| == 6 && |Bytes("sha256")| == 6 && |Bytes("size")| == 4;
  }

  /** The record of a packed file points to its entry, gives its hash, and tells its own name and size. */
  lemma RecordTells(packed: seq<byte>, hex: string, name: seq<byte>, size: nat)
    ensures var r := RecordOf(packed, hex, name, size);
      && PointsTo(r, packed) && TextMember(r, Bytes("sha256")) == Some(Bytes(hex))
      && TextMember(r, Bytes("original_name")) == Some(name) && Member(r, Bytes("size")) == Some(Number(size))
  {
    hide Bytes, FirstMember;
    RecordKeysDiffer();
    var r := RecordOf(packed, hex, name, size);
    var ms := r.members;
    forall key
      ensures FirstMember(ms, key) ==
        if key == ms[0].0 then Some(ms[0].1) else if key == ms[1].0 then Some(ms[1].1)
        else if key == ms[2].0 then Some(ms[2].1) else if key == ms[3].0 then Some(ms[3].1)
        else FirstMember(ms[4..], key)
    {
      FirstMemberNext(ms, key);
      FirstMemberNext(ms[1..], key);
      FirstMemberNext(ms[2..], key);
      FirstMemberNext(ms[3..], key);
      assert ms[1..][1..] == ms[2..] && ms[2..][1..] == ms[3..] && ms[3..][1..] == ms[4..];
    }
  }

  /** A save goes ahead exactly for an object whose project is an object of mode ref or pack, packing only files that
      can be read and do not clash. Its manifest has the time of saving and, when packing, the records of the packed
      files; everything else in it stays as it was. */
  lemma PreparedIs(m: Json, sources: seq<Source>, now: seq<byte>)
    ensures var r := Prepared(m, sources, now);
      && (r.Ok? <==> m.Object? && Member(m, Bytes("project")).Some? && Member(m, Bytes("project")).value.Object?
                     && (ModeOf(m) == Bytes("ref")
                         || (ModeOf(m) == Bytes("pack") && Readable(sources, |sources|) && NoClash(sources, |sources|))))
      && (r.Ok? ==>
            var (doc, media) := r.value;
            && Member(doc, Bytes("saved_at")) == Some(Text(now))
            && (ModeOf(m) != Bytes("pack") ==> media == [])
            && (ModeOf(m) == Bytes("pack") ==>
                  var packed := PackAll(OldRecords(m), sources, |sources|);
                  packed.Ok? && media == packed.value.entries
                  && Member(doc, Bytes("media_files")) == Some(List(ValuesOf(packed.value.records))))
            && forall key :: key != Bytes("saved_at") && (ModeOf(m) == Bytes("pack") ==> key != Bytes("media_files")) ==>
                 Member(doc, key) == Member(m, key))
  {
    hide SetMember, PackAll, FirstMember, Readable, NoClash, ValuesOf, OldRecords;
    ModesDiffer();
    PackAcceptsIff(OldRecords(m), sources, |sources|);
    if Prepared(m, sources, now).Ok? {
      if ModeOf(m) == Bytes("pack") {
        var files := List(ValuesOf(PackAll(OldRecords(m), sources, |sources|).value.records));
        SetTells(m.members, Bytes("media_files"), files);
        SetTells(SetMember(m.members, Bytes("media_files"), files), Bytes("saved_at"), Text(now));
      } else {
        SetTells(m.members, Bytes("saved_at"), Text(now));
      }
    }
  }

  lemma SetTells(members: seq<(seq<byte>, Json)>, key: seq<byte>, v: Json)
    ensures forall k :: FirstMember(SetMember(members, key, v), k) == if k == key then Some(v) else FirstMember(members, k)
  {
    hide SetMember, FirstMember;
    SetFound(members, key, v);
    forall k | k != key
      ensures FirstMember(SetMember(members, key, v), k) == FirstMember(members, k)
    {
      SetOther(members, key, v, k);
    }
  }

  lemma ModesDiffer()
    ensures Bytes("ref") != Bytes("pack") && Bytes("saved_at") != Bytes("media_files")
  {
    assert |Bytes("ref")| == 3 && |Bytes("pack")| == 4 && |Bytes("saved_at")| == 8 && |Bytes("media_files")| == 11;
  }

  /** The last of the first `n` records to point to the name as "packed". */
  function LastFor(items: seq<Json>, n: nat, name: seq<byte>): Option<Json>
    requires n <= |items|
  {
    if n == 0 then None
    else if TextMember(items[n - 1], Bytes("packed")) == Some(name) then Some(items[n - 1])
    else LastFor(items, n - 1, name)
  }

  lemma {:induction false} RecordsTell(items: seq<Json>, n: nat, name: seq<byte>)
    requires n <= |items|
    ensures FirstMember(Records(items, n), name) == LastFor(items, n, name)
  {
    hide SetMember, TextMember, Bytes;
    if n != 0 {
      RecordsTell(items, n - 1, name);
      var packed := TextMember(items[n - 1], Bytes("packed"));
      if packed.Some? {
        SetTells(Records(items, n - 1), packed.value, items[n - 1]);
      }
    }
  }

  /** Packing keeps the record of every name that no packed file gets. */
  lemma {:induction false} OtherRecordsKept(start: seq<(seq<byte>, Json)>, sources: seq<Source>, n: nat, name: seq<byte>)
    requires n <= |sources| && PackAll(start, sources, n).Ok?
    requires forall k :: 0 <= k < n && sources[k].content.Some? ==> NameFor(sources[k].content.value, sources[k].name) != name
    ensures FirstMember(PackAll(start, sources, n).value.records, name) == FirstMember(start, name)
  {
    hide SetMember, FirstMember, RecordOf, PackedName, Sha256.HexDigest, Crc32.Crc;
    if n != 0 {
      var src := sources[n - 1];
      var before := PackAll(start, sources, n - 1).value;
      OtherRecordsKept(start, sources, n - 1, name);
      if src.content.Some? {
        var hex := Sha256.HexDigest(src.content.value);
        var its := NameFor(src.content.value, src.name);
        SetTells(before.records, its, RecordOf(its, hex, src.name, |src.content.value|));
      }
    }
  }
}
