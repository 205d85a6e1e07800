/** The archive's procedures: collecting and checking references, saving and loading. */
module ProjectFiles {
  import opened Results
  import opened Words
  import opened ProjectRefs
  import opened ProjectArchive
  import Zip
  import Sha256
  import Crc32

  // ---- references ----

  /** Walks a value, adding to the references found so far. */
  method WalkRefs(v: Json, found: seq<MediaRef>) returns (refs: seq<MediaRef>)
    ensures refs == found + Walk(v)
    decreases v, |Children(v)| + 1
  {
    hide HasPrefix;
    refs := found;
    match v {
      case Text(s) =>
        if HasPrefix(s, MEDIA) {
          refs := refs + [MediaRef(s, [])];
        }
      case Object(_) =>
        var packed: seq<byte> := [];
        if TextMember(v, Bytes("packed")).Some? {
          packed := TextMember(v, Bytes("packed")).value;
        } else if TextMember(v, Bytes("packed_path")).Some? {
          packed := TextMember(v, Bytes("packed_path")).value;
        }
        var sha := OrElse(TextMember(v, Bytes("sha256")), []);
        if packed != [] && HasPrefix(packed, MEDIA) {
          refs := refs + [MediaRef(packed, sha)];
        }
        NoEmptyMedia();
        assert refs == found + OwnRef(v);
        refs := WalkEach(v, refs);
        assert refs == found + (OwnRef(v) + WalkChildren(v, |Children(v)|));
      case List(_) =>
        refs := WalkEach(v, refs);
      case _ =>
    }
  }

  lemma NoEmptyMedia()
    ensures !HasPrefix([], MEDIA)
  {
    assert |MEDIA| == 6;
  }

  method WalkEach(v: Json, found: seq<MediaRef>) returns (refs: seq<MediaRef>)
    ensures refs == found + WalkChildren(v, |Children(v)|)
    decreases v, |Children(v)|
  {
    hide Walk;
    refs := found;
    var children := Children(v);
    var n: nat := 0;
    while n < |children|
      invariant n <= |children|
      invariant refs == found + WalkChildren(v, n)
    {
      refs := WalkRefs(children[n], refs);
      n := n + 1;
    }
  }

  method FindRef(refs: seq<MediaRef>, path: seq<byte>) returns (i: nat)
    ensures i == PlaceOf(refs, path)
  {
    i := 0;
    while i < |refs| && refs[i].path != path
      invariant i <= |refs| && PlaceOf(refs, path) == i + PlaceOf(refs[i..], path)
    {
      assert refs[i..][1..] == refs[i + 1..];
      i := i + 1;
    }
  }

  method CollectMediaRefs(manifest: Json) returns (refs: seq<MediaRef>)
    ensures refs == Collected(manifest)
  {
    var raw := WalkRefs(manifest, []);
    assert [] + Walk(manifest) == Walk(manifest);
    var joined: seq<MediaRef> := [];
    var n: nat := 0;
    while n < |raw|
      invariant n <= |raw| && joined == JoinAll(raw[..n])
    {
      var r := raw[n];
      assert raw[..n + 1][..n] == raw[..n];
      var i := FindRef(joined, r.path);
      if i == |joined| {
        joined := joined + [r];
      } else if joined[i].sha == [] && r.sha != [] {
        joined := joined[i := joined[i].(sha := r.sha)];
      }
      n := n + 1;
    }
    assert raw[..n] == raw;
    refs := SortRefs(joined);
  }

  method SortRefs(list: seq<MediaRef>) returns (refs: seq<MediaRef>)
    ensures refs == Sort(list)
  {
    hide Less;
    refs := [];
    var n: nat := 0;
    while n < |list|
      invariant n <= |list| && refs == Sort(list[..n])
    {
      assert list[..n + 1][..n] == list[..n];
      var p: nat := 0;
      while p < |refs| && Less(refs[p].path, list[n].path)
        invariant p <= |refs| && SlotOf(refs, list[n].path) == p + SlotOf(refs[p..], list[n].path)
      {
        assert refs[p..][1..] == refs[p + 1..];
        p := p + 1;
      }
      refs := refs[..p] + [list[n]] + refs[p..];
      n := n + 1;
    }
    assert list[..n] == list;
  }

  method FindEntry(entries: seq<Zip.ReadEntry>, name: seq<byte>) returns (i: nat)
    ensures i == Named(entries, name)
  {
    i := 0;
    while i < |entries| && entries[i].name != name
      invariant i <= |entries| && Named(entries, name) == i + Named(entries[i..], name)
    {
      assert entries[i..][1..] == entries[i + 1..];
      i := i + 1;
    }
  }

  method VerifyPackRefs(doc: Json, entries: seq<Zip.ReadEntry>) returns (code: int)
    ensures code == Verify(doc, entries)
  {
    hide Collected, Sha256.HexDigest;
    var refs := CollectMediaRefs(doc);
    var n: nat := 0;
    while n < |refs|
      invariant n <= |refs| && CheckRefs(refs, n, entries) == OK
    {
      var i := FindEntry(entries, refs[n].path);
      if i == |entries| {
        FaultStays(refs, n + 1, |refs|, entries);
        return PACKED_MEDIA_MISSING;
      }
      if refs[n].sha != [] {
        var hex := Sha256.Sha256Hex(entries[i].data);
        if Bytes(hex) != refs[n].sha {
          FaultStays(refs, n + 1, |refs|, entries);
          return PROJECT_CORRUPT;
        }
      }
      n := n + 1;
    }
    return OK;
  }

  lemma {:induction false} FaultStays(refs: seq<MediaRef>, n: nat, m: nat, entries: seq<Zip.ReadEntry>)
    requires n <= m <= |refs| && CheckRefs(refs, n, entries) != OK
    ensures CheckRefs(refs, m, entries) == CheckRefs(refs, n, entries)
  {
    hide CheckRef;
    if n < m {
      FaultStays(refs, n, m - 1, entries);
    }
  }

  // ---- saving ----

  /** Reads the files to pack, naming each after its hash; the same content twice is packed once. */
  method PackFiles(start: seq<(seq<byte>, Json)>, sources: seq<Source>) returns (r: Result<Packed, int>)
    ensures r == PackAll(start, sources, |sources|)
  {
    hide PackOne;
    var p := Packed([], start);
    var n: nat := 0;
    while n < |sources|
      invariant n <= |sources| && PackAll(start, sources, n) == Ok(p)
    {
      var next := PackFile(p, sources[n]);
      if next.Err? {
        PackStops(start, sources, n + 1, |sources|);
        return next;
      }
      p := next.value;
      n := n + 1;
    }
    return Ok(p);
  }

  lemma {:induction false} PackStops(start: seq<(seq<byte>, Json)>, sources: seq<Source>, n: nat, m: nat)
    requires n <= m <= |sources| && PackAll(start, sources, n).Err?
    ensures PackAll(start, sources, m) == PackAll(start, sources, n)
  {
    hide PackOne;
    if n < m {
      PackStops(start, sources, n, m - 1);
    }
  }

  method PackFile(p: Packed, src: Source) returns (r: Result<Packed, int>)
    ensures r == PackOne(p, src)
  {
    hide RecordOf, PackedName, SetMember, Crc32.Crc, Sha256.Hex, Sha256.Digest;
    if src.content.None? {
      return Err(PACKED_MEDIA_MISSING);
    }
    var bytes := src.content.value;
    var hex := Sha256.Sha256Hex(bytes);
    var name := PackedName(hex, src.name);
    var i: nat := 0;
    while i < |p.entries| && p.entries[i].name != name
      invariant i <= |p.entries| && PlaceIn(p.entries, name) == i + PlaceIn(p.entries[i..], name)
    {
      assert p.entries[i..][1..] == p.entries[i + 1..];
      i := i + 1;
    }
    if i < |p.entries| {
      var a := Crc32.CrcBytes(p.entries[i].data);
      var b := Crc32.CrcBytes(bytes);
      if a != b {
        return Err(PROJECT_CORRUPT);
      }
      return Ok(p);
    }
    return Ok(Packed(p.entries + [Zip.Entry(name, bytes)],
                       SetMember(p.records, name, RecordOf(name, hex, src.name, |bytes|))));
  }

  method RecheckPackage(sv: Services, bytes: seq<byte>, count: nat, doc: Json, mode: seq<byte>) returns (code: int)
    ensures code == Recheck(sv, bytes, count, doc, mode)
  {
    hide Zip.Read, Verify;
    var back := Zip.ZipRead(bytes);
    if back.Err? || |back.value| != count {
      return PROJECT_CORRUPT;
    }
    var n: nat := 0;
    while n < |back.value|
      invariant n <= |back.value| && RecheckManifests(sv, back.value, n) == OK
    {
      if back.value[n].name == MANIFEST {
        var valid := sv.validate(back.value[n].data);
        if valid != OK {
          ManifestFaultStays(sv, back.value, n + 1, |back.value|);
          return valid;
        }
      }
      n := n + 1;
    }
    var i := FindEntry(back.value, MANIFEST);
    if i == |back.value| {
      return PROJECT_CORRUPT;
    }
    if mode == Bytes("pack") {
      code := VerifyPackRefs(doc, back.value);
      return;
    }
    return OK;
  }

  lemma {:induction false} ManifestFaultStays(sv: Services, entries: seq<Zip.ReadEntry>, n: nat, m: nat)
    requires n <= m <= |entries| && RecheckManifests(sv, entries, n) != OK
    ensures RecheckManifests(sv, entries, m) == RecheckManifests(sv, entries, n)
  {
    if n < m {
      ManifestFaultStays(sv, entries, n, m - 1);
    }
  }

  method PrepareManifest(m: Json, sources: seq<Source>, now: seq<byte>) returns (r: Result<(Json, seq<Zip.Entry>), int>)
    ensures r == Prepared(m, sources, now)
  {
    hide PackAll, OldRecords, SetMember;
    if !m.Object? {
      return Err(PROJECT_CORRUPT);
    }
    var project := Member(m, Bytes("project"));
    if project.None? || !project.value.Object? {
      return Err(PROJECT_CORRUPT);
    }
    var mode := ModeOf(m);
    if mode != Bytes("ref") && mode != Bytes("pack") {
      return Err(PROJECT_CORRUPT);
    }
    var doc := m;
    var media: seq<Zip.Entry> := [];
    if mode == Bytes("pack") {
      var packed := PackFiles(OldRecords(m), sources);
      if packed.Err? {
        return Err(packed.error);
      }
      media := packed.value.entries;
      doc := Set(doc, Bytes("media_files"), List(ValuesOf(packed.value.records)));
    }
    doc := Set(doc, Bytes("saved_at"), Text(now));
    return Ok((doc, media));
  }

  /** Saves a project: prepares the manifest, writes the package, and reads it back to check it. */
  method SaveProject(sv: Services, m: Json, sources: seq<Source>, now: seq<byte>) returns (r: Result<seq<byte>, int>)
    ensures r == Saved(sv, m, sources, now)
  {
    hide Prepared, Zip.Write, Recheck, Verify, ModeOf;
    var prepared := PrepareManifest(m, sources, now);
    if prepared.Err? {
      return Err(prepared.error);
    }
    var (doc, media) := prepared.value;
    var text := sv.dump(doc);
    var valid := sv.validate(text);
    if valid != OK {
      return Err(valid);
    }
    var entries := [Zip.Entry(MANIFEST, text)] + media;
    var written := Zip.ZipWrite(entries);
    if written.Err? {
      return Err(BAD_PARAM);
    }
    PreparedMedia(m, sources, now);
    RecheckOnlyMedia(sv, doc, media, ModeOf(doc));
    var code := RecheckPackage(sv, written.value, |entries|, doc, ModeOf(doc));
    if code != OK {
      return Err(code);
    }
    return Ok(written.value);
  }

  // ---- loading ----

  /** Loads a package: all of its manifest, or an error. */
  method LoadProject(sv: Services, bytes: seq<byte>) returns (r: Result<Json, int>)
    ensures r == Loaded(sv, bytes)
  {
    hide Zip.Read, Verify, ModeOf;
    var entries := Zip.ZipRead(bytes);
    if entries.Err? {
      return Err(PROJECT_CORRUPT);
    }
    var i := FindEntry(entries.value, MANIFEST);
    if i == |entries.value| {
      return Err(PROJECT_CORRUPT);
    }
    var text := entries.value[i].data;
    var valid := sv.validate(text);
    if valid != OK {
      return Err(valid);
    }
    var doc := sv.parse(text);
    if doc.None? {
      return Err(PROJECT_CORRUPT);
    }
    if ModeOf(doc.value) == Bytes("pack") {
      var code := VerifyPackRefs(doc.value, entries.value);
      if code != OK {
        return Err(code);
      }
    }
    return Ok(doc.value);
  }
}
