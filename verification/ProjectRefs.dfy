/** Media references inside a manifest: every string below the media directory, at any depth. */
module ProjectRefs {
  import opened Results
  import opened Words

  /** A JSON value; the members of an object are in key order. */
  datatype Json =
    | Null
    | Bool(b: bool)
    | Number(n: int)
    | Text(s: seq<byte>)
    | List(items: seq<Json>)
    | Object(members: seq<(seq<byte>, Json)>)

  datatype MediaRef = MediaRef(path: seq<byte>, sha: seq<byte>)

  function Bytes(s: string): (r: seq<byte>)
    ensures |r| == |s|
  {
    seq(|s|, i requires 0 <= i < |s| => s[i] as int % 256)
  }

  const MEDIA: seq<byte> := Bytes("media/")

  predicate HasPrefix(s: seq<byte>, prefix: seq<byte>) {
    |prefix| <= |s| && s[..|prefix|] == prefix
  }

  /** The member of this name, if there is one. */
  function Member(v: Json, key: seq<byte>): (r: Option<Json>)
  {
    if v.Object? then FirstMember(v.members, key) else None
  }

  function FirstMember(members: seq<(seq<byte>, Json)>, key: seq<byte>): (r: Option<Json>)
    ensures r.Some? ==> exists i :: 0 <= i < |members| && members[i] == (key, r.value)
  {
    if members == [] then None
    else if members[0].0 == key then Some(members[0].1)
    else FirstMember(members[1..], key)
  }

  /** The member's text, if it is a text. */
  function TextMember(v: Json, key: seq<byte>): Option<seq<byte>> {
    match Member(v, key)
    case Some(Text(s)) => Some(s)
    case _ => None
  }

  function Children(v: Json): (r: seq<Json>)
    ensures forall i :: 0 <= i < |r| ==> r[i] < v
  {
    match v
    case List(items) => items
    case Object(members) => seq(|members|, i requires 0 <= i < |members| => members[i].1)
    case _ => []
  }

  // ---- collecting ----

  /** The reference an object makes by itself. */
  function OwnRef(v: Json): seq<MediaRef> {
    var packed :=
      if TextMember(v, Bytes("packed")).Some? then TextMember(v, Bytes("packed")).value
      else OrElse(TextMember(v, Bytes("packed_path")), []);
    var sha := OrElse(TextMember(v, Bytes("sha256")), []);
    if HasPrefix(packed, MEDIA) then [MediaRef(packed, sha)] else []
  }

  /** The references of a value, in the order of a walk over it. */
  function Walk(v: Json): seq<MediaRef>
    decreases v, |Children(v)| + 1
  {
    match v
    case Text(s) => if HasPrefix(s, MEDIA) then [MediaRef(s, [])] else []
    case Object(_) => OwnRef(v) + WalkChildren(v, |Children(v)|)
    case List(_) => WalkChildren(v, |Children(v)|)
    case _ => []
  }

  function WalkChildren(v: Json, n: nat): seq<MediaRef>
    requires n <= |Children(v)|
    decreases v, n
  {
    if n == 0 then [] else WalkChildren(v, n - 1) + Walk(Children(v)[n - 1])
  }

  /** The text occurs as a value somewhere in `v`. */
  ghost predicate Mentions(v: Json, s: seq<byte>)
    decreases v
  {
    v == Text(s) || exists i :: 0 <= i < |Children(v)| && Mentions(Children(v)[i], s)
  }

  ghost predicate RefersTo(refs: seq<MediaRef>, path: seq<byte>) {
    exists i :: 0 <= i < |refs| && refs[i].path == path
  }

  lemma RefersConcat(a: seq<MediaRef>, b: seq<MediaRef>, path: seq<byte>)
    ensures RefersTo(a + b, path) <==> RefersTo(a, path) || RefersTo(b, path)
  {
    if RefersTo(a, path) {
      var i :| 0 <= i < |a| && a[i].path == path;
      assert (a + b)[i] == a[i];
    }
    if RefersTo(b, path) {
      var i :| 0 <= i < |b| && b[i].path == path;
      assert (a + b)[|a| + i] == b[i];
    }
  }

  lemma MemberMentioned(v: Json, key: seq<byte>)
    requires TextMember(v, key).Some?
    ensures Mentions(v, TextMember(v, key).value)
  {
    var s := TextMember(v, key).value;
    var i :| 0 <= i < |v.members| && v.members[i] == (key, Text(s));
    assert Children(v)[i] == Text(s);
    assert Mentions(Children(v)[i], s);
  }

  lemma OwnRefMentioned(v: Json, path: seq<byte>)
    requires RefersTo(OwnRef(v), path)
    ensures HasPrefix(path, MEDIA) && Mentions(v, path)
  {
    if TextMember(v, Bytes("packed")).Some? {
      MemberMentioned(v, Bytes("packed"));
    } else if TextMember(v, Bytes("packed_path")).Some? {
      MemberMentioned(v, Bytes("packed_path"));
    }
  }

  /** The walk finds exactly the texts below the media directory, at whatever depth. */
  lemma {:induction false} WalkFinds(v: Json, path: seq<byte>)
    ensures RefersTo(Walk(v), path) <==> HasPrefix(path, MEDIA) && Mentions(v, path)
    decreases v, |Children(v)| + 1
  {
    hide HasPrefix, OwnRef;
    match v
    case Text(s) =>
      assert Children(v) == [];
      if s == path && HasPrefix(s, MEDIA) {
        assert Walk(v)[0].path == path;
      }
    case Object(_) =>
      WalkChildrenFind(v, |Children(v)|, path);
      RefersConcat(OwnRef(v), WalkChildren(v, |Children(v)|), path);
      if RefersTo(OwnRef(v), path) {
        OwnRefMentioned(v, path);
      }
    case List(_) =>
      WalkChildrenFind(v, |Children(v)|, path);
    case _ =>
  }

  lemma {:induction false} WalkChildrenFind(v: Json, n: nat, path: seq<byte>)
    requires n <= |Children(v)|
    ensures RefersTo(WalkChildren(v, n), path) <==>
      HasPrefix(path, MEDIA) && exists i :: 0 <= i < n && Mentions(Children(v)[i], path)
    decreases v, n
  {
    hide HasPrefix;
    if n != 0 {
      WalkChildrenFind(v, n - 1, path);
      WalkFinds(Children(v)[n - 1], path);
      RefersConcat(WalkChildren(v, n - 1), Walk(Children(v)[n - 1]), path);
    }
  }

  // ---- without repetition, in order ----

  predicate Less(a: seq<byte>, b: seq<byte>)
    decreases |a|
  {
    if b == [] then false
    else if a == [] then true
    else if a[0] != b[0] then a[0] < b[0]
    else Less(a[1..], b[1..])
  }

  lemma {:induction false} LessTotal(a: seq<byte>, b: seq<byte>)
    ensures a == b || Less(a, b) || Less(b, a)
    ensures !(Less(a, b) && Less(b, a)) && !Less(a, a)
    decreases |a|
  {
    if a != [] {
      if b != [] {
        LessTotal(a[1..], b[1..]);
        assert a == [a[0]] + a[1..] && b == [b[0]] + b[1..];
      }
      LessTotal(a[1..], a[1..]);
    }
  }

  lemma {:induction false} LessTrans(a: seq<byte>, b: seq<byte>, c: seq<byte>)
    requires Less(a, b) && Less(b, c)
    ensures Less(a, c)
    decreases |a|
  {
    if a != [] && a[0] == b[0] == c[0] {
      LessTrans(a[1..], b[1..], c[1..]);
    }
  }

  /** The first place of a path, or the length. */
  function PlaceOf(refs: seq<MediaRef>, path: seq<byte>): (i: nat)
    ensures i <= |refs| && (i < |refs| ==> refs[i].path == path)
    ensures forall k :: 0 <= k < i ==> refs[k].path != path
  {
    if refs == [] then 0 else if refs[0].path == path then 0 else 1 + PlaceOf(refs[1..], path)
  }

  /** One more reference, joined with an earlier one to the same path: the first hash given stays. */
  function Join(refs: seq<MediaRef>, r: MediaRef): seq<MediaRef> {
    var i := PlaceOf(refs, r.path);
    if i == |refs| then refs + [r]
    else if refs[i].sha == [] && r.sha != [] then refs[i := refs[i].(sha := r.sha)]
    else refs
  }

  function JoinAll(raw: seq<MediaRef>): seq<MediaRef> {
    if raw == [] then [] else Join(JoinAll(raw[..|raw| - 1]), raw[|raw| - 1])
  }

  ghost predicate OnePerPath(refs: seq<MediaRef>) {
    forall i, j :: 0 <= i < j < |refs| ==> refs[i].path != refs[j].path
  }

  ghost predicate Ascending(refs: seq<MediaRef>) {
    forall i, j :: 0 <= i < j < |refs| ==> Less(refs[i].path, refs[j].path)
  }

  /** The first hash given for a path, or none. */
  function FirstSha(raw: seq<MediaRef>, path: seq<byte>): seq<byte> {
    if raw == [] then []
    else
      var before := FirstSha(raw[..|raw| - 1], path);
      if before == [] && raw[|raw| - 1].path == path then raw[|raw| - 1].sha else before
  }

  /** Each path once, with the first hash given for it. */
  ghost predicate Joined(refs: seq<MediaRef>, raw: seq<MediaRef>) {
    && OnePerPath(refs)
    && (forall path :: RefersTo(refs, path) <==> RefersTo(raw, path))
    && (forall i :: 0 <= i < |refs| ==> refs[i].sha == FirstSha(raw, refs[i].path))
  }

  lemma {:induction false} NoShaYet(raw: seq<MediaRef>, path: seq<byte>)
    requires !RefersTo(raw, path)
    ensures FirstSha(raw, path) == []
  {
    if raw != [] {
      var init := raw[..|raw| - 1];
      assert raw[|raw| - 1].path != path;
      assert forall i :: 0 <= i < |init| ==> init[i] == raw[i];
      NoShaYet(init, path);
    }
  }

  lemma {:induction false} JoinAllJoins(raw: seq<MediaRef>)
    ensures Joined(JoinAll(raw), raw)
  {
    if raw != [] {
      var init, r := raw[..|raw| - 1], raw[|raw| - 1];
      JoinAllJoins(init);
      assert raw == init + [r];
      JoinKeeps(JoinAll(init), init, r);
    }
  }

  lemma JoinKeeps(refs: seq<MediaRef>, init: seq<MediaRef>, r: MediaRef)
    requires Joined(refs, init)
    ensures Joined(Join(refs, r), init + [r])
  {
    var raw, next, p := init + [r], Join(refs, r), PlaceOf(refs, r.path);
    assert raw[..|raw| - 1] == init;
    forall path
      ensures RefersTo(next, path) <==> RefersTo(raw, path)
    {
      RefersConcat(init, [r], path);
      RefersConcat(refs, [r], path);
      assert [r][0].path == r.path;
      if p < |refs| {
        SamePaths(refs, next, path);
        assert refs[p].path == r.path;
      }
    }
    if p == |refs| {
      assert !RefersTo(refs, r.path);
      NoShaYet(init, r.path);
    }
  }

  lemma SamePaths(a: seq<MediaRef>, b: seq<MediaRef>, path: seq<byte>)
    requires |a| == |b| && forall i :: 0 <= i < |a| ==> a[i].path == b[i].path
    ensures RefersTo(a, path) <==> RefersTo(b, path)
  {
    if RefersTo(a, path) {
      var i :| 0 <= i < |a| && a[i].path == path;
      assert b[i].path == path;
    }
    if RefersTo(b, path) {
      var i :| 0 <= i < |b| && b[i].path == path;
      assert a[i].path == path;
    }
  }

  /** Where a path belongs in an ascending list. */
  function SlotOf(refs: seq<MediaRef>, path: seq<byte>): (i: nat)
    ensures i <= |refs| && (forall k :: 0 <= k < i ==> Less(refs[k].path, path)) && (i < |refs| ==> !Less(refs[i].path, path))
  {
    if refs == [] || !Less(refs[0].path, path) then 0 else 1 + SlotOf(refs[1..], path)
  }

  function Insert(refs: seq<MediaRef>, r: MediaRef): seq<MediaRef> {
    var i := SlotOf(refs, r.path);
    refs[..i] + [r] + refs[i..]
  }

  function Sort(refs: seq<MediaRef>): seq<MediaRef> {
    if refs == [] then [] else Insert(Sort(refs[..|refs| - 1]), refs[|refs| - 1])
  }

  /** The references of a manifest: each path once, in order. */
  function Collected(doc: Json): seq<MediaRef> {
    Sort(JoinAll(Walk(doc)))
  }

  lemma InsertAscends(refs: seq<MediaRef>, r: MediaRef)
    requires Ascending(refs) && forall i :: 0 <= i < |refs| ==> refs[i].path != r.path
    ensures Ascending(Insert(refs, r))
  {
    hide Less, SlotOf;
    var p := SlotOf(refs, r.path);
    var next := Insert(refs, r);
    forall k | p <= k < |refs|
      ensures Less(r.path, refs[k].path)
    {
      LessTotal(refs[p].path, r.path);
      if p < k {
        LessTrans(r.path, refs[p].path, refs[k].path);
      }
    }
    forall i, j | 0 <= i < j < |next|
      ensures Less(next[i].path, next[j].path)
    {
      assert next[i] == if i < p then refs[i] else if i == p then r else refs[i - 1];
      assert next[j] == if j < p then refs[j] else if j == p then r else refs[j - 1];
    }
  }

  lemma InsertKeepsAll(refs: seq<MediaRef>, r: MediaRef)
    ensures multiset(Insert(refs, r)) == multiset(refs) + multiset{r}
  {
    hide SlotOf;
    var p := SlotOf(refs, r.path);
    assert refs == refs[..p] + refs[p..];
  }

  lemma {:induction false} SortAscends(refs: seq<MediaRef>)
    requires OnePerPath(refs)
    ensures Ascending(Sort(refs)) && multiset(Sort(refs)) == multiset(refs)
  {
    if refs != [] {
      var init, r := refs[..|refs| - 1], refs[|refs| - 1];
      assert refs == init + [r];
      SortAscends(init);
      forall i | 0 <= i < |Sort(init)|
        ensures Sort(init)[i].path != r.path
      {
        assert Sort(init)[i] in multiset(Sort(init));
        assert Sort(init)[i] in init;
      }
      InsertAscends(Sort(init), r);
      InsertKeepsAll(Sort(init), r);
    }
  }

  /** The collected references are in strict path order, are to exactly the media texts of the manifest, and carry
      the first hash the walk met for their path. */
  lemma CollectedIs(doc: Json)
    ensures var refs := Collected(doc);
      && Ascending(refs)
      && (forall path :: RefersTo(refs, path) <==> HasPrefix(path, MEDIA) && Mentions(doc, path))
      && (forall i :: 0 <= i < |refs| ==> refs[i].sha == FirstSha(Walk(doc), refs[i].path))
  {
    hide HasPrefix, Mentions;
    var raw := Walk(doc);
    var joined, refs := JoinAll(raw), Collected(doc);
    JoinAllJoins(raw);
    SortAscends(joined);
    forall path
      ensures RefersTo(refs, path) <==> HasPrefix(path, MEDIA) && Mentions(doc, path)
    {
      WalkFinds(doc, path);
      SameRefs(refs, joined, path);
    }
    forall i | 0 <= i < |refs|
      ensures refs[i].sha == FirstSha(raw, refs[i].path)
    {
      assert refs[i] in multiset(refs);
      assert refs[i] in joined;
    }
  }

  lemma SameRefs(a: seq<MediaRef>, b: seq<MediaRef>, path: seq<byte>)
    requires multiset(a) == multiset(b)
    ensures RefersTo(a, path) <==> RefersTo(b, path)
  {
    if RefersTo(a, path) {
      var i :| 0 <= i < |a| && a[i].path == path;
      assert a[i] in multiset(a);
      assert a[i] in b;
    }
    if RefersTo(b, path) {
      var i :| 0 <= i < |b| && b[i].path == path;
      assert b[i] in multiset(b);
      assert b[i] in a;
    }
  }

  // ---- the hashes given ----

  /** An object points to the text it has as "packed", or, where it has none, as "packed_path". */
  ghost predicate PointsTo(v: Json, path: seq<byte>) {
    || TextMember(v, Bytes("packed")) == Some(path)
    || (TextMember(v, Bytes("packed")).None? && TextMember(v, Bytes("packed_path")) == Some(path))
  }

  /** Somewhere in `v` an object points to the path and has this text as "sha256". */
  ghost predicate Gives(v: Json, path: seq<byte>, sha: seq<byte>)
    decreases v
  {
    || (PointsTo(v, path) && TextMember(v, Bytes("sha256")) == Some(sha))
    || exists i :: 0 <= i < |Children(v)| && Gives(Children(v)[i], path, sha)
  }

  ghost predicate Holds(refs: seq<MediaRef>, path: seq<byte>, sha: seq<byte>) {
    exists i :: 0 <= i < |refs| && refs[i] == MediaRef(path, sha)
  }

  lemma HoldsConcat(a: seq<MediaRef>, b: seq<MediaRef>, path: seq<byte>, sha: seq<byte>)
    ensures Holds(a + b, path, sha) <==> Holds(a, path, sha) || Holds(b, path, sha)
  {
    if Holds(a, path, sha) {
      var i :| 0 <= i < |a| && a[i] == MediaRef(path, sha);
      assert (a + b)[i] == a[i];
    }
    if Holds(b, path, sha) {
      var i :| 0 <= i < |b| && b[i] == MediaRef(path, sha);
      assert (a + b)[|a| + i] == b[i];
    }
  }

  lemma OwnRefGiven(v: Json, path: seq<byte>, sha: seq<byte>)
    requires sha != [] && HasPrefix(path, MEDIA)
    ensures Holds(OwnRef(v), path, sha) <==> PointsTo(v, path) && TextMember(v, Bytes("sha256")) == Some(sha)
  {
    hide TextMember, Bytes;
    MediaNotEmpty();
    var refs := OwnRef(v);
    if Holds(refs, path, sha) {
      assert refs[0] == MediaRef(path, sha);
    }
    if PointsTo(v, path) && TextMember(v, Bytes("sha256")) == Some(sha) {
      assert refs[0] == MediaRef(path, sha);
    }
  }

  lemma MediaNotEmpty()
    ensures !HasPrefix([], MEDIA)
  {
  }

  lemma {:induction false} WalkGives(v: Json, path: seq<byte>, sha: seq<byte>)
    requires sha != [] && HasPrefix(path, MEDIA)
    ensures Holds(Walk(v), path, sha) <==> Gives(v, path, sha)
    decreases v, |Children(v)| + 1
  {
    hide HasPrefix, OwnRef, PointsTo;
    OwnRefGiven(v, path, sha);
    match v
    case Object(_) =>
      WalkChildrenGive(v, |Children(v)|, path, sha);
      HoldsConcat(OwnRef(v), WalkChildren(v, |Children(v)|), path, sha);
    case List(_) =>
      NoMembers(v, Bytes("sha256"));
      WalkChildrenGive(v, |Children(v)|, path, sha);
    case _ =>
      NoMembers(v, Bytes("sha256"));
  }

  lemma NoMembers(v: Json, key: seq<byte>)
    requires !v.Object?
    ensures TextMember(v, key) == None
  {
  }

  lemma {:induction false} WalkChildrenGive(v: Json, n: nat, path: seq<byte>, sha: seq<byte>)
    requires n <= |Children(v)| && sha != [] && HasPrefix(path, MEDIA)
    ensures Holds(WalkChildren(v, n), path, sha) <==> exists i :: 0 <= i < n && Gives(Children(v)[i], path, sha)
    decreases v, n
  {
    hide HasPrefix, Holds, Walk, Gives;
    if n == 0 {
      NoneHeld(path, sha);
    } else {
      WalkChildrenGive(v, n - 1, path, sha);
      WalkGives(Children(v)[n - 1], path, sha);
      HoldsConcat(WalkChildren(v, n - 1), Walk(Children(v)[n - 1]), path, sha);
    }
  }

  lemma NoneHeld(path: seq<byte>, sha: seq<byte>)
    ensures !Holds([], path, sha)
  {
  }

  lemma {:induction false} FirstShaHeld(raw: seq<MediaRef>, path: seq<byte>)
    ensures FirstSha(raw, path) != [] ==> Holds(raw, path, FirstSha(raw, path))
    ensures forall sha :: sha != [] && Holds(raw, path, sha) ==> FirstSha(raw, path) != []
  {
    if raw != [] {
      var init, r := raw[..|raw| - 1], raw[|raw| - 1];
      FirstShaHeld(init, path);
      assert raw == init + [r];
      forall sha
        ensures Holds(raw, path, sha) <==> Holds(init, path, sha) || r == MediaRef(path, sha)
      {
        HoldsConcat(init, [r], path, sha);
        assert [r][0] == r;
      }
    }
  }

  /** The hash collected for a path is one that the manifest gives for it, and there is none only if the manifest gives
      none. */
  lemma ShaIsGiven(doc: Json, path: seq<byte>)
    requires HasPrefix(path, MEDIA)
    ensures var sha := FirstSha(Walk(doc), path);
      && (sha != [] ==> Gives(doc, path, sha))
      && forall other :: other != [] && Gives(doc, path, other) ==> sha != []
  {
    hide HasPrefix, Walk, Gives, FirstSha;
    var raw := Walk(doc);
    FirstShaHeld(raw, path);
    forall sha | sha != []
      ensures Holds(raw, path, sha) <==> Gives(doc, path, sha)
    {
      WalkGives(doc, path, sha);
    }
  }
}
