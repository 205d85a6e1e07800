/** Whole sequences of edits: index and tracks stay in agreement and in order. */
module TimelineEdits {
  import opened Timeline
  import opened TimelineEditing
  import opened TimelineTracks
  import opened TimelineConfig
  import opened TimelineScheduler

  datatype Edit = Insert(it: Item) | Remove(id: string) | Clear | Configure(cfgs: seq<TrackConfig>)

  /** The ids that may be in use after an edit. */
  function IdsAfter(ids: set<string>, e: Edit): set<string> {
    match e
    case Insert(it) => ids + {it.id}
    case Remove(id) => ids - {id}
    case Clear => {}
    case Configure(_) => ids
  }

  function IdsAfterAll(ids: set<string>, edits: seq<Edit>): set<string> {
    if edits == [] then ids else IdsAfter(IdsAfterAll(ids, edits[..|edits| - 1]), edits[|edits| - 1])
  }

  /** Every insertion brings an id that is not in use. */
  ghost predicate FreshIds(ids: set<string>, edits: seq<Edit>) {
    forall k :: 0 <= k < |edits| && edits[k].Insert? ==> edits[k].it.id !in IdsAfterAll(ids, edits[..k])
  }

  lemma ObjectPlace(tracks: seq<TrackRef>, o: ItemPtr) returns (t: nat, i: nat)
    requires o in Objects(tracks)
    ensures InTracks(tracks, t, i) && tracks[t].items[i] == o
  {
    t, i :| 0 <= t < |tracks| && 0 <= i < |tracks[t].items| && tracks[t].items[i] == o;
  }

  lemma PlacedObject(tracks: seq<TrackRef>, t: nat, i: nat)
    requires InTracks(tracks, t, i)
    ensures tracks[t].items[i] in Objects(tracks)
  {
  }

  lemma IdPlace(v: seq<Track>, id: string) returns (t: nat, i: nat)
    requires HasId(v, id)
    ensures t < |v| && i < |v[t].items| && v[t].items[i].id == id
  {
    t, i :| 0 <= t < |v| && 0 <= i < |v[t].items| && v[t].items[i].id == id;
  }

  /** The index holds exactly what is on the tracks. */
  lemma IndexIsTracks(s: Scheduler)
    requires s.Valid()
    ensures Objects(s.tracks) == s.index.Values
  {
    hide Objects, HasId;
    var v := TrackValues(s.tracks);
    forall o | o in Objects(s.tracks)
      ensures o in s.index.Values
    {
      var t, i := ObjectPlace(s.tracks, o);
      assert s.index[v[t].items[i].id] == o;
    }
    forall id | id in s.index
      ensures s.index[id] in Objects(s.tracks)
    {
      assert HasId(v, id);
      var t, i := IdPlace(v, id);
      PlacedObject(s.tracks, t, i);
      assert s.index[v[t].items[i].id] == s.tracks[t].items[i];
    }
  }

  method EditOnce(s: Scheduler, e: Edit)
    requires s.Valid() && Sorted(TrackValues(s.tracks))
    requires e.Insert? ==> e.it.id !in s.index
    modifies s`tracks, s`index, s`total, s`pos, s`state, Objects(s.tracks)
    ensures s.Valid() && Sorted(TrackValues(s.tracks))
    ensures s.index.Keys <= IdsAfter(old(s.index.Keys), e)
    ensures forall id :: id in s.index ==> (id in old(s.index) && s.index[id] == old(s.index[id])) || fresh(s.index[id])
  {
    hide Scheduler.Valid, Sorted, SlotsApart, TrackValues, Objects, Rising, Rehomed, SameItems;
    match e {
      case Insert(it) =>
        var code := s.InsertItem(it);
      case Remove(id) =>
        var ok := s.RemoveItem(id);
      case Clear =>
        s.ClearItems();
      case Configure(cfgs) =>
        SortedApart(TrackValues(s.tracks));
        var code := s.ConfigureTracks(cfgs);
    }
  }

  /** Any sequence of insertions under unused ids, removals, clearings and reconfigurations leaves every track in
      strict order of start, the index holding exactly the items on the tracks, each on its own track, and the total
      the latest end or 0. */
  method EditAll(s: Scheduler, edits: seq<Edit>)
    requires s.Valid() && Sorted(TrackValues(s.tracks)) && FreshIds(s.index.Keys, edits)
    modifies s`tracks, s`index, s`total, s`pos, s`state, Objects(s.tracks)
    ensures s.Valid() && Sorted(TrackValues(s.tracks))
    ensures s.index.Keys <= IdsAfterAll(old(s.index.Keys), edits)
  {
    hide Scheduler.Valid, Sorted, TrackValues, Objects;
    ghost var ids, all := s.index.Keys, Objects(s.tracks);
    IndexIsTracks(s);
    var k: nat := 0;
    assert edits[..0] == [];
    while k < |edits|
      invariant k <= |edits|
      invariant s.Valid() && Sorted(TrackValues(s.tracks))
      invariant s.index.Keys <= IdsAfterAll(ids, edits[..k])
      invariant forall o :: o in s.index.Values ==> o in all || fresh(o)
    {
      assert edits[..k + 1][..k] == edits[..k];
      IndexIsTracks(s);
      EditOnce(s, edits[k]);
      k := k + 1;
    }
    assert edits[..k] == edits;
  }
}
