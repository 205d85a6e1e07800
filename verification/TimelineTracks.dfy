/** Items shared between the tracks that order them and the index that finds them, and what they hold as values. */
module TimelineTracks {
  import opened Timeline
  import opened TimelineRuns
  import opened TimelineEditing

  /** A shared item. */
  class ItemPtr {
    var item: Item

    constructor (it: Item)
      ensures item == it
    {
      item := it;
    }
  }

  datatype TrackRef = TrackRef(kind: TrackType, name: string, enabled: bool, items: seq<ItemPtr>)

  // ---- what the tracks hold, as values ----

  ghost predicate InTracks(tracks: seq<TrackRef>, t: int, i: int) {
    0 <= t < |tracks| && 0 <= i < |tracks[t].items|
  }

  ghost function Objects(tracks: seq<TrackRef>): set<ItemPtr> {
    set t, i | 0 <= t < |tracks| && 0 <= i < |tracks[t].items| :: tracks[t].items[i]
  }

  ghost function Values(items: seq<ItemPtr>): (v: seq<Item>)
    reads items
    ensures |v| == |items| && forall i :: 0 <= i < |items| ==> v[i] == items[i].item
  {
    seq(|items|, i requires 0 <= i < |items| reads items => items[i].item)
  }

  ghost function TrackValue(t: TrackRef): Track
    reads t.items
  {
    Track(t.kind, t.name, t.enabled, Values(t.items))
  }

  ghost function TrackValues(tracks: seq<TrackRef>): (v: seq<Track>)
    reads Objects(tracks)
    ensures |v| == |tracks| && forall t :: 0 <= t < |tracks| ==> v[t] == TrackValue(tracks[t])
  {
    seq(|tracks|, t requires 0 <= t < |tracks| reads Objects(tracks) => TrackValue(tracks[t]))
  }

  ghost predicate Distinct(items: seq<ItemPtr>) {
    forall i, j :: 0 <= i < j < |items| ==> items[i] != items[j]
  }

  ghost predicate Disjoint(a: seq<ItemPtr>, b: seq<ItemPtr>) {
    forall o :: o in a ==> o !in b
  }

  ghost predicate AllAt(items: seq<ItemPtr>, k: int)
    reads items
  {
    forall i :: 0 <= i < |items| ==> items[i].item.track == k
  }

  /** Every item sits in the track it names, once. */
  ghost predicate Homed(tracks: seq<TrackRef>)
    reads Objects(tracks)
  {
    forall t :: 0 <= t < |tracks| ==> Distinct(tracks[t].items) && AllAt(tracks[t].items, t)
  }

  /** The same, when `v` is what the tracks hold. */
  ghost predicate HomedBy(tracks: seq<TrackRef>, v: seq<Track>) {
    && |v| == |tracks|
    && forall t :: 0 <= t < |tracks| ==> Distinct(tracks[t].items) && AllOn(v[t].items, t)
  }

  ghost predicate AllOn(items: seq<Item>, k: int) {
    forall i :: 0 <= i < |items| ==> items[i].track == k
  }

  lemma HomedByValues(tracks: seq<TrackRef>)
    ensures Homed(tracks) <==> HomedBy(tracks, TrackValues(tracks))
  {
    hide AllAt, Distinct;
    forall t | 0 <= t < |tracks|
      ensures AllAt(tracks[t].items, t) <==> AllOn(TrackValues(tracks)[t].items, t)
    {
      AllAtValues(tracks[t].items, t);
    }
  }

  /** The index finds exactly the items in the tracks, each under its own id: `v` is what the tracks hold. */
  ghost predicate IndexAgrees(tracks: seq<TrackRef>, index: map<string, ItemPtr>, v: seq<Track>) {
    && |v| == |tracks| && (forall t :: 0 <= t < |v| ==> |v[t].items| == |tracks[t].items|)
    && (forall t, i {:trigger tracks[t].items[i]} :: InTracks(tracks, t, i) ==>
          v[t].items[i].id in index && index[v[t].items[i].id] == tracks[t].items[i])
    && (forall id :: id in index ==> HasId(v, id))
  }

  lemma SameTracks(a: Track, b: Track)
    requires SameTrackShape(a, b)
    ensures |a.items| == |b.items| && forall i :: 0 <= i < |a.items| ==> a.items[i].id == b.items[i].id
  {
    ShapeKeepsTrack(a, b);
  }

  lemma IndexAt(tracks: seq<TrackRef>, index: map<string, ItemPtr>, v: seq<Track>, t: int, i: int)
    requires IndexAgrees(tracks, index, v) && InTracks(tracks, t, i)
    ensures |v| == |tracks| && |v[t].items| == |tracks[t].items|
    ensures v[t].items[i].id in index && index[v[t].items[i].id] == tracks[t].items[i]
  {
    var o := tracks[t].items[i];
  }

  lemma ShapeKeepsIndex(tracks: seq<TrackRef>, index: map<string, ItemPtr>, a: seq<Track>, b: seq<Track>)
    requires IndexAgrees(tracks, index, a) && SameShapes(a, b)
    ensures IndexAgrees(tracks, index, b)
  {
    hide HasId, Sorted, SlotsApart, Derived, TotalOf, SameTrackShape;
    ShapeKeepsOrder(a, b);
    forall t | 0 <= t < |a|
      ensures |b[t].items| == |a[t].items| && forall i :: 0 <= i < |a[t].items| ==> a[t].items[i].id == b[t].items[i].id
    {
      SameTracks(a[t], b[t]);
    }
    forall t, i | InTracks(tracks, t, i)
      ensures b[t].items[i].id in index && index[b[t].items[i].id] == tracks[t].items[i]
    {
      IndexAt(tracks, index, a, t, i);
    }
  }

  // ---- passes over all items ----

  /** The passes the scheduler makes over its items. */
  datatype Pass = TickPass(now: int, accept: Accepts) | ResetPass | ScenesPass(from: int) | StopPass | HushPass

  function PassFn(p: Pass): ItemFn {
    match p
    case TickPass(now, accept) => StepFn(now, accept)
    case ResetPass => (kind: TrackType, enabled: bool, it: Item) => (it.(state := Scheduled, activeAt := 0), [])
    case ScenesPass(from) =>
      (kind: TrackType, enabled: bool, it: Item) => (if kind == Scene && it.start <= from then it.(state := Done) else it, [])
    case StopPass => StopFn()
    case HushPass =>
      (kind: TrackType, enabled: bool, it: Item) =>
        if it.state == Active || it.state == Preloaded then
          (it.(state := Scheduled), if IsMedia(kind) then [MediaStop] else [])
        else (it, [])
  }

  lemma TagConcat(id: string, a: seq<Effect>, b: seq<Effect>)
    ensures Tag(id, a + b) == Tag(id, a) + Tag(id, b)
  {
  }

  lemma ActivateState(kind: TrackType, it: Item, now: int)
    ensures var r := Activate(kind, it, now).0; r.id == it.id && r.track == it.track && (r.state == Active || r.state == Done)
  {
  }

  lemma ThreeTags(log: seq<Logged>, id: string, a: seq<Effect>, b: seq<Effect>, c: seq<Effect>)
    ensures log + Tag(id, a) + Tag(id, b) + Tag(id, c) == log + Tag(id, a + b + c)
  {
    TagConcat(id, a, b);
    TagConcat(id, a + b, c);
  }

  lemma PassKeepsTrack(p: Pass, kind: TrackType, enabled: bool, it: Item)
    ensures var r := PassFn(p)(kind, enabled, it).0; r.track == it.track && r.id == it.id && Static(r) == Static(it)
  {
    hide StepItem;
    if p.TickPass? {
      StepItemStatic(kind, it, p.now, p.accept);
      var r := PassFn(p)(kind, enabled, it).0;
      assert Static(r).track == Static(it).track && Static(r).id == Static(it).id;
    }
  }

  /** A track with its first `n` items visited. */
  ghost function Partly(f: ItemFn, t: Track, n: nat): seq<Item>
    requires n <= |t.items|
  {
    MapItems(f, t, n).0 + t.items[n..]
  }

  lemma PartlyEnds(f: ItemFn, t: Track)
    ensures Partly(f, t, 0) == t.items && MapItems(f, t, 0).1 == []
    ensures MapTrack(f, t) == (t.(items := Partly(f, t, |t.items|)), MapItems(f, t, |t.items|).1)
  {
    assert Partly(f, t, |t.items|) == MapItems(f, t, |t.items|).0;
  }

  lemma PartlyStep(f: ItemFn, t: Track, n: nat)
    requires n < |t.items|
    ensures var r := f(t.kind, t.enabled, t.items[n]);
      && |Partly(f, t, n)| == |t.items| && Partly(f, t, n)[n] == t.items[n]
      && Partly(f, t, n + 1) == Partly(f, t, n)[n := r.0]
      && MapItems(f, t, n + 1).1 == MapItems(f, t, n).1 + Tag(t.items[n].id, r.1)
  {
  }

  lemma PassKeepsHome(p: Pass, t: Track, k: int)
    requires forall i :: 0 <= i < |t.items| ==> t.items[i].track == k
    ensures forall i :: 0 <= i < |t.items| ==> MapTrack(PassFn(p), t).0.items[i].track == k
  {
    hide PassFn;
    forall i | 0 <= i < |t.items|
      ensures MapTrack(PassFn(p), t).0.items[i].track == k
    {
      PassKeepsTrack(p, t.kind, t.enabled, t.items[i]);
    }
  }

  lemma AllAtValues(items: seq<ItemPtr>, k: int)
    ensures AllAt(items, k) <==> forall i :: 0 <= i < |Values(items)| ==> Values(items)[i].track == k
  {
    if forall i :: 0 <= i < |Values(items)| ==> Values(items)[i].track == k {
      forall i | 0 <= i < |items|
        ensures items[i].item.track == k
      {
        assert Values(items)[i].track == k;
      }
    }
  }

  lemma Apart(tracks: seq<TrackRef>, t: nat, k: nat)
    requires Homed(tracks) && t < |tracks| && k < |tracks| && t != k
    ensures Disjoint(tracks[t].items, tracks[k].items)
  {
    assert AllAt(tracks[t].items, t) && AllAt(tracks[k].items, k);
  }

  ghost function PartlyTracks(f: ItemFn, tracks: seq<Track>, n: nat): seq<Track>
    requires n <= |tracks|
  {
    MapTracks(f, tracks, n).0 + tracks[n..]
  }

  lemma PartlyTracksEnds(f: ItemFn, tracks: seq<Track>)
    ensures PartlyTracks(f, tracks, 0) == tracks && MapTracks(f, tracks, 0).1 == []
    ensures PartlyTracks(f, tracks, |tracks|) == MapTracks(f, tracks, |tracks|).0
  {
  }

  lemma PartlyTracksStep(f: ItemFn, tracks: seq<Track>, n: nat)
    requires n < |tracks|
    ensures |PartlyTracks(f, tracks, n)| == |tracks| && PartlyTracks(f, tracks, n)[n] == tracks[n]
    ensures PartlyTracks(f, tracks, n + 1) == PartlyTracks(f, tracks, n)[n := MapTrack(f, tracks[n]).0]
    ensures MapTracks(f, tracks, n + 1).1 == MapTracks(f, tracks, n).1 + MapTrack(f, tracks[n]).1
  {
    hide MapTrack;
  }

  lemma PassKeepsShapes(p: Pass, v: seq<Track>)
    ensures SameShapes(v, MapTracks(PassFn(p), v, |v|).0)
  {
    hide PassFn, MapItems;
    forall t | 0 <= t < |v|
      ensures SameTrackShape(v[t], MapTrack(PassFn(p), v[t]).0)
    {
      forall i | 0 <= i < |v[t].items|
        ensures Static(PassFn(p)(v[t].kind, v[t].enabled, v[t].items[i]).0) == Static(v[t].items[i])
      {
        PassKeepsTrack(p, v[t].kind, v[t].enabled, v[t].items[i]);
      }
    }
  }

  lemma PlayPasses(from: int, v: seq<Track>)
    ensures var a := MapTracks(PassFn(ResetPass), v, |v|); var b := MapTracks(PassFn(ScenesPass(from)), a.0, |v|);
      b.0 == MapTracks(ResetFn(from), v, |v|).0 && a.1 == [] && b.1 == []
  {
    hide MapTracks;
    MapTracksTwice(PassFn(ResetPass), PassFn(ScenesPass(from)), ResetFn(from), v, |v|);
    SilentTracks(PassFn(ResetPass), v, |v|);
    SilentTracks(PassFn(ScenesPass(from)), MapTracks(PassFn(ResetPass), v, |v|).0, |v|);
  }

  lemma SeekPasses(to: int, v: seq<Track>)
    ensures var a := MapTracks(PassFn(HushPass), v, |v|); var b := MapTracks(PassFn(ScenesPass(to)), a.0, |v|);
      b.0 == MapTracks(SeekFn(to), v, |v|).0 && a.1 == MapTracks(SeekFn(to), v, |v|).1 && b.1 == []
  {
    hide MapTracks;
    MapTracksTwice(PassFn(HushPass), PassFn(ScenesPass(to)), SeekFn(to), v, |v|);
    SilentTracks(PassFn(ScenesPass(to)), MapTracks(PassFn(HushPass), v, |v|).0, |v|);
  }

  /** A pass that calls nothing for any item calls nothing. */
  lemma {:induction false} SilentTrack(f: ItemFn, t: Track, n: nat)
    requires n <= |t.items| && forall kind, enabled, it :: f(kind, enabled, it).1 == []
    ensures MapItems(f, t, n).1 == []
  {
    if n != 0 {
      SilentTrack(f, t, n - 1);
    }
  }

  lemma {:induction false} SilentTracks(f: ItemFn, v: seq<Track>, n: nat)
    requires n <= |v| && forall kind, enabled, it :: f(kind, enabled, it).1 == []
    ensures MapTracks(f, v, n).1 == []
  {
    if n != 0 {
      SilentTracks(f, v, n - 1);
      SilentTrack(f, v[n - 1], |v[n - 1].items|);
    }
  }

  // ---- inserting ----

  lemma ValuesOfInsert(items: seq<ItemPtr>, p: nat, o: ItemPtr)
    requires p <= |items|
    ensures Values(items[..p] + [o] + items[p..]) == InsertAt(Values(items), p, o.item)
  {
  }

  lemma ValuesOfUpdate(tracks: seq<TrackRef>, k: nat, t: TrackRef)
    requires k < |tracks|
    ensures TrackValues(tracks[k := t]) == TrackValues(tracks)[k := TrackValue(t)]
  {
    hide TrackValue;
  }

  function WithItem(tracks: seq<TrackRef>, k: nat, p: nat, o: ItemPtr): seq<TrackRef>
    requires k < |tracks| && p <= |tracks[k].items|
  {
    tracks[k := tracks[k].(items := tracks[k].items[..p] + [o] + tracks[k].items[p..])]
  }

  lemma ValuesWithItem(tracks: seq<TrackRef>, k: nat, p: nat, o: ItemPtr)
    requires k < |tracks| && p <= |tracks[k].items|
    ensures var v := TrackValues(tracks);
      TrackValues(WithItem(tracks, k, p, o)) == v[k := v[k].(items := InsertAt(v[k].items, p, o.item))]
  {
    ValuesOfInsert(tracks[k].items, p, o);
    ValuesOfUpdate(tracks, k, tracks[k].(items := tracks[k].items[..p] + [o] + tracks[k].items[p..]));
  }

  lemma NotThere(tracks: seq<TrackRef>, o: ItemPtr)
    requires o !in Objects(tracks)
    ensures forall t, i :: InTracks(tracks, t, i) ==> tracks[t].items[i] != o
  {
  }

  lemma WithItemHomed(tracks: seq<TrackRef>, k: nat, p: nat, o: ItemPtr, v: seq<Track>, it: Item)
    requires HomedBy(tracks, v) && k < |tracks| && p <= |tracks[k].items| == |v[k].items|
    requires o !in Objects(tracks) && it.track == k
    ensures HomedBy(WithItem(tracks, k, p, o), v[k := v[k].(items := InsertAt(v[k].items, p, it))])
  {
    NotThere(tracks, o);
    var items := WithItem(tracks, k, p, o)[k].items;
    forall i, j | 0 <= i < j < |items|
      ensures items[i] != items[j]
    {
    }
  }

  /** Where an item is after another was put at place `p` of track `k`. */
  function Shifted(t: int, i: int, k: int, p: int): int {
    if t == k && p <= i then i + 1 else i
  }

  lemma WithItemAt(tracks: seq<TrackRef>, k: nat, p: nat, o: ItemPtr, v: seq<Track>, it: Item, t: int, j: int)
    requires |v| == |tracks| && k < |tracks| && p <= |tracks[k].items| == |v[k].items|
    requires 0 <= t < |tracks| && |v[t].items| == |tracks[t].items| && InTracks(WithItem(tracks, k, p, o), t, j)
    ensures var v' := v[k := v[k].(items := InsertAt(v[k].items, p, it))];
      && |v'[t].items| == |WithItem(tracks, k, p, o)[t].items|
      && if t == k && j == p then v'[t].items[j] == it && WithItem(tracks, k, p, o)[t].items[j] == o
         else
           var i := if t == k && p < j then j - 1 else j;
           InTracks(tracks, t, i) && v'[t].items[j] == v[t].items[i] && WithItem(tracks, k, p, o)[t].items[j] == tracks[t].items[i]
  {
  }

  lemma WithItemHasId(v: seq<Track>, k: nat, p: nat, it: Item, id: string)
    requires k < |v| && p <= |v[k].items|
    ensures HasId(v[k := v[k].(items := InsertAt(v[k].items, p, it))], id) <== HasId(v, id) || id == it.id
  {
    var v' := v[k := v[k].(items := InsertAt(v[k].items, p, it))];
    if HasId(v, id) {
      var t, i :| 0 <= t < |v| && 0 <= i < |v[t].items| && v[t].items[i].id == id;
      assert v'[t].items[Shifted(t, i, k, p)].id == id;
    }
    assert v'[k].items[p] == it;
  }

  /** Indexing an item under a new id keeps the index in agreement. */
  lemma WithItemIndexed(tracks: seq<TrackRef>, index: map<string, ItemPtr>, k: nat, p: nat, o: ItemPtr,
                        v: seq<Track>, it: Item)
    requires IndexAgrees(tracks, index, v) && k < |tracks| && p <= |tracks[k].items| && it.id !in index
    ensures IndexAgrees(WithItem(tracks, k, p, o), index[it.id := o], v[k := v[k].(items := InsertAt(v[k].items, p, it))])
  {
    hide HasId;
    var tracks', index' := WithItem(tracks, k, p, o), index[it.id := o];
    var v' := v[k := v[k].(items := InsertAt(v[k].items, p, it))];
    forall t, j | InTracks(tracks', t, j)
      ensures |v'[t].items| == |tracks'[t].items|
      ensures v'[t].items[j].id in index' && index'[v'[t].items[j].id] == tracks'[t].items[j]
    {
      hide InsertAt, WithItem;
      WithItemAt(tracks, k, p, o, v, it, t, j);
      if t != k || j != p {
        IndexAt(tracks, index, v, t, if t == k && p < j then j - 1 else j);
      }
    }
    forall id | id in index'
      ensures HasId(v', id)
    {
      WithItemHasId(v, k, p, it, id);
    }
  }

  /** Indexing an item under a used id takes the id from the item that had it. */
  lemma WithItemClash(tracks: seq<TrackRef>, index: map<string, ItemPtr>, k: nat, p: nat, o: ItemPtr,
                      v: seq<Track>, it: Item)
    requires IndexAgrees(tracks, index, v) && k < |tracks| && p <= |tracks[k].items| && it.id in index
    requires o !in Objects(tracks)
    ensures !IndexAgrees(WithItem(tracks, k, p, o), index[it.id := o], v[k := v[k].(items := InsertAt(v[k].items, p, it))])
  {
    NotThere(tracks, o);
    hide Objects;
    var tracks', index' := WithItem(tracks, k, p, o), index[it.id := o];
    var v' := v[k := v[k].(items := InsertAt(v[k].items, p, it))];
    assert HasId(v, it.id);
    var t, i :| 0 <= t < |v| && 0 <= i < |v[t].items| && v[t].items[i].id == it.id;
    var j := Shifted(t, i, k, p);
    assert InTracks(tracks, t, i);
    assert InTracks(tracks', t, j) && tracks'[t].items[j] == tracks[t].items[i] && v'[t].items[j] == v[t].items[i];
    assert index'[v'[t].items[j].id] != tracks'[t].items[j];
  }

  // ---- removing ----

  lemma ValuesOfRemove(items: seq<ItemPtr>, p: nat)
    requires p < |items|
    ensures Values(items[..p] + items[p + 1..]) == RemoveAt(Values(items), p)
  {
  }

  function WithoutItem(tracks: seq<TrackRef>, k: nat, p: nat): seq<TrackRef>
    requires k < |tracks| && p < |tracks[k].items|
  {
    tracks[k := tracks[k].(items := tracks[k].items[..p] + tracks[k].items[p + 1..])]
  }

  lemma ValuesWithoutItem(tracks: seq<TrackRef>, k: nat, p: nat)
    requires k < |tracks| && p < |tracks[k].items|
    ensures var v := TrackValues(tracks);
      TrackValues(WithoutItem(tracks, k, p)) == v[k := v[k].(items := RemoveAt(v[k].items, p))]
  {
    ValuesOfRemove(tracks[k].items, p);
    ValuesOfUpdate(tracks, k, tracks[k].(items := tracks[k].items[..p] + tracks[k].items[p + 1..]));
  }

  lemma WithoutItemHomed(tracks: seq<TrackRef>, k: nat, p: nat, v: seq<Track>)
    requires HomedBy(tracks, v) && k < |tracks| && p < |tracks[k].items| == |v[k].items|
    ensures HomedBy(WithoutItem(tracks, k, p), v[k := v[k].(items := RemoveAt(v[k].items, p))])
  {
    assert Distinct(tracks[k].items) && AllOn(v[k].items, k);
    var items := WithoutItem(tracks, k, p)[k].items;
    forall i, j | 0 <= i < j < |items|
      ensures items[i] != items[j]
    {
      var i', j' := if i < p then i else i + 1, if j < p then j else j + 1;
      assert items[i] == tracks[k].items[i'] && items[j] == tracks[k].items[j'];
    }
  }

  /** The place in the old track of what is now at place `j`. */
  function Former(t: int, j: int, k: int, p: int): int {
    if t == k && p <= j then j + 1 else j
  }

  lemma WithoutItemAt(tracks: seq<TrackRef>, v: seq<Track>, k: nat, p: nat, t: int, j: int)
    requires v == TrackValues(tracks) && k < |tracks| && p < |tracks[k].items|
    requires InTracks(WithoutItem(tracks, k, p), t, j)
    ensures var i := Former(t, j, k, p);
      && InTracks(tracks, t, i) && (t != k || i != p)
      && WithoutItem(tracks, k, p)[t].items[j] == tracks[t].items[i]
      && v[k := v[k].(items := RemoveAt(v[k].items, p))][t].items[j] == v[t].items[i]
  {
  }

  lemma StillIndexed(tracks: seq<TrackRef>, index: map<string, ItemPtr>, k: nat, p: nat, v: seq<Track>, t: int, j: int)
    requires v == TrackValues(tracks) && IndexAgrees(tracks, index, v) && HomedBy(tracks, v)
    requires k < |tracks| && p < |tracks[k].items| && InTracks(WithoutItem(tracks, k, p), t, j)
    ensures var v' := v[k := v[k].(items := RemoveAt(v[k].items, p))];
      && |v'[t].items| == |WithoutItem(tracks, k, p)[t].items|
      && v'[t].items[j].id in index && v'[t].items[j].id != v[k].items[p].id
      && index[v'[t].items[j].id] == WithoutItem(tracks, k, p)[t].items[j]
  {
    hide HomedBy, Former;
    WithoutItemAt(tracks, v, k, p, t, j);
    OnePlace(tracks, index, v, t, Former(t, j, k, p), k, p);
  }

  lemma StillHasId(v: seq<Track>, k: nat, p: nat, id: string)
    requires k < |v| && p < |v[k].items| && HasId(v, id) && id != v[k].items[p].id
    ensures HasId(v[k := v[k].(items := RemoveAt(v[k].items, p))], id)
  {
    var v' := v[k := v[k].(items := RemoveAt(v[k].items, p))];
    var t, i :| 0 <= t < |v| && 0 <= i < |v[t].items| && v[t].items[i].id == id;
    var j := if t == k && p < i then i - 1 else i;
    assert v'[t].items[j] == v[t].items[i];
  }

  /** Taking an item out of its track and its id out of the index keeps them in agreement. */
  lemma WithoutItemIndexed(tracks: seq<TrackRef>, index: map<string, ItemPtr>, k: nat, p: nat, v: seq<Track>)
    requires v == TrackValues(tracks) && IndexAgrees(tracks, index, v) && HomedBy(tracks, v)
    requires k < |tracks| && p < |tracks[k].items|
    ensures IndexAgrees(WithoutItem(tracks, k, p), index - {v[k].items[p].id},
                        v[k := v[k].(items := RemoveAt(v[k].items, p))])
  {
    hide HomedBy, HasId;
    var tracks' := WithoutItem(tracks, k, p);
    forall t, j | InTracks(tracks', t, j)
      ensures var v' := v[k := v[k].(items := RemoveAt(v[k].items, p))];
        && |v'[t].items| == |tracks'[t].items|
        && v'[t].items[j].id in index && v'[t].items[j].id != v[k].items[p].id
        && index[v'[t].items[j].id] == tracks'[t].items[j]
    {
      StillIndexed(tracks, index, k, p, v, t, j);
    }
    forall id | id in index && id != v[k].items[p].id
      ensures HasId(v[k := v[k].(items := RemoveAt(v[k].items, p))], id)
    {
      StillHasId(v, k, p, id);
    }
  }

  lemma WithoutItemGone(tracks: seq<TrackRef>, index: map<string, ItemPtr>, k: nat, p: nat, v: seq<Track>)
    requires v == TrackValues(tracks) && IndexAgrees(tracks, index, v) && HomedBy(tracks, v)
    requires k < |tracks| && p < |tracks[k].items|
    ensures tracks[k].items[p] in Objects(tracks) && tracks[k].items[p] !in Objects(WithoutItem(tracks, k, p))
  {
    hide IndexAgrees, HomedBy, WithoutItem, RemoveAt, Former;
    forall t, j | InTracks(WithoutItem(tracks, k, p), t, j)
      ensures WithoutItem(tracks, k, p)[t].items[j] != tracks[k].items[p]
    {
      WithoutItemAt(tracks, v, k, p, t, j);
      OnePlace(tracks, index, v, t, Former(t, j, k, p), k, p);
    }
  }

  /** Places with the same object or the same id are the same place. */
  lemma OnePlace(tracks: seq<TrackRef>, index: map<string, ItemPtr>, v: seq<Track>, t: int, i: int, k: int, p: int)
    requires v == TrackValues(tracks) && IndexAgrees(tracks, index, v) && HomedBy(tracks, v)
    requires InTracks(tracks, t, i) && InTracks(tracks, k, p)
    requires t != k || i != p
    ensures tracks[t].items[i] != tracks[k].items[p]
    ensures v[t].items[i].id != v[k].items[p].id
  {
    assert Distinct(tracks[k].items) && AllOn(v[k].items, k) && AllOn(v[t].items, t);
    assert v[t].items[i] == tracks[t].items[i].item && v[k].items[p] == tracks[k].items[p].item;
  }

  lemma OneIndex(tracks: seq<TrackRef>, v: seq<Track>, k: nat, p: nat, i: nat)
    requires HomedBy(tracks, v) && k < |tracks| && p < |tracks[k].items| && i < |tracks[k].items|
    requires tracks[k].items[p] == tracks[k].items[i]
    ensures p == i
  {
    assert Distinct(tracks[k].items);
  }

  /** Where the index's item of this id sits. */
  lemma Located(tracks: seq<TrackRef>, index: map<string, ItemPtr>, v: seq<Track>, id: string) returns (t: nat, i: nat)
    requires v == TrackValues(tracks) && IndexAgrees(tracks, index, v) && HomedBy(tracks, v) && id in index
    ensures InTracks(tracks, t, i) && tracks[t].items[i] == index[id] && v[t].items[i].id == id
    ensures v[t].items[i] == index[id].item && index[id].item.track == t && index[id] in Objects(tracks)
  {
    assert HasId(v, id);
    t, i :| 0 <= t < |v| && 0 <= i < |v[t].items| && v[t].items[i].id == id;
    assert InTracks(tracks, t, i);
    assert AllOn(v[t].items, t);
  }

  // ---- changing in place ----

  lemma ChangeKeepsHome(tracks: seq<TrackRef>, v: seq<Track>, t: int, i: int, it: Item)
    requires HomedBy(tracks, v) && 0 <= t < |v| && 0 <= i < |v[t].items| && it.track == t
    ensures HomedBy(tracks, WithChange(v, t, i, it))
  {
  }

  lemma ChangeKeepsIndex(tracks: seq<TrackRef>, index: map<string, ItemPtr>, v: seq<Track>, t: int, i: int, it: Item)
    requires IndexAgrees(tracks, index, v) && 0 <= t < |v| && 0 <= i < |v[t].items| && it.id == v[t].items[i].id
    ensures IndexAgrees(tracks, index, WithChange(v, t, i, it))
  {
    hide Refreshed;
    var v' := WithChange(v, t, i, it);
    forall k, j | InTracks(tracks, k, j)
      ensures v'[k].items[j].id in index && index[v'[k].items[j].id] == tracks[k].items[j]
    {
      IndexAt(tracks, index, v, k, j);
    }
    forall id | id in index
      ensures HasId(v', id)
    {
      assert HasId(v, id);
      var t', i' :| 0 <= t' < |v| && 0 <= i' < |v[t'].items| && v[t'].items[i'].id == id;
      assert v'[t'].items[i'].id == id;
    }
  }

  /** Changing the id or the track of an item breaks the agreement: it is on a track it does not name, or the index
      has its old id for nothing. */
  lemma ChangeBreaks(tracks: seq<TrackRef>, index: map<string, ItemPtr>, v: seq<Track>, t: int, i: int, it: Item)
    requires v == TrackValues(tracks) && HomedBy(tracks, v) && IndexAgrees(tracks, index, v) && InTracks(tracks, t, i)
    requires it.id != v[t].items[i].id || it.track != t
    ensures !(HomedBy(tracks, WithChange(v, t, i, it)) && IndexAgrees(tracks, index, WithChange(v, t, i, it)))
  {
    var v' := WithChange(v, t, i, it);
    var id := v[t].items[i].id;
    if it.track != t {
      assert v'[t].items[i] == it;
    } else if HasId(v', id) {
      hide HomedBy, IndexAgrees;
      var t', i' :| 0 <= t' < |v'| && 0 <= i' < |v'[t'].items| && v'[t'].items[i'].id == id;
      assert v[t'].items[i'].id == id;
      OnePlace(tracks, index, v, t, i, t', i');
      assert false;
    } else {
      assert id in index;
    }
  }

  // ---- empty tracks ----

  lemma NothingHeld(tracks: seq<TrackRef>)
    requires forall t :: 0 <= t < |tracks| ==> tracks[t].items == []
    ensures var v := TrackValues(tracks);
      HomedBy(tracks, v) && IndexAgrees(tracks, map[], v) && Derived(v) && Sorted(v) && TotalOf(v) == 0
  {
    var v := TrackValues(tracks);
    NothingEnds(v, |v|);
    forall t | 0 <= t < |tracks|
      ensures Distinct(tracks[t].items) && v[t].items == []
      ensures AllOn(v[t].items, t) && Ascending(v[t].items) && AllRefreshed(v[t].items)
    {
    }
    assert HomedBy(tracks, v);
    assert forall t, i :: !InTracks(tracks, t, i);
  }

  // ---- what agreement gives to runs ----

  /** When tracks, index and total agree, the facts that whole runs rest on hold. */
  lemma AgreementForRuns(tracks: seq<TrackRef>, index: map<string, ItemPtr>, s: Schedule)
    requires s.tracks == TrackValues(tracks) && HomedBy(tracks, s.tracks) && IndexAgrees(tracks, index, s.tracks)
    requires s.total == TotalOf(s.tracks)
    ensures UniqueIds(s) && TotalCovers(s)
  {
    hide HomedBy, TotalOf;
    TotalIsLatestEnd(s);
    forall t, i, t', i' | InRange(s, t, i) && InRange(s, t', i') && (t != t' || i != i')
      ensures ItemAt(s, t, i).id != ItemAt(s, t', i').id
    {
      OnePlace(tracks, index, s.tracks, t, i, t', i');
    }
  }
}
