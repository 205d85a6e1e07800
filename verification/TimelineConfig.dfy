/** Reconfiguring the tracks: which tracks there are afterwards, and how items find their way back. */
module TimelineConfig {
  import opened Timeline
  import opened TimelineRuns
  import opened TimelineEditing
  import opened TimelineTracks

  datatype TrackConfig = TrackConfig(index: int, kind: TrackType, name: string, enabled: bool)

  function Digits(n: nat): string {
    (if n < 10 then "" else Digits(n / 10)) + ["0123456789"[n % 10]]
  }

  // ---- which tracks ----

  ghost predicate AnyNegative(cfgs: seq<TrackConfig>) {
    exists c :: 0 <= c < |cfgs| && cfgs[c].index < 0
  }

  /** The number of tracks that the first `n` configurations ask for. */
  function TrackCount(cfgs: seq<TrackConfig>, n: nat): nat
    requires n <= |cfgs|
  {
    if n == 0 then 0
    else
      var m := TrackCount(cfgs, n - 1);
      if m < cfgs[n - 1].index + 1 then cfgs[n - 1].index + 1 else m
  }

  lemma {:induction false} TrackCountCovers(cfgs: seq<TrackConfig>, n: nat)
    requires n <= |cfgs|
    ensures forall c :: 0 <= c < n ==> cfgs[c].index < TrackCount(cfgs, n)
  {
    if n != 0 {
      TrackCountCovers(cfgs, n - 1);
    }
  }

  /** Track `t`, still empty, after the first `n` configurations: the last one for it counts, and a track without
      one is a disabled placeholder. */
  function Configured(cfgs: seq<TrackConfig>, n: nat, t: nat): (r: TrackRef)
    requires n <= |cfgs|
    ensures r.items == []
  {
    if n == 0 then TrackRef(Audio, "轨 " + Digits(t), false, [])
    else if cfgs[n - 1].index == t then TrackRef(cfgs[n - 1].kind, cfgs[n - 1].name, cfgs[n - 1].enabled, [])
    else Configured(cfgs, n - 1, t)
  }

  // ---- which items ----

  /** The objects of a track. */
  ghost function Held(items: seq<ItemPtr>): set<ItemPtr> {
    set o | o in items
  }

  ghost function HeldAt(tracks: seq<TrackRef>, t: nat): set<ItemPtr> {
    if t < |tracks| then Held(tracks[t].items) else {}
  }

  ghost predicate Climbing(items: seq<ItemPtr>)
    reads items
  {
    forall i, j :: 0 <= i < j < |items| ==> items[i].item.start <= items[j].item.start
  }

  lemma DropFirst(items: seq<ItemPtr>)
    requires items != [] && Distinct(items)
    ensures Distinct(items[1..]) && Held(items[1..]) == Held(items) - {items[0]}
  {
    assert items == [items[0]] + items[1..];
    forall i, j | 0 <= i < j < |items[1..]|
      ensures items[1..][i] != items[1..][j]
    {
      assert items[1..][i] == items[i + 1] && items[1..][j] == items[j + 1];
    }
    forall o | o in items[1..]
      ensures o != items[0]
    {
      var i :| 0 <= i < |items[1..]| && items[1..][i] == o;
      assert items[i + 1] == o;
    }
  }

  lemma DropOrder(a: seq<ItemPtr>, b: seq<ItemPtr>)
    requires a != [] && b != []
    ensures Ascending(Values(a)) ==> Ascending(Values(a[1..]))
    ensures Climbing(b) ==> Climbing(b[1..])
  {
    assert Values(a[1..]) == Values(a)[1..];
    if Climbing(b) {
      forall i, j | 0 <= i < j < |b[1..]|
        ensures b[1..][i].item.start <= b[1..][j].item.start
      {
        assert b[1..][i] == b[i + 1] && b[1..][j] == b[j + 1];
      }
    }
  }

  lemma SomeHeld(items: seq<ItemPtr>)
    requires items != []
    ensures Held(items) != {}
  {
    assert items[0] in Held(items);
  }

  lemma FirstLeast(items: seq<ItemPtr>)
    requires Ascending(Values(items)) && items != []
    ensures forall o :: o in items ==> o == items[0] || items[0].item.start < o.item.start
  {
    forall i | 0 < i < |items|
      ensures items[0].item.start < items[i].item.start
    {
      assert Values(items)[0].start < Values(items)[i].start;
    }
  }

  /** A rising arrangement of the objects of a strictly ascending track is that track. */
  lemma {:induction false} ClimbingUnique(a: seq<ItemPtr>, b: seq<ItemPtr>)
    requires Distinct(a) && Distinct(b) && Held(a) == Held(b) && Ascending(Values(a)) && Climbing(b)
    ensures a == b
  {
    hide Distinct, Ascending;
    if a == [] {
      if b != [] {
        SomeHeld(b);
      }
    } else {
      assert a[0] in Held(a) && a[0] in b;
      var j :| 0 <= j < |b| && b[j] == a[0];
      assert b[0] in Held(b) && b[0] in a;
      FirstLeast(a);
      assert b[0].item.start <= b[j].item.start;
      assert a[0] == b[0];
      DropFirst(a);
      DropFirst(b);
      DropOrder(a, b);
      ClimbingUnique(a[1..], b[1..]);
      assert a == [a[0]] + a[1..] && b == [b[0]] + b[1..];
    }
  }

  /** Objects that start apart rise strictly. */
  lemma ClimbingApart(a: seq<ItemPtr>, b: seq<ItemPtr>)
    requires Distinct(a) && Distinct(b) && Held(b) <= Held(a) && OwnSlots(Values(a)) && Climbing(b)
    ensures Ascending(Values(b))
  {
    forall i, j | 0 <= i < j < |b|
      ensures Values(b)[i].start < Values(b)[j].start
    {
      assert b[i] in Held(b) && b[j] in Held(b) && b[i] != b[j];
      var i', j' :| 0 <= i' < |a| && 0 <= j' < |a| && a[i'] == b[i] && a[j'] == b[j];
      assert Values(a)[i'].start != Values(a)[j'].start;
    }
  }

  /** Sorts objects by start. */
  method SortByStart(items: seq<ItemPtr>) returns (sorted: seq<ItemPtr>)
    requires Distinct(items)
    ensures Distinct(sorted) && Held(sorted) == Held(items) && Climbing(sorted)
  {
    sorted := [];
    var n: nat := 0;
    while n < |items|
      invariant n <= |items|
      invariant Distinct(sorted) && Held(sorted) == Held(items[..n]) && Climbing(sorted)
    {
      var p: nat := |sorted|;
      while 0 < p && items[n].item.start < sorted[p - 1].item.start
        invariant p <= |sorted|
        invariant forall i :: p <= i < |sorted| ==> items[n].item.start < sorted[i].item.start
      {
        p := p - 1;
      }
      SpliceIn(sorted, p, items[n], items[..n]);
      sorted := sorted[..p] + [items[n]] + sorted[p..];
      assert items[..n + 1] == items[..n] + [items[n]];
      n := n + 1;
    }
    assert items[..n] == items;
  }

  lemma SpliceIn(s: seq<ItemPtr>, p: nat, o: ItemPtr, from: seq<ItemPtr>)
    requires p <= |s| && Distinct(s) && Held(s) == Held(from) && o !in from && Climbing(s)
    requires forall i :: p <= i < |s| ==> o.item.start < s[i].item.start
    requires 0 < p ==> s[p - 1].item.start <= o.item.start
    ensures var r := s[..p] + [o] + s[p..]; Distinct(r) && Held(r) == Held(from + [o]) && Climbing(r)
  {
    assert o !in Held(from);
    assert o !in s;
    assert s == s[..p] + s[p..];
    assert Held(s[..p] + [o] + s[p..]) == Held(s) + {o};
    SpliceOrder(s, p, o);
  }

  lemma SpliceOrder(s: seq<ItemPtr>, p: nat, o: ItemPtr)
    requires p <= |s| && Distinct(s) && o !in s && Climbing(s)
    requires forall i :: p <= i < |s| ==> o.item.start < s[i].item.start
    requires 0 < p ==> s[p - 1].item.start <= o.item.start
    ensures var r := s[..p] + [o] + s[p..]; Distinct(r) && Climbing(r)
  {
    var r := s[..p] + [o] + s[p..];
    forall i, j | 0 <= i < j < |r|
      ensures r[i] != r[j] && r[i].item.start <= r[j].item.start
    {
      assert i < p ==> r[i] == s[i];
      assert p < j ==> r[j] == s[j - 1];
      assert p < i ==> r[i] == s[i - 1];
      assert j < p ==> r[j] == s[j];
    }
  }

  // ---- bringing the items back ----

  /** `items` are, each once, those of `all` for track `t` whose ids are in `ids`. */
  ghost predicate Pile(items: seq<ItemPtr>, all: set<ItemPtr>, t: int, ids: set<string>)
    reads all
  {
    && Distinct(items)
    && (forall o :: o in items ==> o in all && o.item.track == t && o.item.id in ids)
    && (forall o :: o in all && o.item.track == t && o.item.id in ids ==> o in items)
  }

  /** Objects and ids go together. */
  ghost predicate Named(all: set<ItemPtr>, index: map<string, ItemPtr>)
    reads all
  {
    && (forall o :: o in all ==> o.item.id in index && index[o.item.id] == o)
    && (forall id :: id in index ==> index[id] in all && index[id].item.id == id)
  }

  lemma AgreeingNames(tracks: seq<TrackRef>, index: map<string, ItemPtr>)
    requires HomedBy(tracks, TrackValues(tracks)) && IndexAgrees(tracks, index, TrackValues(tracks))
    ensures Named(Objects(tracks), index)
  {
    hide HomedBy;
    var v := TrackValues(tracks);
    forall o | o in Objects(tracks)
      ensures o.item.id in index && index[o.item.id] == o
    {
      var t, i :| 0 <= t < |tracks| && 0 <= i < |tracks[t].items| && tracks[t].items[i] == o;
      assert InTracks(tracks, t, i) && v[t].items[i] == o.item;
    }
    forall id | id in index
      ensures index[id] in Objects(tracks) && index[id].item.id == id
    {
      var t, i := Located(tracks, index, v, id);
    }
  }

  ghost predicate Piles(piled: seq<TrackRef>, all: set<ItemPtr>, ids: set<string>)
    reads all
  {
    forall t :: 0 <= t < |piled| ==> Pile(piled[t].items, all, t, ids)
  }

  lemma NoPiles(blank: seq<TrackRef>, all: set<ItemPtr>)
    requires forall t :: 0 <= t < |blank| ==> blank[t].items == []
    ensures Piles(blank, all, {})
  {
  }

  function WithObject(piled: seq<TrackRef>, k: int, o: ItemPtr): seq<TrackRef>
    requires 0 <= k < |piled|
  {
    piled[k := piled[k].(items := piled[k].items + [o])]
  }

  lemma PileAdd(piled: seq<TrackRef>, all: set<ItemPtr>, index: map<string, ItemPtr>, ids: set<string>, id: string)
    requires Piles(piled, all, ids) && Named(all, index) && id in index && id !in ids
    ensures index[id] in all
    ensures Piles(if 0 <= index[id].item.track < |piled| then WithObject(piled, index[id].item.track, index[id]) else piled,
                  all, ids + {id})
  {
    var o := index[id];
    forall t | 0 <= t < |piled|
      ensures Pile(if t == o.item.track then piled[t].items + [o] else piled[t].items, all, t, ids + {id})
    {
      assert Pile(piled[t].items, all, t, ids);
    }
  }

  lemma PilesAreTracks(piled: seq<TrackRef>, tracks: seq<TrackRef>, index: map<string, ItemPtr>)
    requires Piles(piled, Objects(tracks), index.Keys) && Named(Objects(tracks), index) && Homed(tracks)
    ensures Rehomed(tracks, piled)
  {
    hide Named, Homed, Pile;
    forall t | 0 <= t < |piled|
      ensures Distinct(piled[t].items) && Held(piled[t].items) == HeldAt(tracks, t)
    {
      PileIsTrack(piled[t].items, tracks, index, t);
    }
  }

  lemma PileIsTrack(items: seq<ItemPtr>, tracks: seq<TrackRef>, index: map<string, ItemPtr>, t: nat)
    requires Pile(items, Objects(tracks), t, index.Keys) && Named(Objects(tracks), index) && Homed(tracks)
    ensures Distinct(items) && Held(items) == HeldAt(tracks, t)
  {
    forall o | o in Objects(tracks)
      ensures o.item.track == t <==> t < |tracks| && o in tracks[t].items
    {
      var k, i :| 0 <= k < |tracks| && 0 <= i < |tracks[k].items| && tracks[k].items[i] == o;
      assert AllAt(tracks[k].items, k);
      if t < |tracks| {
        assert AllAt(tracks[t].items, t);
      }
    }
    if t < |tracks| {
      forall o | o in tracks[t].items
        ensures o in Objects(tracks)
      {
        var i :| 0 <= i < |tracks[t].items| && tracks[t].items[i] == o;
        assert InTracks(tracks, t, i);
      }
    }
  }

  /** The index without the items whose track is gone. */
  ghost predicate KeptIndex(index: map<string, ItemPtr>, kept: map<string, ItemPtr>, n: nat)
    reads index.Values
  {
    KeptOf(index, kept, index.Keys, n)
  }

  /** The same, when only the ids in `done` have been looked at. */
  ghost predicate KeptOf(index: map<string, ItemPtr>, kept: map<string, ItemPtr>, done: set<string>, n: nat)
    reads index.Values
  {
    && kept.Keys <= index.Keys
    && (forall id :: id in index ==> (id in kept <==> id !in done || 0 <= index[id].item.track < n))
    && (forall id :: id in kept ==> kept[id] == index[id])
  }

  lemma KeptNone(index: map<string, ItemPtr>, n: nat)
    ensures KeptOf(index, index, {}, n)
  {
  }

  lemma KindsKept(piled: seq<TrackRef>, k: int, o: ItemPtr)
    requires 0 <= k < |piled|
    ensures |WithObject(piled, k, o)| == |piled|
    ensures forall t :: 0 <= t < |piled| ==> WithObject(piled, k, o)[t].(items := []) == piled[t].(items := [])
  {
  }

  lemma KeptStep(index: map<string, ItemPtr>, kept: map<string, ItemPtr>, done: set<string>, n: nat, id: string)
    requires KeptOf(index, kept, done, n) && id in index && id !in done
    ensures KeptOf(index, if 0 <= index[id].item.track < n then kept else kept - {id}, done + {id}, n)
  {
  }

  ghost predicate Rehomed(tracks: seq<TrackRef>, next: seq<TrackRef>) {
    forall t :: 0 <= t < |next| ==> Distinct(next[t].items) && Held(next[t].items) == HeldAt(tracks, t)
  }

  lemma RehomedItem(tracks: seq<TrackRef>, next: seq<TrackRef>, t: nat, i: nat)
    requires Homed(tracks) && Derived(TrackValues(tracks)) && Rehomed(tracks, next) && InTracks(next, t, i)
    ensures t < |tracks| && next[t].items[i] in Objects(tracks)
    ensures next[t].items[i].item.track == t && next[t].items[i].item == Refreshed(next[t].items[i].item)
  {
    hide Refreshed;
    var o := next[t].items[i];
    assert o in Held(next[t].items);
    assert o in HeldAt(tracks, t);
    var j :| 0 <= j < |tracks[t].items| && tracks[t].items[j] == o;
    assert AllAt(tracks[t].items, t) && InTracks(tracks, t, j);
    assert AllRefreshed(TrackValues(tracks)[t].items) && TrackValues(tracks)[t].items[j] == o.item;
  }

  lemma RehomedId(tracks: seq<TrackRef>, index: map<string, ItemPtr>, next: seq<TrackRef>, kept: map<string, ItemPtr>, id: string)
    requires Homed(tracks) && Named(Objects(tracks), index) && Rehomed(tracks, next)
    requires KeptIndex(index, kept, |next|) && id in kept
    ensures HasId(TrackValues(next), id)
  {
    var o := index[id];
    assert o in Objects(tracks);
    var k, j :| 0 <= k < |tracks| && 0 <= j < |tracks[k].items| && tracks[k].items[j] == o;
    assert AllAt(tracks[k].items, k);
    assert o in HeldAt(tracks, k);
    assert o in Held(next[k].items);
    var i :| 0 <= i < |next[k].items| && next[k].items[i] == o;
    assert TrackValues(next)[k].items[i].id == id;
  }

  lemma RehomedAgrees(tracks: seq<TrackRef>, index: map<string, ItemPtr>, next: seq<TrackRef>, kept: map<string, ItemPtr>)
    requires Homed(tracks) && Named(Objects(tracks), index) && Derived(TrackValues(tracks)) && Rehomed(tracks, next)
    requires KeptIndex(index, kept, |next|)
    ensures HomedBy(next, TrackValues(next)) && IndexAgrees(next, kept, TrackValues(next)) && Derived(TrackValues(next))
  {
    hide Homed, Refreshed, Derived, HasId, HeldAt, Held;
    var v := TrackValues(next);
    forall t, i | InTracks(next, t, i)
      ensures v[t].items[i] == next[t].items[i].item && v[t].items[i].track == t && v[t].items[i] == Refreshed(v[t].items[i])
      ensures v[t].items[i].id in kept && kept[v[t].items[i].id] == next[t].items[i]
    {
      RehomedItem(tracks, next, t, i);
    }
    forall id | id in kept
      ensures HasId(v, id)
    {
      RehomedId(tracks, index, next, kept, id);
    }
    assert forall t :: 0 <= t < |v| ==> AllOn(v[t].items, t) && AllRefreshed(v[t].items);
    DerivedByTrack(v);
  }

  lemma DerivedByTrack(v: seq<Track>)
    requires forall t :: 0 <= t < |v| ==> AllRefreshed(v[t].items)
    ensures Derived(v)
  {
  }

  /** What reconfiguring leaves in track `t`: what was there, rising by start. */
  lemma RehomedOrder(tracks: seq<TrackRef>, next: seq<TrackRef>, t: nat)
    requires Homed(tracks) && Rehomed(tracks, next) && t < |next| && Climbing(next[t].items)
    ensures t < |tracks| && OwnSlots(Values(tracks[t].items)) ==> Ascending(Values(next[t].items))
    ensures t < |tracks| && Ascending(Values(tracks[t].items)) ==> next[t].items == tracks[t].items
    ensures |tracks| <= t ==> next[t].items == []
  {
    if t < |tracks| {
      if OwnSlots(Values(tracks[t].items)) {
        ClimbingApart(tracks[t].items, next[t].items);
      }
      if Ascending(Values(tracks[t].items)) {
        ClimbingUnique(tracks[t].items, next[t].items);
      }
    } else if next[t].items != [] {
      SomeHeld(next[t].items);
    }
  }

  /** Track by track, the items that were there. */
  ghost predicate SameItems(tracks: seq<TrackRef>, next: seq<TrackRef>) {
    forall t :: 0 <= t < |next| ==> next[t].items == if t < |tracks| then tracks[t].items else []
  }

  ghost predicate AllClimbing(tracks: seq<TrackRef>)
    reads Objects(tracks)
  {
    forall t :: 0 <= t < |tracks| ==> Climbing(tracks[t].items)
  }

  /** Reconfiguring puts every track in order when no two items of a track start together, and leaves a track that
      is in order as it is. */
  lemma RehomedSorted(tracks: seq<TrackRef>, next: seq<TrackRef>)
    requires Homed(tracks) && Rehomed(tracks, next) && AllClimbing(next)
    ensures SlotsApart(TrackValues(tracks)) ==> Sorted(TrackValues(next))
    ensures Sorted(TrackValues(tracks)) ==> SameItems(tracks, next)
    ensures Rising(TrackValues(next))
  {
    ClimbingValues(next);
    hide Homed, Rehomed, Climbing, OwnSlots, Ascending;
    forall t | 0 <= t < |next|
      ensures SlotsApart(TrackValues(tracks)) ==> Ascending(TrackValues(next)[t].items)
      ensures Sorted(TrackValues(tracks)) ==> next[t].items == if t < |tracks| then tracks[t].items else []
    {
      RehomedOrder(tracks, next, t);
      NothingAscends();
      if t < |tracks| {
        assert TrackValues(tracks)[t].items == Values(tracks[t].items);
      }
      assert TrackValues(next)[t].items == Values(next[t].items);
    }
  }

  lemma ClimbingValues(next: seq<TrackRef>)
    requires AllClimbing(next)
    ensures Rising(TrackValues(next))
  {
    forall t, i, j | 0 <= t < |next| && 0 <= i < j < |next[t].items|
      ensures TrackValues(next)[t].items[i].start <= TrackValues(next)[t].items[j].start
    {
      assert Climbing(next[t].items);
    }
  }

  lemma NothingAscends()
    ensures Ascending(Values([]))
  {
  }
}
