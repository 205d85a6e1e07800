/** The engine's load and update commands, over decoded records. */
module TimelineEngine {
  import opened Results
  import opened Timeline
  import opened TimelineRuns
  import opened TimelineEditing
  import opened TimelineTracks
  import opened TimelineScheduler

  /** An entry of the list to load. */
  datatype Entry = NotAnObject | Record(it: Item)

  /** The list of entries, if there is one. */
  datatype Entries = Missing | NotAList | List(entries: seq<Entry>)

  // ---- validation ----

  ghost predicate IdSeen(entries: seq<Entry>, c: nat, id: string)
    requires c <= |entries|
  {
    exists d :: 0 <= d < c && entries[d].Record? && entries[d].it.id == id
  }

  ghost predicate SlotSeen(entries: seq<Entry>, c: nat, track: int, start: int)
    requires c <= |entries|
  {
    exists d :: 0 <= d < c && entries[d].Record? && entries[d].it.track == track && entries[d].it.start == start
  }

  /** What is wrong with entry `c`, given those before it. */
  ghost function Fault(entries: seq<Entry>, c: nat, trackCount: nat): int
    requires c < |entries|
  {
    if entries[c].NotAnObject? then 1002
    else
      var it := entries[c].it;
      if it.id == "" || IdSeen(entries, c, it.id) then 1002
      else if it.track < 0 || trackCount <= it.track then 3001
      else if SlotSeen(entries, c, it.track, it.start) then 3002
      else 0
  }

  /** The first fault among the first `n` entries. */
  ghost function FirstFault(entries: seq<Entry>, n: nat, trackCount: nat): int
    requires n <= |entries|
  {
    if n == 0 then OK
    else
      var before := FirstFault(entries, n - 1, trackCount);
      if before != OK then before else Fault(entries, n - 1, trackCount)
  }

  lemma {:induction false} FaultlessEach(entries: seq<Entry>, n: nat, trackCount: nat)
    requires n <= |entries| && FirstFault(entries, n, trackCount) == OK
    ensures forall c :: 0 <= c < n ==> Fault(entries, c, trackCount) == OK
  {
    hide Fault;
    if n != 0 {
      FaultlessEach(entries, n - 1, trackCount);
    }
  }

  lemma {:induction false} FaultStays(entries: seq<Entry>, n: nat, m: nat, trackCount: nat)
    requires n <= m <= |entries| && FirstFault(entries, n, trackCount) != OK
    ensures FirstFault(entries, m, trackCount) == FirstFault(entries, n, trackCount)
  {
    hide Fault;
    if n < m {
      FaultStays(entries, n, m - 1, trackCount);
    }
  }

  /** The loading part's verdict. */
  ghost function LoadCode(items: Entries, hasProject: bool, trackCount: nat): int {
    match items
    case Missing => if hasProject then 0 else 1002
    case NotAList => 1002
    case List(entries) => FirstFault(entries, |entries|, trackCount)
  }

  /** Well-formed items for `trackCount` tracks. */
  ghost predicate Loadable(staged: seq<Item>, trackCount: nat) {
    && (forall c :: 0 <= c < |staged| ==> 0 <= staged[c].track < trackCount)
    && (forall c, d :: 0 <= c < d < |staged| ==> staged[c].id != staged[d].id)
    && (forall c, d :: 0 <= c < d < |staged| ==> staged[c].track != staged[d].track || staged[c].start != staged[d].start)
  }

  /** The staged items are the records, in order. */
  ghost predicate StagedFrom(staged: seq<Item>, entries: seq<Entry>, n: nat)
    requires n <= |entries|
  {
    |staged| == n && forall c :: 0 <= c < n ==> entries[c].Record? && entries[c].it == staged[c]
  }

  lemma FaultlessLoadable(staged: seq<Item>, entries: seq<Entry>, trackCount: nat)
    requires StagedFrom(staged, entries, |entries|) && FirstFault(entries, |entries|, trackCount) == OK
    ensures Loadable(staged, trackCount)
  {
    FaultlessEach(entries, |entries|, trackCount);
    forall c, d | 0 <= c < d < |staged|
      ensures staged[c].id != staged[d].id
      ensures staged[c].track != staged[d].track || staged[c].start != staged[d].start
    {
      assert Fault(entries, d, trackCount) == OK;
      assert entries[c].Record? && entries[c].it == staged[c];
    }
    forall c | 0 <= c < |staged|
      ensures 0 <= staged[c].track < trackCount
    {
      assert Fault(entries, c, trackCount) == OK;
    }
  }

  method Validate(entries: seq<Entry>, trackCount: nat) returns (code: int, staged: seq<Item>)
    ensures code == FirstFault(entries, |entries|, trackCount)
    ensures code == OK ==> StagedFrom(staged, entries, |entries|) && Loadable(staged, trackCount)
  {
    staged := [];
    var seenIds: set<string> := {};
    var seenSlots: set<(int, int)> := {};
    var c: nat := 0;
    while c < |entries|
      invariant c <= |entries| && StagedFrom(staged, entries, c)
      invariant FirstFault(entries, c, trackCount) == OK
      invariant forall id :: id in seenIds <==> IdSeen(entries, c, id)
      invariant forall k, start :: (k, start) in seenSlots <==> SlotSeen(entries, c, k, start)
    {
      if entries[c].NotAnObject? {
        FaultStays(entries, c + 1, |entries|, trackCount);
        return BAD_PARAM, [];
      }
      var it := entries[c].it;
      if it.id == "" || it.id in seenIds {
        FaultStays(entries, c + 1, |entries|, trackCount);
        return BAD_PARAM, [];
      }
      if it.track < 0 || trackCount <= it.track {
        FaultStays(entries, c + 1, |entries|, trackCount);
        return TRACK_MISSING, [];
      }
      if (it.track, it.start) in seenSlots {
        FaultStays(entries, c + 1, |entries|, trackCount);
        return ITEM_CONFLICT, [];
      }
      SeenNext(entries, c);
      seenIds := seenIds + {it.id};
      seenSlots := seenSlots + {(it.track, it.start)};
      staged := staged + [it];
      c := c + 1;
    }
    FaultlessLoadable(staged, entries, trackCount);
    return OK, staged;
  }

  lemma SeenNext(entries: seq<Entry>, c: nat)
    requires c < |entries| && entries[c].Record?
    ensures forall id :: IdSeen(entries, c + 1, id) <==> IdSeen(entries, c, id) || id == entries[c].it.id
    ensures forall k, start :: SlotSeen(entries, c + 1, k, start) <==>
              SlotSeen(entries, c, k, start) || (k == entries[c].it.track && start == entries[c].it.start)
  {
    forall id
      ensures IdSeen(entries, c + 1, id) <==> IdSeen(entries, c, id) || id == entries[c].it.id
    {
      if IdSeen(entries, c + 1, id) {
        var d :| 0 <= d < c + 1 && entries[d].Record? && entries[d].it.id == id;
      }
    }
    forall k, start
      ensures SlotSeen(entries, c + 1, k, start) <==>
                SlotSeen(entries, c, k, start) || (k == entries[c].it.track && start == entries[c].it.start)
    {
      if SlotSeen(entries, c + 1, k, start) {
        var d :| 0 <= d < c + 1 && entries[d].Record? && entries[d].it.track == k && entries[d].it.start == start;
      }
    }
  }

  // ---- applying ----

  ghost predicate StagedFor(staged: seq<Item>, n: nat, t: int, it: Item)
    requires n <= |staged|
  {
    exists c :: 0 <= c < n && staged[c].track == t && it == Refreshed(staged[c])
  }

  /** The tracks hold the first `n` staged items, each in its track, and nothing else. */
  ghost predicate HoldsExactly(v: seq<Track>, staged: seq<Item>, n: nat)
    requires n <= |staged|
  {
    forall t, it :: 0 <= t < |v| ==> (it in v[t].items <==> StagedFor(staged, n, t, it))
  }

  ghost predicate IdOf(staged: seq<Item>, n: nat, id: string)
    requires n <= |staged|
  {
    exists c :: 0 <= c < n && staged[c].id == id
  }

  lemma SlotFree(v: seq<Track>, staged: seq<Item>, n: nat)
    requires n < |staged| && Loadable(staged, |v|) && HoldsExactly(v, staged, n)
    ensures InsertCode(v, staged[n]) == OK
    ensures !IdOf(staged, n, staged[n].id)
  {
    var it := staged[n];
    forall i | 0 <= i < |v[it.track].items|
      ensures v[it.track].items[i].start != it.start
    {
      assert StagedFor(staged, n, it.track, v[it.track].items[i]);
    }
  }

  lemma StagedNext(staged: seq<Item>, n: nat, t: int, it: Item)
    requires n < |staged|
    ensures StagedFor(staged, n + 1, t, it) <==>
              StagedFor(staged, n, t, it) || (staged[n].track == t && it == Refreshed(staged[n]))
  {
  }

  lemma HoldsNext(a: seq<Track>, b: seq<Track>, staged: seq<Item>, n: nat, p: nat)
    requires n < |staged| && HoldsExactly(a, staged, n) && PlacedAt(a, b, staged[n], p)
    ensures HoldsExactly(b, staged, n + 1) && |b| == |a|
  {
    hide Refreshed;
    forall t, it | 0 <= t < |b|
      ensures it in b[t].items <==> StagedFor(staged, n + 1, t, it)
    {
      StagedNext(staged, n, t, it);
      if t == staged[n].track {
        InsertHolds(a[t].items, p, Refreshed(staged[n]), it);
      }
    }
  }

  lemma InsertHolds(items: seq<Item>, p: nat, new_: Item, it: Item)
    requires p <= |items|
    ensures it in InsertAt(items, p, new_) <==> it in items || it == new_
  {
    assert items == items[..p] + items[p..];
  }

  /** Loads a list of items: all of them, or none. */
  method Load(s: Scheduler, items: Entries, hasProject: bool) returns (code: int, count: nat)
    requires s.Valid()
    modifies s, Objects(s.tracks)
    ensures s.Valid()
    ensures code == LoadCode(items, hasProject, |old(s.tracks)|)
    ensures code != OK ==>
      s.View() == old(s.View()) && s.tracks == old(s.tracks) && s.index == old(s.index) && s.log == old(s.log)
    ensures code == OK ==> exists staged ::
      && (if items.List? then StagedFrom(staged, items.entries, |items.entries|) else staged == [])
      && count == |staged| && Loaded(s, staged)
    ensures code == OK ==> s.log == old(s.log) + Timeline.Stop(old(s.View())).1
    ensures code == OK ==> |s.tracks| == |old(s.tracks)|
  {
    if items.Missing? && !hasProject {
      return BAD_PARAM, 0;
    }
    var staged: seq<Item> := [];
    if !items.Missing? {
      if items.NotAList? {
        return BAD_PARAM, 0;
      }
      var fault;
      fault, staged := Validate(items.entries, |s.tracks|);
      if fault != OK {
        return fault, 0;
      }
    }
    ApplyStaged(s, staged);
    return OK, |staged|;
  }

  /** The scheduler is stopped at the start and holds exactly these items. */
  ghost predicate Loaded(s: Scheduler, staged: seq<Item>)
    reads s, Objects(s.tracks)
  {
    && Holding(s, staged, |staged|)
    && s.state == Stopped && s.pos == 0
  }

  method ApplyStaged(s: Scheduler, staged: seq<Item>)
    requires s.Valid() && Loadable(staged, |s.tracks|)
    modifies s, Objects(s.tracks)
    ensures s.Valid() && Loaded(s, staged) && |s.tracks| == |old(s.tracks)|
    ensures s.log == old(s.log) + Timeline.Stop(old(s.View())).1
  {
    hide Loadable, Sorted, HoldsExactly, IdOf, Timeline.Stop, TrackValues, Objects, HomedBy, IndexAgrees, Derived, TotalOf;
    s.Stop();
    ghost var log := s.log;
    s.ClearItems();
    NothingStaged(s.tracks, staged);
    NoIds(staged);
    var n: nat := 0;
    while n < |staged|
      invariant n <= |staged| && s.Valid()
      invariant |s.tracks| == |old(s.tracks)|
      invariant Holding(s, staged, n)
      invariant s.state == Stopped && s.pos == 0 && s.log == log
    {
      InsertNext(s, staged, n);
      n := n + 1;
    }
  }

  /** The first `n` staged items are in. */
  ghost predicate Holding(s: Scheduler, staged: seq<Item>, n: nat)
    requires n <= |staged|
    reads s, Objects(s.tracks)
  {
    && Sorted(TrackValues(s.tracks)) && HoldsExactly(TrackValues(s.tracks), staged, n)
    && (forall id :: id in s.index <==> IdOf(staged, n, id))
  }

  method InsertNext(s: Scheduler, staged: seq<Item>, n: nat)
    requires n < |staged| && s.Valid() && Loadable(staged, |s.tracks|) && Holding(s, staged, n)
    modifies s`tracks, s`index, s`total
    ensures s.Valid() && Holding(s, staged, n + 1) && |s.tracks| == |old(s.tracks)|
  {
    hide Loadable, Sorted, SlotsApart, HoldsExactly, IdOf, InsertCode, PlacedAt, TrackValues, Objects;
    ghost var before := TrackValues(s.tracks);
    SlotFree(before, staged, n);
    var code := s.InsertItem(staged[n]);
    ghost var p :| PlacedAt(before, TrackValues(s.tracks), staged[n], p);
    HoldsNext(before, TrackValues(s.tracks), staged, n, p);
    IdsNext(staged, n);
  }

  lemma NothingStaged(tracks: seq<TrackRef>, staged: seq<Item>)
    requires forall t :: 0 <= t < |tracks| ==> tracks[t].items == []
    ensures HoldsExactly(TrackValues(tracks), staged, 0)
  {
    var v := TrackValues(tracks);
    forall t | 0 <= t < |v|
      ensures v[t].items == []
    {
      assert v[t] == TrackValue(tracks[t]);
    }
    EmptyHoldsNothing(v, staged);
  }

  lemma EmptyHoldsNothing(v: seq<Track>, staged: seq<Item>)
    requires forall t :: 0 <= t < |v| ==> v[t].items == []
    ensures HoldsExactly(v, staged, 0)
  {
    forall t, it | 0 <= t < |v|
      ensures it in v[t].items <==> StagedFor(staged, 0, t, it)
    {
      assert it !in v[t].items;
      assert !StagedFor(staged, 0, t, it);
    }
  }

  lemma NoIds(staged: seq<Item>)
    ensures forall id :: !IdOf(staged, 0, id)
  {
  }

  lemma IdsNext(staged: seq<Item>, n: nat)
    requires n < |staged|
    ensures forall id :: IdOf(staged, n + 1, id) <==> IdOf(staged, n, id) || id == staged[n].id
  {
    forall id | IdOf(staged, n, id) || id == staged[n].id
      ensures IdOf(staged, n + 1, id)
    {
    }
  }

  // ---- updating ----

  /** The fields of an update that were given. */
  datatype Patch = Patch(start: Option<int>, duration: Option<int>, loop: Option<int>, meta: Option<Meta>)

  function Patched(patch: Patch): Item -> Item {
    (it: Item) => it.(start := OrElse(patch.start, it.start), duration := OrElse(patch.duration, it.duration),
                      loop := OrElse(patch.loop, it.loop), meta := OrElse(patch.meta, it.meta))
  }

  /** Another item of this item's track starts at `start`. */
  ghost predicate SlotOfOther(items: seq<Item>, id: string, start: int) {
    exists j :: 0 <= j < |items| && items[j].id != id && items[j].start == start
  }

  lemma PatchKeepsSlots(items: seq<Item>, i: nat, it: Item)
    requires OwnSlots(items) && i < |items| && it.id == items[i].id && !SlotOfOther(items, it.id, it.start)
    requires forall j :: 0 <= j < |items| && j != i ==> items[j].id != it.id
    ensures OwnSlots(items[i := it])
  {
  }

  lemma ChangeKeepsSlots(v: seq<Track>, t: nat, i: nat, it: Item)
    requires t < |v| && i < |v[t].items| && it.id == v[t].items[i].id && !SlotOfOther(v[t].items, it.id, it.start)
    requires forall j :: 0 <= j < |v[t].items| && j != i ==> v[t].items[j].id != it.id
    ensures SlotsApart(v) ==> SlotsApart(WithChange(v, t, i, it))
  {
    hide OwnSlots;
    if SlotsApart(v) {
      PatchKeepsSlots(v[t].items, i, it);
    }
  }

  /** No other item has the id of the one at place `i` of track `t`. */
  lemma OnlyPlace(tracks: seq<TrackRef>, index: map<string, ItemPtr>, v: seq<Track>, t: nat, i: nat)
    requires v == TrackValues(tracks) && IndexAgrees(tracks, index, v) && HomedBy(tracks, v) && InTracks(tracks, t, i)
    ensures forall k, j :: InTracks(tracks, k, j) && v[k].items[j].id == v[t].items[i].id ==> k == t && j == i
  {
    hide HomedBy;
    forall k, j | InTracks(tracks, k, j) && (k != t || j != i)
      ensures v[k].items[j].id != v[t].items[i].id
    {
      OnePlace(tracks, index, v, k, j, t, i);
    }
  }

  /** Moves or changes an item in its track, refusing a start that another item of the track has. */
  method UpdateItem(s: Scheduler, id: string, patch: Patch) returns (code: int)
    requires s.Valid()
    modifies s`total, Objects(s.tracks)
    ensures s.Valid()
    ensures code == 3001 <==> id !in s.index
    ensures code == 3002 <==> id in s.index && old(Conflict(s, id, patch))
    ensures code == 0 || code == 3001 || code == 3002
    ensures code != OK ==> s.View() == old(s.View())
    ensures code == OK ==> Updated(old(s.View()), s.View(), id, Patched(patch))
    ensures old(SlotsApart(TrackValues(s.tracks))) ==> SlotsApart(TrackValues(s.tracks))
  {
    hide HomedBy, IndexAgrees, Derived, Sorted, SlotsApart, TotalOf, TrackValues, Objects;
    if id !in s.index {
      return TRACK_MISSING;
    }
    var o := s.index[id];
    ghost var before := TrackValues(s.tracks);
    ghost var t, i := Located(s.tracks, s.index, before, id);
    var start := OrElse(patch.start, o.item.start);
    var items := s.tracks[o.item.track].items;
    var j: nat := 0;
    while j < |items|
      invariant j <= |items|
      invariant forall k :: 0 <= k < j ==> before[t].items[k].id == id || before[t].items[k].start != start
    {
      if items[j].item.id != id && items[j].item.start == start {
        assert before[t].items[j] == items[j].item;
        return ITEM_CONFLICT;
      }
      j := j + 1;
    }
    OnlyPlace(s.tracks, s.index, before, t, i);
    assert !SlotOfOther(before[t].items, id, start);
    var ok := s.UpdateItem(id, Patched(patch));
    ghost var t', i' :| InRange(old(s.View()), t', i') && before[t'].items[i'].id == id
      && TrackValues(s.tracks) == WithChange(before, t', i', Refreshed(Patched(patch)(before[t'].items[i'])));
    assert t' == t && i' == i;
    ChangeKeepsSlots(before, t, i, Refreshed(Patched(patch)(before[t].items[i])));
    return OK;
  }

  ghost predicate Conflict(s: Scheduler, id: string, patch: Patch)
    requires s.Valid() && id in s.index
    reads s, Objects(s.tracks), s.index.Values
  {
    var it := s.index[id].item;
    0 <= it.track < |s.tracks| && SlotOfOther(TrackValues(s.tracks)[it.track].items, id, OrElse(patch.start, it.start))
  }
}
