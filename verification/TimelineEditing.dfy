/** What editing keeps of a schedule, on values: order within a track, the fields computed from others, the
    total. */
module TimelineEditing {
  import opened Results
  import opened Timeline
  import opened TimelineRuns

  // Result codes.
  const OK: int := 0
  const BAD_PARAM: int := 1002
  const TRACK_MISSING: int := 3001
  const ITEM_CONFLICT: int := 3002
  const PLAYHEAD_OUT_OF_RANGE: int := 3003

  /** Strictly ascending starts. */
  ghost predicate Ascending(items: seq<Item>) {
    forall i, j :: 0 <= i < j < |items| ==> items[i].start < items[j].start
  }

  ghost predicate Sorted(tracks: seq<Track>) {
    forall t :: 0 <= t < |tracks| ==> Ascending(tracks[t].items)
  }

  /** No two items of one track start together. */
  ghost predicate OwnSlots(items: seq<Item>) {
    forall i, j :: 0 <= i < j < |items| ==> items[i].start != items[j].start
  }

  /** Starts that never go down. */
  ghost predicate Rising(tracks: seq<Track>) {
    forall t, i, j :: 0 <= t < |tracks| && 0 <= i < j < |tracks[t].items| ==>
      tracks[t].items[i].start <= tracks[t].items[j].start
  }

  ghost predicate SlotsApart(tracks: seq<Track>) {
    forall t :: 0 <= t < |tracks| ==> OwnSlots(tracks[t].items)
  }

  /** Going from `a` to `b` loses neither the order within tracks nor the distinctness of starts. */
  ghost predicate Orderly(a: seq<Track>, b: seq<Track>) {
    (Sorted(a) ==> Sorted(b)) && (SlotsApart(a) ==> SlotsApart(b))
  }

  lemma SortedApart(tracks: seq<Track>)
    requires Sorted(tracks)
    ensures SlotsApart(tracks)
  {
    forall t | 0 <= t < |tracks|
      ensures OwnSlots(tracks[t].items)
    {
      assert Ascending(tracks[t].items);
    }
  }

  /** The item with its computed fields recomputed. */
  function Refreshed(it: Item): Item {
    it.(endAt := EndOf(it), preloadAt := if PRELOAD_AHEAD <= it.start then it.start - PRELOAD_AHEAD else 0)
  }

  ghost predicate AllRefreshed(items: seq<Item>) {
    forall i :: 0 <= i < |items| ==> items[i] == Refreshed(items[i])
  }

  ghost predicate Derived(tracks: seq<Track>) {
    forall t :: 0 <= t < |tracks| ==> AllRefreshed(tracks[t].items)
  }

  /** A duration, `n` times over. */
  function Repeated(duration: int, n: nat): int {
    if n == 0 then 0 else Repeated(duration, n - 1) + duration
  }

  lemma {:induction false} RepeatedIsProduct(duration: int, n: nat)
    ensures Repeated(duration, n) == duration * n
  {
    if n != 0 {
      RepeatedIsProduct(duration, n - 1);
      assert duration * n == duration * (n - 1) + duration;
    }
  }

  /** An item ends when it has been played once, and once more for each repeat. */
  lemma EndAfterRepeats(it: Item)
    ensures EndOf(it) == it.start + Repeated(it.duration, 1 + if 0 < it.loop then it.loop else 0)
  {
    RepeatedIsProduct(it.duration, 1 + if 0 < it.loop then it.loop else 0);
  }

  // ---- the total ----

  /** The latest end among the first `n` items, or `least`. */
  function LatestEnd(items: seq<Item>, n: nat, least: int): int
    requires n <= |items|
  {
    if n == 0 then least
    else
      var m := LatestEnd(items, n - 1, least);
      if m < EndOf(items[n - 1]) then EndOf(items[n - 1]) else m
  }

  function LatestOf(tracks: seq<Track>, n: nat): int
    requires n <= |tracks|
  {
    if n == 0 then 0 else LatestEnd(tracks[n - 1].items, |tracks[n - 1].items|, LatestOf(tracks, n - 1))
  }

  lemma {:induction false} LatestEndIsMax(items: seq<Item>, n: nat, least: int)
    requires n <= |items|
    ensures var m := LatestEnd(items, n, least);
      && least <= m && (forall i :: 0 <= i < n ==> EndOf(items[i]) <= m)
      && (m == least || exists i :: 0 <= i < n && EndOf(items[i]) == m)
  {
    if n != 0 {
      LatestEndIsMax(items, n - 1, least);
    }
  }

  ghost predicate Attained(tracks: seq<Track>, n: nat, m: int)
    requires n <= |tracks|
  {
    exists t, i :: 0 <= t < n && 0 <= i < |tracks[t].items| && EndOf(tracks[t].items[i]) == m
  }

  lemma {:induction false} LatestOfIsMax(tracks: seq<Track>, n: nat)
    requires n <= |tracks|
    ensures 0 <= LatestOf(tracks, n)
    ensures forall t, i :: 0 <= t < n && 0 <= i < |tracks[t].items| ==> EndOf(tracks[t].items[i]) <= LatestOf(tracks, n)
    ensures LatestOf(tracks, n) == 0 || Attained(tracks, n, LatestOf(tracks, n))
  {
    hide EndOf;
    if n != 0 {
      LatestOfIsMax(tracks, n - 1);
      LatestEndIsMax(tracks[n - 1].items, |tracks[n - 1].items|, LatestOf(tracks, n - 1));
    }
  }

  lemma {:induction false} NothingEnds(tracks: seq<Track>, n: nat)
    requires n <= |tracks| && forall t :: 0 <= t < |tracks| ==> tracks[t].items == []
    ensures LatestOf(tracks, n) == 0
  {
    if n != 0 {
      NothingEnds(tracks, n - 1);
    }
  }

  function TotalOf(tracks: seq<Track>): int {
    LatestOf(tracks, |tracks|)
  }

  /** The recalculated total is the latest end of any item, or 0 when none ends later. */
  lemma TotalIsLatestEnd(s: Schedule)
    requires s.total == TotalOf(s.tracks)
    ensures TotalCovers(s) && 0 <= s.total
    ensures 0 < s.total ==> exists t, i :: InRange(s, t, i) && EndOf(ItemAt(s, t, i)) == s.total
  {
    hide EndOf;
    LatestOfIsMax(s.tracks, |s.tracks|);
    if 0 < s.total {
      var t, i :| 0 <= t < |s.tracks| && 0 <= i < |s.tracks[t].items| && EndOf(s.tracks[t].items[i]) == s.total;
      assert InRange(s, t, i);
    }
  }

  // ---- run-time changes keep all of it ----

  ghost predicate HasId(tracks: seq<Track>, id: string) {
    exists t, i :: 0 <= t < |tracks| && 0 <= i < |tracks[t].items| && tracks[t].items[i].id == id
  }

  ghost predicate SameShapes(a: seq<Track>, b: seq<Track>) {
    |a| == |b| && forall t :: 0 <= t < |a| ==> SameTrackShape(a[t], b[t])
  }

  lemma {:induction false} ShapeKeepsLatestEnd(a: Track, b: Track, n: nat, least: int)
    requires SameTrackShape(a, b) && n <= |a.items|
    ensures LatestEnd(a.items, n, least) == LatestEnd(b.items, n, least)
  {
    if n != 0 {
      ShapeKeepsLatestEnd(a, b, n - 1, least);
      assert Static(a.items[n - 1]) == Static(b.items[n - 1]);
    }
  }

  lemma {:induction false} ShapeKeepsLatest(a: seq<Track>, b: seq<Track>, n: nat)
    requires SameShapes(a, b) && n <= |a|
    ensures LatestOf(a, n) == LatestOf(b, n)
  {
    if n != 0 {
      ShapeKeepsLatest(a, b, n - 1);
      ShapeKeepsLatestEnd(a[n - 1], b[n - 1], |a[n - 1].items|, LatestOf(a, n - 1));
    }
  }

  lemma ShapeKeepsTrack(a: Track, b: Track)
    requires SameTrackShape(a, b)
    ensures Ascending(a.items) ==> Ascending(b.items)
    ensures OwnSlots(a.items) ==> OwnSlots(b.items)
    ensures AllRefreshed(a.items) ==> AllRefreshed(b.items)
    ensures forall i :: 0 <= i < |a.items| ==> a.items[i].id == b.items[i].id
  {
    forall i | 0 <= i < |a.items|
      ensures b.items[i] == a.items[i].(state := b.items[i].state, activeAt := b.items[i].activeAt)
    {
      assert Static(a.items[i]) == Static(b.items[i]);
    }
  }

  lemma ShapeKeepsOrder(a: seq<Track>, b: seq<Track>)
    requires SameShapes(a, b)
    ensures Orderly(a, b)
    ensures Derived(a) ==> Derived(b)
    ensures TotalOf(a) == TotalOf(b)
    ensures forall id :: HasId(a, id) ==> HasId(b, id)
  {
    hide Ascending, AllRefreshed, OwnSlots;
    forall t | 0 <= t < |a|
      ensures Ascending(a[t].items) ==> Ascending(b[t].items)
      ensures OwnSlots(a[t].items) ==> OwnSlots(b[t].items)
      ensures AllRefreshed(a[t].items) ==> AllRefreshed(b[t].items)
      ensures |a[t].items| == |b[t].items| && forall i :: 0 <= i < |a[t].items| ==> a[t].items[i].id == b[t].items[i].id
    {
      ShapeKeepsTrack(a[t], b[t]);
    }
    ShapeKeepsLatest(a, b, |a|);
  }

  // ---- inserting ----

  ghost predicate SlotTaken(items: seq<Item>, start: int) {
    exists i :: 0 <= i < |items| && items[i].start == start
  }

  ghost function InsertCode(tracks: seq<Track>, it: Item): int {
    if !(0 <= it.track < |tracks|) then 3001
    else if SlotTaken(tracks[it.track].items, it.start) then 3002
    else OK
  }

  /** `b` is `a` with the item, its computed fields filled in, somewhere in its track: in place, if the track is
      in order. */
  ghost predicate Inserted(a: Schedule, b: Schedule, it: Item) {
    && 0 <= it.track < |a.tracks|
    && b == Schedule(b.tracks, a.play, a.pos, TotalOf(b.tracks))
    && exists p :: PlacedAt(a.tracks, b.tracks, it, p)
  }

  ghost predicate PlacedAt(a: seq<Track>, b: seq<Track>, it: Item, p: nat) {
    && 0 <= it.track < |a| && p <= |a[it.track].items|
    && b == a[it.track := a[it.track].(items := InsertAt(a[it.track].items, p, Refreshed(it)))]
    && (Ascending(a[it.track].items) ==> Place(a[it.track].items, it.start, p))
  }

  lemma PlacedKeepsOrder(a: seq<Track>, b: seq<Track>, it: Item, p: nat)
    requires PlacedAt(a, b, it, p) && !SlotTaken(a[it.track].items, it.start)
    ensures Orderly(a, b)
    ensures Derived(a) ==> Derived(b)
  {
    hide Ascending, Place, OwnSlots;
    if Sorted(a) {
      InsertKeepsOrder(a[it.track].items, p, Refreshed(it));
    }
    if SlotsApart(a) {
      InsertKeepsSlots(a[it.track].items, p, Refreshed(it));
    }
  }

  function InsertAt(items: seq<Item>, p: nat, it: Item): seq<Item>
    requires p <= |items|
  {
    items[..p] + [it] + items[p..]
  }

  /** The place of a start in an ascending track. */
  ghost predicate Place(items: seq<Item>, start: int, p: nat) {
    && p <= |items|
    && (forall i :: 0 <= i < p ==> items[i].start < start)
    && (forall i :: p <= i < |items| ==> start <= items[i].start)
  }

  lemma InsertKeepsOrder(items: seq<Item>, p: nat, it: Item)
    requires Ascending(items) && Place(items, it.start, p) && forall i :: 0 <= i < |items| ==> items[i].start != it.start
    ensures Ascending(InsertAt(items, p, it))
  {
  }

  lemma InsertKeepsSlots(items: seq<Item>, p: nat, it: Item)
    requires OwnSlots(items) && p <= |items| && forall i :: 0 <= i < |items| ==> items[i].start != it.start
    ensures OwnSlots(InsertAt(items, p, it))
  {
  }

  // ---- removing ----

  function RemoveAt(items: seq<Item>, p: nat): seq<Item>
    requires p < |items|
  {
    items[..p] + items[p + 1..]
  }

  /** `b` is `a` without the item of this id. */
  ghost predicate Removed(a: Schedule, b: Schedule, id: string) {
    && b == Schedule(b.tracks, a.play, a.pos, TotalOf(b.tracks))
    && exists t, i :: InRange(a, t, i) && ItemAt(a, t, i).id == id && LacksAt(a.tracks, b.tracks, t, i)
  }

  ghost predicate LacksAt(a: seq<Track>, b: seq<Track>, t: int, i: int) {
    && 0 <= t < |a| && 0 <= i < |a[t].items|
    && b == a[t := a[t].(items := RemoveAt(a[t].items, i))]
  }

  lemma LacksKeepsOrder(a: seq<Track>, b: seq<Track>, t: int, i: int)
    requires LacksAt(a, b, t, i)
    ensures Orderly(a, b)
    ensures Derived(a) ==> Derived(b)
  {
    hide Refreshed;
    if Sorted(a) {
      assert Ascending(a[t].items);
    }
    if SlotsApart(a) {
      assert OwnSlots(a[t].items);
    }
  }

  // ---- changing in place ----

  function WithChange(tracks: seq<Track>, t: int, i: int, it: Item): seq<Track>
    requires 0 <= t < |tracks| && 0 <= i < |tracks[t].items|
  {
    tracks[t := tracks[t].(items := tracks[t].items[i := it])]
  }

  /** `b` is `a` with the item of this id changed where it stands, its computed fields filled in again. */
  ghost predicate Updated(a: Schedule, b: Schedule, id: string, change: Item -> Item) {
    && b == Schedule(b.tracks, a.play, a.pos, TotalOf(b.tracks))
    && exists t, i :: InRange(a, t, i) && ItemAt(a, t, i).id == id
                      && b.tracks == WithChange(a.tracks, t, i, Refreshed(change(ItemAt(a, t, i))))
  }

  predicate Keeps(change: Item -> Item, it: Item) {
    change(it).id == it.id && change(it).track == it.track
  }

  lemma ChangeKeepsDerived(tracks: seq<Track>, t: int, i: int, it: Item)
    requires 0 <= t < |tracks| && 0 <= i < |tracks[t].items| && it == Refreshed(it)
    ensures Derived(tracks) ==> Derived(WithChange(tracks, t, i, it))
  {
  }

  // ---- moving ----

  /** A moved item leaves its track in order exactly when it stays between its neighbours. */
  lemma MoveKeepsOrderIff(items: seq<Item>, i: nat, it: Item)
    requires Ascending(items) && i < |items|
    ensures Ascending(items[i := it]) <==>
      && (0 < i ==> items[i - 1].start < it.start)
      && (i + 1 < |items| ==> it.start < items[i + 1].start)
  {
    var moved := items[i := it];
    if Ascending(moved) {
      assert 0 < i ==> moved[i - 1].start < moved[i].start;
      assert i + 1 < |items| ==> moved[i].start < moved[i + 1].start;
    }
  }

  /** Moving an item past its neighbour leaves its track out of order. */
  lemma MoveBreaksOrder() returns (items: seq<Item>, i: nat, it: Item)
    ensures i < |items| && Ascending(items) && OwnSlots(items[i := it]) && !Ascending(items[i := it])
  {
    var meta := Meta(500, "cut", None, "{}");
    var a := Item("a", 0, 0, 10, 0, "m", meta, Scheduled, 0, 0, 10);
    var b := Item("b", 0, 100, 10, 0, "m", meta, Scheduled, 80, 0, 110);
    items, i, it := [a, b], 0, a.(start := 200);
    assert items[0 := it] == [it, b];
    assert [it, b][1].start < [it, b][0].start;
  }

  // ---- items that are gone ----

  lemma {:induction false} OwnOfAbsent(f: ItemFn, tracks: seq<Track>, n: nat, id: string)
    requires n <= |tracks| && !HasId(tracks, id)
    ensures Own(MapTracks(f, tracks, n).1, id) == []
  {
    hide Own, HasId, MapTrack;
    if n == 0 {
      NoneYet(f, tracks, id);
    } else {
      OwnOfAbsent(f, tracks, n - 1, id);
      var last := tracks[n - 1];
      OwnConcat(MapTracks(f, tracks, n - 1).1, MapTrack(f, last).1, id);
      AbsentFrom(tracks, n - 1, id);
      OwnOfTrack(f, last, id);
    }
  }

  lemma AbsentFrom(tracks: seq<Track>, k: nat, id: string)
    requires k < |tracks| && !HasId(tracks, id)
    ensures NoneHas(tracks[k], id, |tracks[k].items|)
  {
  }

  lemma OwnOfTrack(f: ItemFn, t: Track, id: string)
    requires NoneHas(t, id, |t.items|)
    ensures Own(MapTrack(f, t).1, id) == []
  {
    hide Own;
    OwnOfNone(f, t, |t.items|, id);
  }

  lemma ApplyOfAbsent(s: Schedule, op: Op, id: string)
    requires !HasId(s.tracks, id)
    ensures !HasId(Apply(s, op).0.tracks, id) && Own(Apply(s, op).1, id) == []
  {
    hide Own, HasId, MapTracks;
    OwnOfNothing(id);
    match op
    case TickAt(pos, accept) =>
      OperationsKeepStatic(pos, accept);
      OwnOfAbsent(StepFn(pos, accept), s.tracks, |s.tracks|, id);
      MapKeepsAbsent(StepFn(pos, accept), s.tracks, id);
    case StopOp =>
      OperationsKeepStatic(0, _ => true);
      OwnOfAbsent(StopFn(), s.tracks, |s.tracks|, id);
      MapKeepsAbsent(StopFn(), s.tracks, id);
    case _ =>
  }

  lemma OwnOfNothing(id: string)
    ensures Own([], id) == []
  {
  }

  lemma MapKeepsAbsent(f: ItemFn, tracks: seq<Track>, id: string)
    requires KeepsStatic(f) && !HasId(tracks, id)
    ensures !HasId(MapTracks(f, tracks, |tracks|).0, id)
  {
    var r := MapTracks(f, tracks, |tracks|).0;
    MapKeepsShape(f, Schedule(tracks, Stopped, 0, 0), Stopped, 0);
    assert SameShapes(tracks, r);
    forall t, i | 0 <= t < |r| && 0 <= i < |r[t].items|
      ensures r[t].items[i].id != id
    {
      ShapeKeepsTrack(tracks[t], r[t]);
      assert tracks[t].items[i].id != id;
    }
  }

  /** Nothing is ever called for an item that is not there: one removed while it plays is neither stopped nor
      reported ended by any later run. */
  lemma {:induction false} RemovedStaysSilent(s: Schedule, ops: seq<Op>, id: string)
    requires !HasId(s.tracks, id)
    ensures !HasId(Run(s, ops).0.tracks, id) && Own(Run(s, ops).1, id) == []
  {
    hide Own, HasId, Apply;
    if ops == [] {
      OwnOfNothing(id);
    } else {
      var before := Run(s, ops[..|ops| - 1]);
      RemovedStaysSilent(s, ops[..|ops| - 1], id);
      ApplyOfAbsent(before.0, ops[|ops| - 1], id);
      OwnConcat(before.1, Apply(before.0, ops[|ops| - 1]).1, id);
    }
  }
}
