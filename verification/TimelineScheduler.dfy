/** The scheduler object. */
module TimelineScheduler {
  import opened Results
  import opened Timeline
  import opened TimelineRuns
  import opened TimelineEditing
  import opened TimelineTracks
  import opened TimelineConfig

  const KINDS: seq<TrackType> := [Audio, Video, Scene, Command, Vj, Light, Pixel, Device]

  class Scheduler {
    var tracks: seq<TrackRef>
    var index: map<string, ItemPtr>
    var total: int
    var state: PlayState
    var pos: int
    var log: seq<Logged>  // every call made so far

    /** The schedule as a value. */
    ghost function View(): Schedule
      reads this, Objects(tracks)
    {
      Schedule(TrackValues(tracks), state, pos, total)
    }

    /** The tracks, the index and the total agree. */
    ghost predicate Valid()
      reads this, Objects(tracks)
    {
      && HomedBy(tracks, TrackValues(tracks)) && IndexAgrees(tracks, index, TrackValues(tracks))
      && Derived(TrackValues(tracks)) && total == TotalOf(TrackValues(tracks))
    }

    /** The eight default tracks, with nothing on them. */
    constructor ()
      ensures Valid() && Sorted(TrackValues(tracks)) && |tracks| == 8 && index == map[]
      ensures View() == Schedule(TrackValues(tracks), Stopped, 0, 0) && log == []
      ensures forall t :: 0 <= t < 8 ==> tracks[t].enabled && tracks[t].kind == KINDS[t]
    {
      tracks := [TrackRef(Audio, "主音频轨", true, []), TrackRef(Video, "主视频轨", true, []),
                 TrackRef(Scene, "场景指令轨", true, []), TrackRef(Command, "指令轨", true, []),
                 TrackRef(Vj, "VJ 特效轨（Phase 2）", true, []), TrackRef(Light, "灯光轨（Phase 3）", true, []),
                 TrackRef(Pixel, "像素灯带轨（Phase 3）", true, []), TrackRef(Device, "硬件中控轨（Phase 3）", true, [])];
      index := map[];
      total := 0;
      state := Stopped;
      pos := 0;
      log := [];
      new;
      NothingHeld(tracks);
    }

    // ---- one item ----

    method Emit(o: ItemPtr, e: Effect)
      modifies this`log
      ensures log == old(log) + Tag(o.item.id, [e])
    {
      log := log + [Logged(o.item.id, e)];
    }

    method ActivateItem(o: ItemPtr, now: int)
      requires 0 <= o.item.track < |tracks|
      modifies o, this`log
      ensures var r := Activate(tracks[old(o.item.track)].kind, old(o.item), now);
        o.item == r.0 && log == old(log) + Tag(old(o.item.id), r.1)
    {
      o.item := o.item.(state := Active, activeAt := now);
      var kind := tracks[o.item.track].kind;
      match kind {
        case Audio => Emit(o, MediaPlay(o.item.refUuid, o.item.meta));
        case Video => Emit(o, MediaPlay(o.item.refUuid, o.item.meta));
        case Scene =>
          Emit(o, SceneRecall(o.item.refUuid, o.item.meta.fadeMs, o.item.meta.recallMode));
          o.item := o.item.(state := Done);
          Emit(o, ItemEnded("done"));
          return;
        case Command =>
          var op := o.item.refUuid;
          if o.item.meta.op.Some? {
            op := o.item.meta.op.value;
          }
          if op != "" {
            Emit(o, SendCommand(op, o.item.meta.params));
          }
          o.item := o.item.(state := Done);
          Emit(o, ItemEnded("done"));
          return;
        case _ =>
          o.item := o.item.(state := Done);
          Emit(o, ItemEnded("skipped_phase"));
          return;
      }
      Emit(o, ItemStarted);
    }

    method FinishItem(o: ItemPtr, reason: string)
      requires 0 <= o.item.track < |tracks|
      modifies o, this`log
      ensures var r := Finish(tracks[old(o.item.track)].kind, old(o.item), reason);
        o.item == r.0 && log == old(log) + Tag(old(o.item.id), r.1)
    {
      o.item := o.item.(state := Done);
      if IsMedia(tracks[o.item.track].kind) {
        Emit(o, MediaStop);
      }
      Emit(o, ItemEnded(reason));
    }

    /** The part of a tick that ends an item. */
    method EndItem(o: ItemPtr, k: nat, now: int)
      requires k < |tracks| && o.item.track == k
      modifies o, this`log
      ensures var r := TryFinish(tracks[k].kind, old(o.item), now);
        o.item == r.0 && log == old(log) + Tag(old(o.item.id), r.1)
    {
      if o.item.state == Active {
        if EndOf(o.item) <= now {
          FinishItem(o, "done");
        }
      }
      if o.item.state == Aborted {
        if IsMedia(tracks[k].kind) {
          Emit(o, MediaStop);
        }
        Emit(o, ItemEnded("aborted"));
        o.item := o.item.(state := Done);
      }
    }

    /** What a tick does with one item of an enabled track. */
    method TickItem(o: ItemPtr, k: nat, now: int, accept: Accepts)
      requires k < |tracks| && o.item.track == k
      modifies o, this`log
      ensures var r := StepItem(tracks[k].kind, old(o.item), now, accept);
        o.item == r.0 && log == old(log) + Tag(old(o.item.id), r.1)
    {
      hide Activate, TryFinish, Tag;
      var kind := tracks[k].kind;
      ghost var (a, ea) := TryPreload(kind, o.item, now, accept);
      ghost var (b, eb) := TryActivate(kind, a, now);
      if o.item.state == Scheduled {
        if o.item.preloadAt <= now && now < o.item.start {
          if IsMedia(kind) {
            Emit(o, MediaPreload(o.item.refUuid, o.item.meta));
            if accept(o.item.id) {
              o.item := o.item.(state := Preloaded);
            }
          } else {
            o.item := o.item.(state := Preloaded);
          }
        }
      }
      ActivateState(kind, a, now);
      assert o.item == a && log == old(log) + Tag(a.id, ea);
      if o.item.state == Preloaded && o.item.start <= now {
        ActivateItem(o, now);
      }
      if o.item.state == Scheduled && o.item.start <= now {
        ActivateItem(o, now);
      }
      assert o.item == b && log == old(log) + Tag(a.id, ea) + Tag(a.id, eb);
      EndItem(o, k, now);
      ThreeTags(old(log), a.id, ea, eb, TryFinish(kind, b, now).1);
    }

    /** One item of one pass. */
    method Visit(p: Pass, o: ItemPtr, k: nat)
      requires k < |tracks| && o.item.track == k
      modifies o, this`log
      ensures var r := PassFn(p)(tracks[k].kind, tracks[k].enabled, old(o.item));
        o.item == r.0 && log == old(log) + Tag(old(o.item.id), r.1)
    {
      hide StepItem;
      var kind := tracks[k].kind;
      match p {
        case TickPass(now, accept) =>
          if tracks[k].enabled {
            TickItem(o, k, now, accept);
          }
        case ResetPass =>
          o.item := o.item.(state := Scheduled, activeAt := 0);
        case ScenesPass(from) =>
          if kind == Scene {
            if o.item.start <= from {
              o.item := o.item.(state := Done);
            }
          }
        case StopPass =>
          if o.item.state == Active || o.item.state == Preloaded {
            var wasActive := o.item.state == Active;
            if IsMedia(kind) {
              Emit(o, MediaStop);
            }
            o.item := o.item.(state := Scheduled);
            if wasActive {
              Emit(o, ItemEnded("stop"));
            }
          }
        case HushPass =>
          if o.item.state == Active || o.item.state == Preloaded {
            if IsMedia(kind) {
              Emit(o, MediaStop);
            }
            o.item := o.item.(state := Scheduled);
          }
      }
    }

    // ---- all items ----

    /** The `j`-th item of a track in a pass. */
    method VisitNth(p: Pass, items: seq<ItemPtr>, j: nat, k: nat)
      requires k < |tracks| && j < |items| && Distinct(items) && items[j].item.track == k
      modifies items[j], this`log
      ensures var r := PassFn(p)(tracks[k].kind, tracks[k].enabled, old(Values(items))[j]);
        && Values(items) == old(Values(items))[j := r.0]
        && log == old(log) + Tag(old(Values(items))[j].id, r.1)
    {
      hide PassFn;
      Visit(p, items[j], k);
      forall i | 0 <= i < |items| && i != j
        ensures items[i].item == old(items[i].item)
      {
        assert items[i] != items[j];
      }
    }

    /** A pass over the items of track `k`, in order. */
    method PassTrack(p: Pass, k: nat)
      requires k < |tracks| && Distinct(tracks[k].items) && AllAt(tracks[k].items, k)
      modifies this`log, tracks[k].items
      ensures TrackValue(tracks[k]) == MapTrack(PassFn(p), old(TrackValue(tracks[k]))).0
      ensures log == old(log) + MapTrack(PassFn(p), old(TrackValue(tracks[k]))).1
      ensures AllAt(tracks[k].items, k)
    {
      hide PassFn, MapItems, MapTrack, Distinct, AllAt, Partly, Values;
      ghost var before := TrackValue(tracks[k]);
      AllAtValues(tracks[k].items, k);
      PassItems(p, k, before);
      PartlyEnds(PassFn(p), before);
      PassKeepsHome(p, before, k);
      AllAtValues(tracks[k].items, k);
    }

    method PassItems(p: Pass, k: nat, ghost before: Track)
      requires k < |tracks| && Distinct(tracks[k].items) && AllOn(before.items, k) && before == TrackValue(tracks[k])
      modifies this`log, tracks[k].items
      ensures |before.items| == |tracks[k].items|
      ensures Values(tracks[k].items) == Partly(PassFn(p), before, |before.items|)
      ensures log == old(log) + MapItems(PassFn(p), before, |before.items|).1
    {
      hide PassFn, MapItems, Distinct, Partly, Values;
      var items := tracks[k].items;
      var j: nat := 0;
      PartlyEnds(PassFn(p), before);
      while j < |items|
        invariant j <= |items|
        invariant Values(items) == Partly(PassFn(p), before, j)
        invariant log == old(log) + MapItems(PassFn(p), before, j).1
      {
        PartlyStep(PassFn(p), before, j);
        VisitNth(p, items, j, k);
        j := j + 1;
      }
    }

    /** The pass over track `k`, as the whole schedule sees it. */
    method PassNth(p: Pass, k: nat)
      requires k < |tracks| && Homed(tracks)
      modifies this`log, Objects(tracks)
      ensures Homed(tracks)
      ensures TrackValues(tracks) == old(TrackValues(tracks))[k := MapTrack(PassFn(p), old(TrackValues(tracks))[k]).0]
      ensures log == old(log) + MapTrack(PassFn(p), old(TrackValues(tracks))[k]).1
    {
      hide PassFn, MapTrack, AllAt, Distinct;
      forall t | 0 <= t < |tracks| && t != k
        ensures Disjoint(tracks[t].items, tracks[k].items)
      {
        Apart(tracks, t, k);
      }
      PassTrack(p, k);
      forall t | 0 <= t < |tracks| && t != k
        ensures TrackValue(tracks[t]) == old(TrackValue(tracks[t])) && AllAt(tracks[t].items, t)
      {
        assert Disjoint(tracks[t].items, tracks[k].items);
        assert forall i :: 0 <= i < |tracks[t].items| ==> tracks[t].items[i] !in tracks[k].items;
        assert old(AllAt(tracks[t].items, t));
      }
    }

    /** A pass over every item, track by track. */
    method PassAll(p: Pass)
      requires Homed(tracks)
      modifies this`log, Objects(tracks)
      ensures Homed(tracks)
      ensures TrackValues(tracks) == MapTracks(PassFn(p), old(TrackValues(tracks)), |tracks|).0
      ensures log == old(log) + MapTracks(PassFn(p), old(TrackValues(tracks)), |tracks|).1
    {
      hide PassFn, MapTrack, MapTracks, PartlyTracks, Homed, Objects;
      ghost var before := TrackValues(tracks);
      ghost var f := PassFn(p);
      PartlyTracksEnds(f, before);
      var k: nat := 0;
      while k < |tracks|
        invariant k <= |tracks| && Homed(tracks)
        invariant TrackValues(tracks) == PartlyTracks(f, before, k)
        invariant log == old(log) + MapTracks(f, before, k).1
      {
        PartlyTracksStep(f, before, k);
        PassNth(p, k);
        k := k + 1;
      }
    }

    /** A pass keeps the tracks, the index and the total in agreement. */
    method ValidPass(p: Pass)
      requires Valid()
      modifies this`log, Objects(tracks)
      ensures Valid() && Orderly(old(TrackValues(tracks)), TrackValues(tracks))
      ensures TrackValues(tracks) == MapTracks(PassFn(p), old(TrackValues(tracks)), |tracks|).0
      ensures log == old(log) + MapTracks(PassFn(p), old(TrackValues(tracks)), |tracks|).1
    {
      hide MapTracks, MapTrack, HomedBy, PassFn, Derived, TotalOf, Sorted, SlotsApart, IndexAgrees, Objects, TrackValues;
      ghost var before := TrackValues(tracks);
      HomedByValues(tracks);
      PassAll(p);
      HomedByValues(tracks);
      PassKeepsShapes(p, before);
      ShapeKeepsOrder(before, TrackValues(tracks));
      ShapeKeepsIndex(tracks, index, before, TrackValues(tracks));
    }

    // ---- playback ----

    method Play(from: int)
      requires Valid()
      modifies this`state, this`pos, this`log, Objects(tracks)
      ensures Valid() && Orderly(old(TrackValues(tracks)), TrackValues(tracks))
      ensures View() == Timeline.Play(old(View()), from) && log == old(log)
    {
      hide MapTracks, MapTrack, HomedBy, PassFn, Derived, TotalOf, Sorted, SlotsApart, IndexAgrees, Objects, TrackValues;
      ghost var before := TrackValues(tracks);
      ValidPass(ResetPass);
      pos := from;
      state := Playing;
      ValidPass(ScenesPass(from));
      PlayPasses(from, before);
    }

    method Pause()
      requires Valid()
      modifies this`state
      ensures Valid() && View() == Timeline.Pause(old(View()))
    {
      hide Derived, TotalOf, IndexAgrees, TrackValues, HomedBy;
      if state == Playing {
        state := Paused;
        assert TrackValues(tracks) == old(TrackValues(tracks));
      }
    }

    method Resume()
      requires Valid()
      modifies this`state
      ensures Valid() && View() == Timeline.Resume(old(View()))
    {
      hide Derived, TotalOf, IndexAgrees, TrackValues, HomedBy;
      if state == Paused {
        state := Playing;
        assert TrackValues(tracks) == old(TrackValues(tracks));
      }
    }

    method Stop()
      requires Valid()
      modifies this`state, this`pos, this`log, Objects(tracks)
      ensures Valid() && Orderly(old(TrackValues(tracks)), TrackValues(tracks))
      ensures View() == Timeline.Stop(old(View())).0 && log == old(log) + Timeline.Stop(old(View())).1
    {
      hide MapTracks, MapTrack, HomedBy, Derived, TotalOf, Sorted, SlotsApart, IndexAgrees, StopFn, Objects, TrackValues;
      ValidPass(StopPass);
      state := Stopped;
      pos := 0;
    }

    method Seek(to: int) returns (code: int)
      requires Valid()
      modifies this`pos, this`log, Objects(tracks)
      ensures Valid() && Orderly(old(TrackValues(tracks)), TrackValues(tracks))
      ensures code == if CanSeek(old(View()), to) then 0 else 3003
      ensures View() == Timeline.Seek(old(View()), to).0 && log == old(log) + Timeline.Seek(old(View()), to).1
    {
      hide MapTracks, MapTrack, HomedBy, PassFn, Derived, TotalOf, Sorted, SlotsApart, IndexAgrees, Objects, TrackValues;
      ghost var before := TrackValues(tracks);
      if to < 0 {
        return PLAYHEAD_OUT_OF_RANGE;
      }
      if 0 < total && total < to {
        return PLAYHEAD_OUT_OF_RANGE;
      }
      ValidPass(HushPass);
      ValidPass(ScenesPass(to));
      SeekPasses(to, before);
      pos := to;
      return OK;
    }

    method AllEnded() returns (all: bool)
      ensures all == AllSettled(TrackValues(tracks))
    {
      hide Settled;
      all := true;
      var k: nat := 0;
      while k < |tracks| && all
        invariant k <= |tracks|
        invariant all == AllSettled(TrackValues(tracks)[..k])
        invariant !all ==> !AllSettled(TrackValues(tracks))
      {
        if tracks[k].enabled {
          var j: nat := 0;
          while j < |tracks[k].items|
            invariant j <= |tracks[k].items|
            invariant forall i :: 0 <= i < j ==> Settled(tracks[k].items[i].item)
          {
            if !Settled(tracks[k].items[j].item) {
              assert !Settled(TrackValues(tracks)[k].items[j]);
              return false;
            }
            j := j + 1;
          }
        }
        k := k + 1;
      }
    }

    method Tick(now: int, accept: Accepts)
      requires Valid()
      modifies this`state, this`pos, this`log, Objects(tracks)
      ensures Valid() && Orderly(old(TrackValues(tracks)), TrackValues(tracks))
      ensures View() == Timeline.Tick(old(View()), now, accept).0
      ensures log == old(log) + Timeline.Tick(old(View()), now, accept).1
    {
      hide MapTracks, MapTrack, HomedBy, Derived, TotalOf, Sorted, SlotsApart, IndexAgrees, StepFn, AllSettled, TrackValues;
      if state != Playing {
        return;
      }
      pos := now;
      ValidPass(TickPass(now, accept));
      if total <= now && 0 < total {
        var all := AllEnded();
        if all {
          state := Stopped;
        }
      }
    }

    // ---- editing ----

    method RecalcTotal()
      modifies this`total
      ensures total == TotalOf(TrackValues(tracks))
    {
      hide EndOf, Objects;
      ghost var v := TrackValues(tracks);
      var latest := 0;
      var k: nat := 0;
      while k < |tracks|
        invariant k <= |tracks|
        invariant latest == LatestOf(v, k)
      {
        var j: nat := 0;
        while j < |tracks[k].items|
          invariant j <= |tracks[k].items|
          invariant latest == LatestEnd(v[k].items, j, LatestOf(v, k))
        {
          var e := EndOf(tracks[k].items[j].item);
          if latest < e {
            latest := e;
          }
          j := j + 1;
        }
        k := k + 1;
      }
      total := latest;
      assert TrackValues(tracks) == v;
    }

    /** The first item of track `k` that does not start before `start`, by bisection. */
    method LowerBound(k: nat, start: int) returns (p: nat)
      requires k < |tracks|
      ensures p <= |tracks[k].items|
      ensures Ascending(TrackValues(tracks)[k].items) ==> Place(TrackValues(tracks)[k].items, start, p)
    {
      ghost var v := TrackValues(tracks)[k].items;
      var items := tracks[k].items;
      p := 0;
      var count := |items|;
      while 0 < count
        invariant 0 <= count && p + count <= |items|
        invariant Ascending(v) ==> forall i :: 0 <= i < p ==> v[i].start < start
        invariant Ascending(v) ==> forall i :: p + count <= i < |v| ==> start <= v[i].start
      {
        var step := count / 2;
        if items[p + step].item.start < start {
          p := p + step + 1;
          count := count - step - 1;
        } else {
          count := step;
        }
      }
    }

    /** Whether an item of track `k` starts at `start`. */
    method StartsAt(k: nat, start: int) returns (found: bool)
      requires k < |tracks|
      ensures found == SlotTaken(TrackValues(tracks)[k].items, start)
    {
      ghost var v := TrackValues(tracks)[k].items;
      var j: nat := 0;
      while j < |tracks[k].items|
        invariant j <= |tracks[k].items|
        invariant forall i :: 0 <= i < j ==> v[i].start != start
      {
        if tracks[k].items[j].item.start == start {
          assert v[j].start == start;
          return true;
        }
        j := j + 1;
      }
      return false;
    }

    method NewItem(it: Item) returns (o: ItemPtr)
      ensures fresh(o) && o.item == it && o !in Objects(tracks)
    {
      o := new ItemPtr(it);
    }

    /** Puts an item at place `p` of its track and into the index. */
    method AddItem(it: Item, p: nat)
      requires Valid() && 0 <= it.track < |tracks| && p <= |tracks[it.track].items|
      modifies this`tracks, this`index
      ensures var a := old(TrackValues(tracks));
        |a| == |old(tracks)| && TrackValues(tracks) == a[it.track := a[it.track].(items := InsertAt(a[it.track].items, p, it))]
      ensures HomedBy(tracks, TrackValues(tracks))
      ensures it.id in index && fresh(index[it.id]) && index == old(index)[it.id := index[it.id]]
      ensures IndexAgrees(tracks, index, TrackValues(tracks)) <==> it.id !in old(index)
    {
      hide HomedBy, IndexAgrees, Derived, TotalOf, InsertAt, TrackValues, Objects, WithItem;
      ghost var before := TrackValues(tracks);
      var o := NewItem(it);
      assert TrackValues(tracks) == before;
      ValuesWithItem(tracks, it.track, p, o);
      WithItemHomed(tracks, it.track, p, o, before, it);
      if it.id in index {
        WithItemClash(tracks, index, it.track, p, o, before, it);
      } else {
        WithItemIndexed(tracks, index, it.track, p, o, before, it);
      }
      tracks := WithItem(tracks, it.track, p, o);
      index := index[it.id := o];
    }

    method InsertItem(it: Item) returns (code: int)
      requires Valid()
      modifies this`tracks, this`index, this`total
      ensures code == InsertCode(old(TrackValues(tracks)), it)
      ensures code != OK ==> View() == old(View()) && tracks == old(tracks) && index == old(index)
      ensures code == OK ==> Inserted(old(View()), View(), it)
      ensures code == OK ==> it.id in index && fresh(index[it.id]) && index == old(index)[it.id := index[it.id]]
      ensures Valid() <==> (code == OK ==> it.id !in old(index))
      ensures Orderly(old(TrackValues(tracks)), TrackValues(tracks))
    {
      hide HomedBy, IndexAgrees, Derived, Sorted, SlotsApart, TotalOf, Ascending, Place, InsertAt, SlotTaken, TrackValues, Objects;
      ghost var before := TrackValues(tracks);
      if it.track < 0 || |tracks| <= it.track {
        return TRACK_MISSING;
      }
      var taken := StartsAt(it.track, it.start);
      assert TrackValues(tracks) == before;
      if taken {
        return ITEM_CONFLICT;
      }
      var p := LowerBound(it.track, it.start);
      assert TrackValues(tracks) == before;
      AddItem(Refreshed(it), p);
      ghost var after := TrackValues(tracks);
      PlacedKeepsOrder(before, after, it, p);
      RecalcTotal();
      assert TrackValues(tracks) == after;
      return OK;
    }

    method ClearItems()
      modifies this`tracks, this`index, this`total, this`pos, this`state
      ensures Valid() && Sorted(TrackValues(tracks)) && index == map[]
      ensures View().play == Stopped && View().pos == 0 && View().total == 0
      ensures |tracks| == |old(tracks)|
      ensures forall t :: 0 <= t < |tracks| ==> tracks[t] == old(tracks)[t].(items := [])
    {
      var k: nat := 0;
      while k < |tracks|
        invariant k <= |tracks| == |old(tracks)|
        invariant forall t :: 0 <= t < k ==> tracks[t] == old(tracks)[t].(items := [])
        invariant forall t :: k <= t < |tracks| ==> tracks[t] == old(tracks)[t]
      {
        tracks := tracks[k := tracks[k].(items := [])];
        k := k + 1;
      }
      index := map[];
      total := 0;
      pos := 0;
      state := Stopped;
      NothingHeld(tracks);
    }

    /** Removes an item. One that plays is marked aborted, but no later tick visits it. */
    method RemoveItem(id: string) returns (ok: bool)
      requires Valid()
      modifies this`tracks, this`index, this`total, Objects(tracks)
      ensures Valid() && Orderly(old(TrackValues(tracks)), TrackValues(tracks))
      ensures ok == (id in old(index)) && index == old(index) - {id}
      ensures !ok ==> View() == old(View())
      ensures ok ==> Removed(old(View()), View(), id)
      ensures ok ==> var o := old(index[id]);
        o.item == old(o.item).(state := if old(o.item.state) in {Active, Preloaded} then Aborted else old(o.item.state))
    {
      hide HomedBy, IndexAgrees, Derived, Sorted, SlotsApart, TotalOf, Ascending, TrackValues, Objects, RemoveAt, WithoutItem;
      if id !in index {
        return false;
      }
      var o := index[id];
      ghost var before := TrackValues(tracks);
      ghost var t, i := Located(tracks, index, before, id);
      var k := o.item.track;
      var p: nat := 0;
      while p < |tracks[k].items| && tracks[k].items[p] != o
        invariant p <= i
      {
        p := p + 1;
      }
      OneIndex(tracks, before, k, p, i);
      WithoutItemGone(tracks, index, k, p, before);
      Detach(id, k, p);
      ghost var after := TrackValues(tracks);
      LacksKeepsOrder(before, after, k, p);
      RecalcTotal();
      assert TrackValues(tracks) == after;
      return true;
    }

    /** Takes the item at place `p` of track `k` out of the index and out of its track. */
    method Detach(id: string, k: nat, p: nat)
      requires Valid() && k < |tracks| && p < |tracks[k].items|
      requires tracks[k].items[p].item.id == id
      modifies this`tracks, this`index, tracks[k].items[p]
      ensures var a := old(TrackValues(tracks)); LacksAt(a, TrackValues(tracks), k, p)
      ensures HomedBy(tracks, TrackValues(tracks)) && IndexAgrees(tracks, index, TrackValues(tracks))
      ensures index == old(index) - {id}
      ensures var o := old(tracks[k].items[p]);
        o.item == old(o.item).(state := if old(o.item.state) in {Active, Preloaded} then Aborted else old(o.item.state))
    {
      hide HomedBy, IndexAgrees, Derived, TotalOf, TrackValues, Objects, RemoveAt, WithoutItem;
      ghost var v := TrackValues(tracks);
      ValuesWithoutItem(tracks, k, p);
      WithoutItemHomed(tracks, k, p, v);
      WithoutItemIndexed(tracks, index, k, p, v);
      WithoutItemGone(tracks, index, k, p, v);
      var o := tracks[k].items[p];
      index := index - {id};
      var kept := WithoutItem(tracks, k, p);
      ghost var after := TrackValues(kept);
      if o.item.state == Active || o.item.state == Preloaded {
        o.item := o.item.(state := Aborted);
      }
      assert TrackValues(kept) == after;
      tracks := kept;
    }

    /** Changes an item in place, wherever it sits. Its track is not put in order again. */
    method UpdateItem(id: string, change: Item -> Item) returns (ok: bool)
      requires Valid()
      modifies this`total, Objects(tracks)
      ensures ok == (id in index)
      ensures !ok ==> View() == old(View())
      ensures ok ==> Updated(old(View()), View(), id, change)
      ensures Valid() <==> (ok ==> Keeps(change, old(index[id].item)))
    {
      hide HomedBy, IndexAgrees, Derived, Sorted, SlotsApart, TotalOf, TrackValues, Objects;
      if id !in index {
        return false;
      }
      ghost var before := TrackValues(tracks);
      ghost var t, i := Located(tracks, index, before, id);
      var o := index[id];
      ghost var it := Refreshed(change(o.item));
      ChangeKeepsDerived(before, t, i, it);
      if Keeps(change, o.item) {
        ChangeKeepsHome(tracks, before, t, i, it);
        ChangeKeepsIndex(tracks, index, before, t, i, it);
      } else {
        ChangeBreaks(tracks, index, before, t, i, it);
      }
      assert InRange(View(), t, i);
      Store(o, Refreshed(change(o.item)), t, i);
      RecalcTotal();
      assert TrackValues(tracks) == WithChange(before, t, i, it);
      return true;
    }

    /** Overwrites the item at place `i` of track `t`. */
    method Store(o: ItemPtr, it: Item, ghost t: nat, ghost i: nat)
      requires HomedBy(tracks, TrackValues(tracks)) && InTracks(tracks, t, i) && tracks[t].items[i] == o
      modifies o
      ensures |old(TrackValues(tracks))[t].items| == |tracks[t].items|
      ensures TrackValues(tracks) == WithChange(old(TrackValues(tracks)), t, i, it) && o.item == it
    {
      ghost var v := TrackValues(tracks);
      assert Distinct(tracks[t].items);
      forall k | 0 <= k < |tracks| && k != t
        ensures o !in tracks[k].items
      {
        assert AllOn(v[k].items, k) && AllOn(v[t].items, t) && v[t].items[i].track == t;
        assert forall j :: 0 <= j < |tracks[k].items| ==> v[k].items[j] == tracks[k].items[j].item;
      }
      o.item := it;
      forall k | 0 <= k < |tracks|
        ensures TrackValue(tracks[k]) == WithChange(v, t, i, it)[k]
      {
        if k == t {
          assert TrackValue(tracks[k]).items == v[k].items[i := it];
        } else {
          assert TrackValue(tracks[k]).items == v[k].items;
        }
      }
    }

    // ---- configuring ----

    /** Replaces the tracks. Items find their way back through the index; those whose track is gone are dropped. */
    method ConfigureTracks(cfgs: seq<TrackConfig>) returns (code: int)
      requires Valid()
      modifies this`tracks, this`index, this`total
      ensures code == if AnyNegative(cfgs) then 1002 else 0
      ensures code != OK ==> View() == old(View()) && tracks == old(tracks) && index == old(index)
      ensures Valid()
      ensures code == OK ==>
        && |tracks| == TrackCount(cfgs, |cfgs|)
        && (forall t :: 0 <= t < |tracks| ==> tracks[t].(items := []) == Configured(cfgs, |cfgs|, t))
        && Rehomed(old(tracks), tracks) && Rising(TrackValues(tracks))
        && KeptIndex(old(index), index, |tracks|)
        && (old(SlotsApart(TrackValues(tracks))) ==> Sorted(TrackValues(tracks)))
        && (old(Sorted(TrackValues(tracks))) ==> SameItems(old(tracks), tracks))
    {
      hide HomedBy, IndexAgrees, Derived, TotalOf, TrackValues, Objects, Rehomed, Rising, KeptIndex, Configured, Sorted, SlotsApart, SameItems;
      var count: nat := 0;
      var c: nat := 0;
      while c < |cfgs|
        invariant c <= |cfgs| && count == TrackCount(cfgs, c)
        invariant forall i :: 0 <= i < c ==> 0 <= cfgs[i].index
      {
        if cfgs[c].index < 0 {
          return BAD_PARAM;
        }
        if count < cfgs[c].index + 1 {
          count := cfgs[c].index + 1;
        }
        c := c + 1;
      }
      TrackCountCovers(cfgs, |cfgs|);
      Rebuild(cfgs, count);
      return OK;
    }

    method Rebuild(cfgs: seq<TrackConfig>, count: nat)
      requires Valid() && forall c :: 0 <= c < |cfgs| ==> 0 <= cfgs[c].index < count
      modifies this`tracks, this`index, this`total
      ensures Valid() && |tracks| == count
      ensures forall t :: 0 <= t < |tracks| ==> tracks[t].(items := []) == Configured(cfgs, |cfgs|, t)
      ensures Rehomed(old(tracks), tracks) && Rising(TrackValues(tracks))
      ensures KeptIndex(old(index), index, |tracks|)
      ensures old(SlotsApart(TrackValues(tracks))) ==> Sorted(TrackValues(tracks))
      ensures old(Sorted(TrackValues(tracks))) ==> SameItems(old(tracks), tracks)
    {
      hide Sorted, SlotsApart, SameItems, AllClimbing, HomedBy, IndexAgrees, Derived, TotalOf, TrackValues, Objects, Named, Homed, Rehomed, Rising, KeptOf;
      ghost var before := TrackValues(tracks);
      var blank := BlankTracks(cfgs, count);
      assert TrackValues(tracks) == before;
      HomedByValues(tracks);
      AgreeingNames(tracks, index);
      var piled, kept := Migrate(blank);
      var next := SortTracks(piled);
      assert TrackValues(tracks) == before;
      HomedByValues(tracks);
      AgreeingNames(tracks, index);
      RehomedAgrees(tracks, index, next, kept);
      RehomedSorted(tracks, next);
      ghost var after := TrackValues(next);
      tracks := next;
      index := kept;
      RecalcTotal();
      assert TrackValues(tracks) == after;
    }

    /** The tracks the configurations ask for, still empty. */
    static method BlankTracks(cfgs: seq<TrackConfig>, count: nat) returns (blank: seq<TrackRef>)
      requires forall i :: 0 <= i < |cfgs| ==> 0 <= cfgs[i].index < count
      ensures |blank| == count && forall t :: 0 <= t < count ==> blank[t] == Configured(cfgs, |cfgs|, t)
    {
      blank := seq(count, t requires 0 <= t < count => TrackRef(Audio, "轨 " + Digits(t), false, []));
      var c: nat := 0;
      while c < |cfgs|
        invariant c <= |cfgs| && |blank| == count
        invariant forall t :: 0 <= t < count ==> blank[t] == Configured(cfgs, c, t)
      {
        blank := blank[cfgs[c].index := TrackRef(cfgs[c].kind, cfgs[c].name, cfgs[c].enabled, [])];
        c := c + 1;
      }
    }

    /** Puts every indexed item into the track it names, dropping those whose track is gone. */
    method Migrate(blank: seq<TrackRef>) returns (piled: seq<TrackRef>, kept: map<string, ItemPtr>)
      requires Homed(tracks) && Named(Objects(tracks), index)
      requires forall t :: 0 <= t < |blank| ==> blank[t].items == []
      ensures |piled| == |blank| && forall t :: 0 <= t < |blank| ==> piled[t].(items := []) == blank[t]
      ensures Rehomed(tracks, piled) && Named(Objects(tracks), index)
      ensures KeptIndex(index, kept, |piled|)
    {
      hide Homed, Objects, Piles, KeptOf, Named, WithObject, Rehomed;
      ghost var done: set<string> := {};
      var ids := index.Keys;
      piled, kept := blank, index;
      NoPiles(blank, Objects(tracks));
      KeptNone(index, |piled|);
      while ids != {}
        invariant done + ids == index.Keys && done !! ids
        invariant |piled| == |blank|
        invariant forall t :: 0 <= t < |blank| ==> piled[t].(items := []) == blank[t]
        invariant Piles(piled, Objects(tracks), done) && KeptOf(index, kept, done, |piled|)
        invariant Homed(tracks) && Named(Objects(tracks), index)
        decreases |ids|
      {
        var id :| id in ids;
        var o := index[id];
        PileAdd(piled, Objects(tracks), index, done, id);
        KeptStep(index, kept, done, |piled|, id);
        if o.item.track < 0 || |piled| <= o.item.track {
          kept := kept - {id};
        } else {
          KindsKept(piled, o.item.track, o);
          piled := WithObject(piled, o.item.track, o);
        }
        ids := ids - {id};
        done := done + {id};
      }
      assert done == index.Keys;
      PilesAreTracks(piled, tracks, index);
    }

    method SortTracks(piled: seq<TrackRef>) returns (next: seq<TrackRef>)
      requires Rehomed(tracks, piled)
      ensures |next| == |piled| && forall t :: 0 <= t < |piled| ==> next[t].(items := []) == piled[t].(items := [])
      ensures Rehomed(tracks, next) && AllClimbing(next)
    {
      next := piled;
      var k: nat := 0;
      while k < |next|
        invariant k <= |next| == |piled|
        invariant forall t :: 0 <= t < |piled| ==> next[t].(items := []) == piled[t].(items := [])
        invariant Rehomed(tracks, next) && forall t :: 0 <= t < k ==> Climbing(next[t].items)
      {
        var sorted := SortByStart(next[k].items);
        next := next[k := next[k].(items := sorted)];
        k := k + 1;
      }
    }
  }
}
