/** The playlist executor object: performing and advancing call each other until execution settles. */
module PlaylistExecutor {
  import opened Results
  import opened Playlist

  /** How many items away execution from item `i` settles. */
  function Distance(items: seq<Item>, loop: LoopMode, i: int): nat {
    if !(0 <= i < |items|) || loop == LoopCurrent then 0
    else
      var j := FirstPlayable(items, i);
      if j == |items| && loop == LoopAll then j - i + FirstPlayable(items, 0) else j - i
  }

  lemma DistanceStep(items: seq<Item>, loop: LoopMode, i: int)
    requires 0 <= i < |items| && !Playable(items[i]) && Settles(items, loop, i)
    ensures Settles(items, loop, Following(items, loop, i))
    ensures Distance(items, loop, i) == Distance(items, loop, Following(items, loop, i)) + 1
  {
  }

  lemma ExecuteOutside(p: Executor, now: int)
    requires !(0 <= p.index < |p.items|)
    ensures Settles(p.items, p.loop, p.index) && Execute(p, now) == (p.(state := Ended), [ListEnded("end")])
  {
  }

  lemma ExecutePlayable(p: Executor, now: int)
    requires 0 <= p.index < |p.items| && Playable(p.items[p.index]) && Settles(p.items, p.loop, p.index)
    ensures Execute(p, now) == (Performed(p, p.index, now), PerformReport(p, p.index))
  {
    assert FirstPlayable(p.items, p.index) == p.index;
    assert SkipReport(p.items, p.index, p.index) == [];
    assert [] + PerformReport(p, p.index) == PerformReport(p, p.index);
  }

  /** Skipping the current item first. */
  lemma ExecuteSkips(p: Executor, now: int)
    requires 0 <= p.index < |p.items| && !Playable(p.items[p.index]) && Settles(p.items, p.loop, p.index)
    ensures Settles(p.items, p.loop, Following(p.items, p.loop, p.index))
    ensures var r := Advance(p, now, SkipReason(p.items[p.index]));
      Execute(p, now) == (r.0, [Error(NOT_SUPPORTED)] + r.1)
  {
    DistanceStep(p.items, p.loop, p.index);
    if FirstPlayable(p.items, p.index) < |p.items| {
      SkipsAhead(p, now);
    } else {
      SkipsToEnd(p, now);
    }
  }

  lemma SkipsAhead(p: Executor, now: int)
    requires 0 <= p.index < |p.items| && !Playable(p.items[p.index]) && Settles(p.items, p.loop, p.index)
    requires Settles(p.items, p.loop, Following(p.items, p.loop, p.index))
    requires FirstPlayable(p.items, p.index) < |p.items|
    ensures var r := Advance(p, now, SkipReason(p.items[p.index]));
      Execute(p, now) == (r.0, [Error(NOT_SUPPORTED)] + r.1)
  {
    hide PerformReport, Performed, SkipReason;
    var i := p.index;
    var j := FirstPlayable(p.items, i);
    var next := p.(index := i + 1);
    assert j == FirstPlayable(p.items, i + 1);
    SamePerformance(p, next, j, now);
    var rest := SkipReport(p.items, i + 1, j) + PerformReport(p, j);
    var reason := SkipReason(p.items[i]);
    assert Execute(next, now) == (Performed(p, j, now), rest);
    assert SkipReport(p.items, i, j) + PerformReport(p, j)
        == [Error(NOT_SUPPORTED)] + ([ItemEnded(i, reason)] + [Advanced(i + 1, p.items[i + 1].trigger)] + rest);
  }

  /** What is reported after the end of the list. */
  function PastEnd(p: Executor): seq<Event>
    requires p.items != [] && (p.loop == LoopAll ==> FirstPlayable(p.items, 0) < |p.items|)
  {
    if p.loop == LoopAll then
      var k := FirstPlayable(p.items, 0);
      [Advanced(0, p.items[0].trigger)] + SkipReport(p.items, 0, k) + PerformReport(p, k)
    else [ListEnded("end")]
  }

  lemma RunsOut(p: Executor, now: int)
    requires 0 <= p.index < |p.items| && Settles(p.items, p.loop, p.index)
    requires FirstPlayable(p.items, p.index) == |p.items|
    ensures Execute(p, now).1 == SkipReport(p.items, p.index, |p.items|) + PastEnd(p)
    ensures Execute(p, now).0 == if p.loop == LoopAll then Performed(p, FirstPlayable(p.items, 0), now)
                                 else p.(state := Ended, index := |p.items|)
  {
    hide PerformReport, Performed;
    if p.loop == LoopAll {
      var k := FirstPlayable(p.items, 0);
      assert SkipReport(p.items, p.index, |p.items|) + [Advanced(0, p.items[0].trigger)] + SkipReport(p.items, 0, k) + PerformReport(p, k)
          == SkipReport(p.items, p.index, |p.items|) + PastEnd(p);
    }
  }

  lemma SkipsToEnd(p: Executor, now: int)
    requires 0 <= p.index < |p.items| && !Playable(p.items[p.index]) && Settles(p.items, p.loop, p.index)
    requires Settles(p.items, p.loop, Following(p.items, p.loop, p.index))
    requires FirstPlayable(p.items, p.index) == |p.items|
    ensures var r := Advance(p, now, SkipReason(p.items[p.index]));
      Execute(p, now) == (r.0, [Error(NOT_SUPPORTED)] + r.1)
  {
    hide Performed, SkipReason, PerformReport, SkipReport, StepReport;
    RunsOut(p, now);
    var i, n := p.index, |p.items|;
    var reason := SkipReason(p.items[i]);
    var next := p.(index := Following(p.items, p.loop, i));
    assert n == FirstPlayable(p.items, i + 1);
    if p.loop == LoopAll {
      SamePerformance(p, next, FirstPlayable(p.items, 0), now);
    }
    assert PastEnd(next) == PastEnd(p);
    if i + 1 < n {
      hide Execute, PastEnd;
      RunsOut(next, now);
      SkipOne(p.items, i, PastEnd(p));
    } else {
      SkipLast(p, next, now, reason);
    }
  }

  lemma SkipOne(items: seq<Item>, i: nat, tail: seq<Event>)
    requires i + 1 < |items|
    ensures SkipReport(items, i, |items|) + tail ==
      [Error(NOT_SUPPORTED)] + ([ItemEnded(i, SkipReason(items[i]))] + [Advanced(i + 1, items[i + 1].trigger)]
                                + (SkipReport(items, i + 1, |items|) + tail))
  {
    hide SkipReason;
  }

  lemma SkipLast(p: Executor, next: Executor, now: int, reason: string)
    requires 0 <= p.index == |p.items| - 1 && !Playable(p.items[p.index]) && Settles(p.items, p.loop, p.index)
    requires reason == SkipReason(p.items[p.index]) && next == p.(index := Following(p.items, p.loop, p.index))
    requires Settles(next.items, next.loop, next.index)
    ensures SkipReport(p.items, p.index, |p.items|) + PastEnd(p) ==
      [Error(NOT_SUPPORTED)] + ([ItemEnded(p.index, reason)]
        + (if next.index < |p.items| then [Advanced(next.index, p.items[next.index].trigger)] else []) + Execute(next, now).1)
    ensures Execute(next, now).0 == if p.loop == LoopAll then Performed(p, FirstPlayable(p.items, 0), now)
                                    else p.(state := Ended, index := |p.items|)
  {
    hide Performed, PerformReport;
    assert SkipReport(p.items, |p.items|, |p.items|) == [];
    if p.loop == LoopAll {
      SamePerformance(p, next, FirstPlayable(p.items, 0), now);
    }
  }

  lemma SamePerformance(p: Executor, q: Executor, j: nat, now: int)
    requires j < |p.items| && q == p.(index := q.index)
    ensures Performed(q, j, now) == Performed(p, j, now) && PerformReport(q, j) == PerformReport(p, j)
  {
  }

  // ---- whether starting returns ----

  /** Where execution from item `i` settles, if it does within `fuel` items. */
  function SettlesWithin(items: seq<Item>, loop: LoopMode, i: int, fuel: nat): Option<int>
    decreases fuel
  {
    if fuel == 0 then None
    else if !(0 <= i < |items|) || Playable(items[i]) then Some(i)
    else SettlesWithin(items, loop, Following(items, loop, i), fuel - 1)
  }

  lemma {:induction false} SettlesInTime(items: seq<Item>, loop: LoopMode, i: int)
    requires Settles(items, loop, i)
    ensures SettlesWithin(items, loop, i, Distance(items, loop, i) + 1).Some?
    decreases Distance(items, loop, i)
  {
    if 0 <= i < |items| && !Playable(items[i]) {
      DistanceStep(items, loop, i);
      SettlesInTime(items, loop, Following(items, loop, i));
    }
  }

  lemma {:induction false} NeverSettles(items: seq<Item>, loop: LoopMode, i: int, fuel: nat)
    requires !Settles(items, loop, i)
    ensures SettlesWithin(items, loop, i, fuel) == None
    decreases fuel
  {
    if fuel != 0 {
      assert loop == LoopAll ==> forall k :: 0 <= k < |items| ==> !Playable(items[k]);
      NeverSettles(items, loop, Following(items, loop, i), fuel - 1);
    }
  }

  /** Performing and advancing stop calling each other exactly when the list does not loop, or loops over some
      playable item, or repeats an item that is playable. */
  lemma SettlesIff(items: seq<Item>, loop: LoopMode, i: int)
    ensures (exists fuel :: SettlesWithin(items, loop, i, fuel).Some?) <==> Settles(items, loop, i)
  {
    if Settles(items, loop, i) {
      SettlesInTime(items, loop, i);
    } else {
      forall fuel
        ensures SettlesWithin(items, loop, i, fuel) == None
      {
        NeverSettles(items, loop, i, fuel);
      }
    }
  }

  /** So a list of one segment, looping, is skipped over for ever. */
  lemma LoneSegmentNeverSettles(fuel: nat)
    ensures var items := [Item("a", 0, Segment, "", Auto, 0, Meta(0, 0, "", ""))];
      SettlesWithin(items, LoopAll, 0, fuel) == None && SettlesWithin(items, LoopCurrent, 0, fuel) == None
  {
    var items := [Item("a", 0, Segment, "", Auto, 0, Meta(0, 0, "", ""))];
    assert !Playable(items[0]);
    assert FirstPlayable(items, 0) == 1;
    NeverSettles(items, LoopAll, 0, fuel);
    NeverSettles(items, LoopCurrent, 0, fuel);
  }

  // ---- the state between operations ----

  lemma ExecuteSteady(p: Executor, now: int)
    requires Settles(p.items, p.loop, p.index)
    ensures Steady(Execute(p, now).0) && Execute(p, now).0.items == p.items
  {
  }

  /** Under way always means at a playable item, and every operation but starting always returns. */
  lemma ApplySteady(p: Executor, op: Op)
    requires Steady(p) && Returns(p, op)
    ensures Steady(Apply(p, op).0) && Apply(p, op).0.items == p.items
  {
    hide Execute, Settles;
    match op
    case StartOp =>
      if p.state == Loaded && p.items != [] {
        ExecuteSteady(p.(state := Running, index := 0), 0);
      }
    case ResumeOp =>
      if p.state == Paused {
        SettlesHere(p);
        ExecuteSteady(p.(state := Running), 0);
      }
    case GoOp =>
      if p.state == WaitingGo {
        AdvanceSteady(p.(state := Running), 0, "go");
      }
    case NextOp =>
      if p.state == Running || p.state == WaitingGo {
        AdvanceSteady(p.(state := Running), 0, "next");
      }
    case TickOp(now, mediaDone) =>
      if p.state == Running {
        AdvanceSteady(p, now, "auto");
        AdvanceSteady(p.(waiting := false), now, "delay_complete");
      }
    case _ =>
  }

  lemma SettlesHere(p: Executor)
    requires 0 <= p.index < |p.items| && Playable(p.items[p.index])
    ensures Settles(p.items, p.loop, p.index)
  {
    assert FirstPlayable(p.items, 0) <= p.index;
  }

  lemma AdvanceSteady(p: Executor, now: int, reason: string)
    requires 0 <= p.index < |p.items| && Playable(p.items[p.index])
    ensures Settles(p.items, p.loop, Following(p.items, p.loop, p.index))
    ensures Steady(Advance(p, now, reason).0) && Advance(p, now, reason).0.items == p.items
  {
    hide Execute;
    FollowingSettles(p.items, p.loop, p.index);
    ExecuteSteady(p.(index := Following(p.items, p.loop, p.index)), now);
  }

  // ---- loading ----

  ghost predicate InOrder(items: seq<Item>) {
    forall i, j :: 0 <= i < j < |items| ==> items[i].sortIndex <= items[j].sortIndex
  }

  ghost predicate SortedFrom(items: seq<Item>, list: seq<Item>) {
    InOrder(items) && multiset(items) == multiset(list)
  }

  method SortItems(list: seq<Item>) returns (items: seq<Item>)
    ensures SortedFrom(items, list)
  {
    hide SortedFrom;
    items := [];
    NothingSorted();
    var n: nat := 0;
    while n < |list|
      invariant n <= |list|
      invariant SortedFrom(items, list[..n])
    {
      var p: nat := |items|;
      while 0 < p && list[n].sortIndex < items[p - 1].sortIndex
        invariant p <= |items|
        invariant forall i :: p <= i < |items| ==> list[n].sortIndex < items[i].sortIndex
      {
        p := p - 1;
      }
      InsertSorted(items, p, list[n], list[..n]);
      assert list[..n + 1] == list[..n] + [list[n]];
      items := items[..p] + [list[n]] + items[p..];
      n := n + 1;
    }
    assert list[..n] == list;
  }

  lemma NothingSorted()
    ensures SortedFrom([], [])
  {
  }

  lemma InsertSorted(items: seq<Item>, p: nat, it: Item, from: seq<Item>)
    requires p <= |items| && SortedFrom(items, from)
    requires forall i :: p <= i < |items| ==> it.sortIndex < items[i].sortIndex
    requires 0 < p ==> items[p - 1].sortIndex <= it.sortIndex
    ensures SortedFrom(items[..p] + [it] + items[p..], from + [it])
  {
    hide InOrder;
    InsertInOrder(items, p, it);
    InsertSame(items, p, it);
  }

  lemma InsertSame(items: seq<Item>, p: nat, it: Item)
    requires p <= |items|
    ensures multiset(items[..p] + [it] + items[p..]) == multiset(items) + multiset{it}
  {
    assert items == items[..p] + items[p..];
  }

  lemma InsertInOrder(items: seq<Item>, p: nat, it: Item)
    requires p <= |items| && InOrder(items)
    requires forall i :: p <= i < |items| ==> it.sortIndex < items[i].sortIndex
    requires 0 < p ==> items[p - 1].sortIndex <= it.sortIndex
    ensures InOrder(items[..p] + [it] + items[p..])
  {
  }

  class PlaylistExecutor {
    var items: seq<Item>
    var state: ExecState
    var index: int
    var loop: LoopMode
    var listId: string
    var waiting: bool
    var delayStart: int
    var delayTarget: int
    var log: seq<Event>  // every call and event so far

    ghost function View(): Executor
      reads this
    {
      Executor(items, state, index, loop, listId, waiting, delayStart, delayTarget)
    }

    constructor ()
      ensures View() == Executor([], Idle, -1, NoLoop, "", false, 0, 0) && log == []
    {
      items, state, index, loop, listId := [], Idle, -1, NoLoop, "";
      waiting, delayStart, delayTarget := false, 0, 0;
      log := [];
    }

    method Emit(e: Event)
      modifies this`log
      ensures log == old(log) + [e]
    {
      log := log + [e];
    }

    method ExecuteCurrent(now: int)
      requires Settles(items, loop, index)
      modifies this
      ensures View() == Execute(old(View()), now).0 && log == old(log) + Execute(old(View()), now).1
      decreases Distance(items, loop, index), 1
    {
      hide Execute, Distance, Advance, Settles;
      if index < 0 || |items| <= index {
        ExecuteOutside(View(), now);
        state := Ended;
        Emit(ListEnded("end"));
        return;
      }
      var it := items[index];
      if it.trigger == Timecode {
        ExecuteSkips(View(), now);
        DistanceStep(items, loop, index);
        Emit(Error(NOT_SUPPORTED));
        AdvanceFrom(now, "skipped_timecode");
        return;
      }
      if it.kind == Segment {
        ExecuteSkips(View(), now);
        DistanceStep(items, loop, index);
        Emit(Error(NOT_SUPPORTED));
        AdvanceFrom(now, "skipped_segment");
        return;
      }
      ExecutePlayable(View(), now);
      match it.kind {
        case Media => Emit(PlayMedia(it.ref, it.meta));
        case Scene => Emit(RecallScene(it.ref, it.meta.fadeMs));
        case Delay =>
          waiting := true;
          delayStart := now;
          delayTarget := if 0 < it.delayMs then it.delayMs else it.meta.delayMs;
        case Command =>
          if it.ref != "" {
            Emit(SendCommand(it.ref, it.meta.params));
          }
        case _ =>
      }
      Emit(ItemStarted(index, it.id, it.kind));
      Emit(Playing(listId, index, it.id));
    }

    method AdvanceFrom(now: int, reason: string)
      requires 0 <= index < |items| && Settles(items, loop, Following(items, loop, index))
      modifies this
      ensures View() == Advance(old(View()), now, reason).0 && log == old(log) + Advance(old(View()), now, reason).1
      decreases Distance(items, loop, Following(items, loop, index)) + 1, 0
    {
      hide Execute, Settles, Distance;
      Emit(ItemEnded(index, reason));
      if loop == LoopCurrent {
        if 0 <= index < |items| {
          Emit(Advanced(index, items[index].trigger));
        }
        ExecuteCurrent(now);
        return;
      }
      index := index + 1;
      if |items| <= index {
        if loop == LoopAll && items != [] {
          index := 0;
          Emit(Advanced(index, items[index].trigger));
          ExecuteCurrent(now);
        } else {
          ExecuteOutside(View(), now);
          state := Ended;
          Emit(ListEnded("end"));
        }
        return;
      }
      Emit(Advanced(index, items[index].trigger));
      ExecuteCurrent(now);
    }

    /** Takes a new list, in the order of its sort indices. */
    method Load(list: seq<Item>)
      modifies this
      ensures SortedFrom(items, list)
      ensures View() == old(View()).(items := items, index := -1, state := Loaded)
      ensures log == old(log) + [ListLoaded(|list|)] && Steady(View())
    {
      items := SortItems(list);
      assert |multiset(items)| == |multiset(list)|;
      index := -1;
      state := Loaded;
      Emit(ListLoaded(|items|));
    }

    /** Returns exactly when execution from the first item settles. */
    method Start()
      requires Steady(View()) && Returns(View(), StartOp)
      modifies this
      ensures Steady(View())
      ensures View() == Apply(old(View()), StartOp).0 && log == old(log) + Apply(old(View()), StartOp).1
    {
      ApplySteady(View(), StartOp);
      if state != Loaded {
        return;
      }
      if items == [] {
        Emit(Error(LIST_EMPTY));
        return;
      }
      state := Running;
      index := 0;
      ExecuteCurrent(0);
    }

    method Pause()
      requires Steady(View())
      modifies this
      ensures Steady(View())
      ensures View() == Apply(old(View()), PauseOp).0 && log == old(log) + Apply(old(View()), PauseOp).1
    {
      if state == Running || state == WaitingGo {
        Emit(StopMedia);
        state := Paused;
      }
    }

    method Resume()
      requires Steady(View())
      modifies this
      ensures Steady(View())
      ensures View() == Apply(old(View()), ResumeOp).0 && log == old(log) + Apply(old(View()), ResumeOp).1
    {
      ApplySteady(View(), ResumeOp);
      if state == Paused {
        state := Running;
        if 0 <= index && index < |items| {
          ExecuteCurrent(0);
        }
      }
    }

    method Stop()
      requires Steady(View())
      modifies this
      ensures Steady(View())
      ensures View() == Apply(old(View()), StopOp).0 && log == old(log) + Apply(old(View()), StopOp).1
    {
      Emit(StopMedia);
      state := Ended;
      Emit(ListEnded("manual_stop"));
    }

    method Go()
      requires Steady(View())
      modifies this
      ensures Steady(View())
      ensures View() == Apply(old(View()), GoOp).0 && log == old(log) + Apply(old(View()), GoOp).1
    {
      ApplySteady(View(), GoOp);
      if state == WaitingGo {
        FollowingSettles(items, loop, index);
        state := Running;
        AdvanceFrom(0, "go");
      }
    }

    method Next()
      requires Steady(View())
      modifies this
      ensures Steady(View())
      ensures View() == Apply(old(View()), NextOp).0 && log == old(log) + Apply(old(View()), NextOp).1
    {
      hide Execute, Advance, Settles;
      ApplySteady(View(), NextOp);
      if state == Running || state == WaitingGo {
        FollowingSettles(items, loop, index);
        Emit(StopMedia);
        state := Running;
        AdvanceFrom(0, "next");
      }
    }

    method IsCurrentDone(now: int, mediaDone: bool) returns (done: bool)
      ensures done == CurrentDone(View(), now, mediaDone)
    {
      if index < 0 || |items| <= index {
        return true;
      }
      match items[index].kind {
        case Media => return mediaDone;
        case Delay =>
          if waiting {
            return delayTarget <= now - delayStart;
          }
          return true;
        case _ => return true;
      }
    }

    method Tick(now: int, mediaDone: bool)
      requires Steady(View())
      modifies this
      ensures Steady(View())
      ensures View() == Apply(old(View()), TickOp(now, mediaDone)).0
      ensures log == old(log) + Apply(old(View()), TickOp(now, mediaDone)).1
    {
      ApplySteady(View(), TickOp(now, mediaDone));
      if state != Running {
        return;
      }
      if index < 0 || |items| <= index {
        return;
      }
      var done := IsCurrentDone(now, mediaDone);
      if !done {
        return;
      }
      FollowingSettles(items, loop, index);
      match items[index].trigger {
        case Auto => AdvanceFrom(now, "auto");
        case Go =>
          state := WaitingGo;
          Emit(WaitsForGo(index));
        case AfterDelay =>
          if !waiting {
            waiting := true;
            delayStart := now;
            delayTarget := items[index].delayMs;
          } else if delayTarget <= now - delayStart {
            waiting := false;
            AdvanceFrom(now, "delay_complete");
          }
        case Timecode => assert false;  // skipped items never run
      }
    }

    method SetLoopMode(mode: LoopMode)
      requires Steady(View())
      modifies this
      ensures Steady(View()) && View() == Apply(old(View()), SetLoop(mode)).0 && log == old(log)
    {
      loop := mode;
    }
  }
}
