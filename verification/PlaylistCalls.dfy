/** What a playlist run plays: over any run, in any loop mode, each item started is performed by exactly its own
    call. */
module PlaylistCalls {
  import opened Results
  import opened Playlist
  import opened PlaylistExecutor
  import opened PlaylistRuns

  predicate IsCall(e: Event) {
    e.PlayMedia? || e.RecallScene? || e.SendCommand?
  }

  /** Delays, and commands without a name, call for nothing. */
  predicate NeedsCall(it: Item) {
    it.kind == Media || it.kind == Scene || (it.kind == Command && it.ref != "")
  }

  /** Media is played with its metadata, a scene recalled with its fade, a command sent with its parameters. */
  predicate CallFor(it: Item, e: Event) {
    || (it.kind == Media && e == PlayMedia(it.ref, it.meta))
    || (it.kind == Scene && e == RecallScene(it.ref, it.meta.fadeMs))
    || (it.kind == Command && it.ref != "" && e == SendCommand(it.ref, it.meta.params))
  }

  predicate InList(items: seq<Item>, e: Event) {
    e.ItemStarted? && 0 <= e.index < |items|
    && e == ItemStarted(e.index, items[e.index].id, items[e.index].kind) && Playable(items[e.index])
  }

  /** The call at `k` comes directly before the start of the item it is for. */
  predicate LeadsAt(items: seq<Item>, log: seq<Event>, k: int)
    requires 0 <= k < |log|
  {
    k + 1 < |log| && InList(items, log[k + 1]) && CallFor(items[log[k + 1].index], log[k])
  }

  ghost predicate CallsLead(items: seq<Item>, log: seq<Event>) {
    forall k :: 0 <= k < |log| && IsCall(log[k]) ==> LeadsAt(items, log, k)
  }

  /** The start at `k` is that of a playable item of the list, comes directly after a call where it needs one, and is
      followed by the report that the item plays. */
  predicate FollowsAt(items: seq<Item>, list: string, log: seq<Event>, k: int)
    requires 0 <= k < |log| && log[k].ItemStarted?
  {
    && InList(items, log[k])
    && (NeedsCall(items[log[k].index]) ==> 0 < k && IsCall(log[k - 1]))
    && k + 1 < |log| && log[k + 1] == Playing(list, log[k].index, log[k].id)
  }

  ghost predicate StartsFollow(items: seq<Item>, list: string, log: seq<Event>) {
    forall k :: 0 <= k < |log| && log[k].ItemStarted? ==> FollowsAt(items, list, log, k)
  }

  /** The calls made, in order. */
  function Called(log: seq<Event>): seq<Event> {
    if log == [] then []
    else
      var init, e := log[..|log| - 1], log[|log| - 1];
      Called(init) + if IsCall(e) then [e] else []
  }

  /** The calls due for starting these items. */
  function Due(items: seq<Item>, starts: seq<int>): seq<Event>
    requires forall k :: 0 <= k < |starts| ==> 0 <= starts[k] < |items|
  {
    if starts == [] then []
    else
      var it := items[starts[|starts| - 1]];
      Due(items, starts[..|starts| - 1])
      + if it.kind == Media then [PlayMedia(it.ref, it.meta)]
        else if it.kind == Scene then [RecallScene(it.ref, it.meta.fadeMs)]
        else if it.kind == Command && it.ref != "" then [SendCommand(it.ref, it.meta.params)]
        else []
  }

  ghost predicate InRange(items: seq<Item>, starts: seq<int>) {
    forall k :: 0 <= k < |starts| ==> 0 <= starts[k] < |items|
  }

  lemma {:induction false} CalledConcat(a: seq<Event>, b: seq<Event>)
    ensures Called(a + b) == Called(a) + Called(b)
  {
    if b == [] {
      assert a + b == a;
    } else {
      assert (a + b)[..|a + b| - 1] == a + b[..|b| - 1];
      CalledConcat(a, b[..|b| - 1]);
    }
  }

  lemma {:induction false} DueConcat(items: seq<Item>, a: seq<int>, b: seq<int>)
    requires InRange(items, a) && InRange(items, b)
    ensures InRange(items, a + b) && Due(items, a + b) == Due(items, a) + Due(items, b)
  {
    if b == [] {
      assert a + b == a;
    } else {
      assert (a + b)[..|a + b| - 1] == a + b[..|b| - 1];
      DueConcat(items, a, b[..|b| - 1]);
    }
  }

  /** A log in which every start has its call and every call its start. */
  ghost predicate Performs(items: seq<Item>, list: string, log: seq<Event>) {
    && CallsLead(items, log) && StartsFollow(items, list, log)
    && InRange(items, Starts(log)) && Called(log) == Due(items, Starts(log))
  }

  lemma PerformsConcat(items: seq<Item>, list: string, a: seq<Event>, b: seq<Event>)
    requires Performs(items, list, a) && Performs(items, list, b)
    ensures Performs(items, list, a + b)
  {
    hide Starts, Called, Due, InRange, InList, CallFor, IsCall, NeedsCall;
    Tells(a, b);
    CalledConcat(a, b);
    DueConcat(items, Starts(a), Starts(b));
    CallsLeadConcat(items, a, b);
    StartsFollowConcat(items, list, a, b);
  }

  lemma CallsLeadConcat(items: seq<Item>, a: seq<Event>, b: seq<Event>)
    requires CallsLead(items, a) && CallsLead(items, b)
    ensures CallsLead(items, a + b)
  {
    forall k | 0 <= k < |a + b| && IsCall((a + b)[k])
      ensures LeadsAt(items, a + b, k)
    {
      if k < |a| {
        assert LeadsAt(items, a, k);
      } else {
        assert LeadsAt(items, b, k - |a|);
      }
    }
  }

  lemma StartsFollowConcat(items: seq<Item>, list: string, a: seq<Event>, b: seq<Event>)
    requires StartsFollow(items, list, a) && StartsFollow(items, list, b)
    ensures StartsFollow(items, list, a + b)
  {
    hide NeedsCall, IsCall;
    forall k | 0 <= k < |a + b| && (a + b)[k].ItemStarted?
      ensures FollowsAt(items, list, a + b, k)
    {
      if k < |a| {
        assert FollowsAt(items, list, a, k);
      } else {
        assert FollowsAt(items, list, b, k - |a|);
      }
    }
  }

  /** Neither a call nor a start. */
  predicate Inert(e: Event) {
    !IsCall(e) && !e.ItemStarted?
  }

  lemma {:induction false} InertPerforms(items: seq<Item>, list: string, log: seq<Event>)
    requires forall k :: 0 <= k < |log| ==> Inert(log[k])
    ensures Performs(items, list, log) && Starts(log) == [] && Called(log) == []
  {
    if log != [] {
      InertPerforms(items, list, log[..|log| - 1]);
    }
  }

  lemma PerformingPerforms(p: Executor, j: nat)
    requires j < |p.items| && Playable(p.items[j])
    ensures Performs(p.items, p.listId, PerformReport(p, j))
  {
    hide Starts, Called, Due, CallsLead, StartsFollow, PerformReport;
    PerformingTells(p, j);
    PerformingPaired(p, j);
    PerformingCalls(p, j);
    DueOne(p.items, j);
  }

  lemma PerformingPaired(p: Executor, j: nat)
    requires j < |p.items| && Playable(p.items[j])
    ensures CallsLead(p.items, PerformReport(p, j)) && StartsFollow(p.items, p.listId, PerformReport(p, j))
  {
  }

  lemma PerformingCalls(p: Executor, j: nat)
    requires j < |p.items|
    ensures InRange(p.items, [j]) && Called(PerformReport(p, j)) == Due(p.items, [j])
  {
    hide Called, Due;
    var it := p.items[j];
    var started, playing := [ItemStarted(j, it.id, it.kind)], [Playing(p.listId, j, it.id)];
    DueOne(p.items, j);
    CalledOne(started[0]);
    CalledOne(playing[0]);
    CalledConcat(started, playing);
    CalledConcat(PerformCalls(it), started + playing);
    assert PerformReport(p, j) == PerformCalls(it) + (started + playing);
    if NeedsCall(it) {
      CalledOne(PerformCalls(it)[0]);
      assert PerformCalls(it) == [PerformCalls(it)[0]];
      assert Due(p.items, [j]) == [Due(p.items, [j])[0]];
    } else {
      InertPerforms(p.items, p.listId, []);
      assert Due(p.items, [j]) == [];
    }
  }

  lemma CalledOne(e: Event)
    ensures Called([e]) == if IsCall(e) then [e] else []
  {
    assert [e][..0] == [];
  }

  lemma DueOne(items: seq<Item>, j: int)
    requires 0 <= j < |items|
    ensures InRange(items, [j])
    ensures var it := items[j];
      && |Due(items, [j])| == (if NeedsCall(it) then 1 else 0)
      && (NeedsCall(it) ==> CallFor(it, Due(items, [j])[0]))
  {
    assert [j][..0] == [];
  }

  lemma {:induction false} SkippingInert(items: seq<Item>, i: nat, j: nat)
    requires i <= j <= |items|
    ensures forall k :: 0 <= k < |SkipReport(items, i, j)| ==> Inert(SkipReport(items, i, j)[k])
    decreases j - i
  {
    if i < j {
      SkippingInert(items, i + 1, j);
    }
  }

  lemma ExecutingPerforms(p: Executor, now: int)
    requires Settles(p.items, p.loop, p.index)
    ensures Performs(p.items, p.listId, Execute(p, now).1)
  {
    hide Performs, PerformReport, SkipReport, Performed, Inert;
    var n, items, list := |p.items|, p.items, p.listId;
    InertOnes(items, list, ListEnded("end"));
    if 0 <= p.index < n {
      var j := FirstPlayable(items, p.index);
      SkippingInert(items, p.index, j);
      InertPerforms(items, list, SkipReport(items, p.index, j));
      if j < n {
        PerformingPerforms(p, j);
        PerformsConcat(items, list, SkipReport(items, p.index, j), PerformReport(p, j));
      } else if p.loop == LoopAll {
        var k := FirstPlayable(items, 0);
        var back := [Advanced(0, items[0].trigger)];
        InertOnes(items, list, back[0]);
        SkippingInert(items, 0, k);
        InertPerforms(items, list, SkipReport(items, 0, k));
        PerformingPerforms(p, k);
        PerformsConcat(items, list, SkipReport(items, p.index, n), back);
        PerformsConcat(items, list, SkipReport(items, p.index, n) + back, SkipReport(items, 0, k));
        PerformsConcat(items, list, SkipReport(items, p.index, n) + back + SkipReport(items, 0, k), PerformReport(p, k));
      } else {
        PerformsConcat(items, list, SkipReport(items, p.index, n), [ListEnded("end")]);
      }
    }
  }

  lemma InertOnes(items: seq<Item>, list: string, e: Event)
    ensures Inert(e) ==> Performs(items, list, [e])
    ensures Performs(items, list, [])
    ensures e.Advanced? || e.ListEnded? || e.ItemEnded? || e.StopMedia? || e.WaitsForGo? || e.Error? ==> Inert(e)
  {
    InertPerforms(items, list, []);
    if Inert(e) {
      InertPerforms(items, list, [e]);
    }
  }

  lemma AdvancingPerforms(p: Executor, now: int, reason: string)
    requires 0 <= p.index < |p.items| && Settles(p.items, p.loop, Following(p.items, p.loop, p.index))
    ensures Performs(p.items, p.listId, Advance(p, now, reason).1)
  {
    hide Performs, Execute, Inert, Settles;
    var i := Following(p.items, p.loop, p.index);
    var next := p.(index := i);
    ExecutingPerforms(next, now);
    InertOnes(p.items, p.listId, ItemEnded(p.index, reason));
    var ended := [ItemEnded(p.index, reason)];
    if i < |p.items| {
      InertOnes(p.items, p.listId, Advanced(i, p.items[i].trigger));
      PerformsConcat(p.items, p.listId, ended, [Advanced(i, p.items[i].trigger)]);
      PerformsConcat(p.items, p.listId, ended + [Advanced(i, p.items[i].trigger)], Execute(next, now).1);
    } else {
      assert ended + [] == ended;
      PerformsConcat(p.items, p.listId, ended, Execute(next, now).1);
    }
  }

  lemma OpPerforms(p: Executor, op: Op)
    requires Steady(p) && Returns(p, op)
    ensures Performs(p.items, p.listId, Apply(p, op).1)
  {
    hide Performs, Execute, Advance, Settles, Inert;
    InertOnes(p.items, p.listId, StopMedia);
    match op
    case StartOp =>
      InertOnes(p.items, p.listId, Error(LIST_EMPTY));
      if p.state == Loaded && p.items != [] {
        ExecutingPerforms(p.(state := Running, index := 0), 0);
      }
    case ResumeOp =>
      if p.state == Paused {
        SettlesHere(p);
        ExecutingPerforms(p.(state := Running), 0);
      }
    case StopOp =>
      InertOnes(p.items, p.listId, ListEnded("manual_stop"));
      PerformsConcat(p.items, p.listId, [StopMedia], [ListEnded("manual_stop")]);
      assert [StopMedia, ListEnded("manual_stop")] == [StopMedia] + [ListEnded("manual_stop")];
    case GoOp =>
      if p.state == WaitingGo {
        FollowingSettles(p.items, p.loop, p.index);
        AdvancingPerforms(p.(state := Running), 0, "go");
      }
    case NextOp =>
      if p.state == Running || p.state == WaitingGo {
        FollowingSettles(p.items, p.loop, p.index);
        AdvancingPerforms(p.(state := Running), 0, "next");
        PerformsConcat(p.items, p.listId, [StopMedia], Advance(p.(state := Running), 0, "next").1);
      }
    case TickOp(now, mediaDone) =>
      if p.state == Running {
        FollowingSettles(p.items, p.loop, p.index);
        AdvancingPerforms(p, now, "auto");
        AdvancingPerforms(p.(waiting := false), now, "delay_complete");
        InertOnes(p.items, p.listId, WaitsForGo(p.index));
      }
    case _ =>
  }

  lemma KeepsList(p: Executor, op: Op)
    requires Steady(p) && Returns(p, op)
    ensures Apply(p, op).0.listId == p.listId
  {
    hide SkipReport, PerformReport, StepReport;
  }

  /** Any operations at all; `None` when a start does not return. */
  function RunAny(p: Executor, ops: seq<Op>): Option<(Executor, seq<Event>)> {
    if ops == [] then Some((p, []))
    else
      match RunAny(p, ops[..|ops| - 1])
      case None => None
      case Some((q, log)) =>
        if Steady(q) && Returns(q, ops[|ops| - 1]) then
          var (next, l) := Apply(q, ops[|ops| - 1]);
          Some((next, log + l))
        else None
  }

  /** Over any run of any operations, in any loop mode: the calls made are exactly those due for the items started, in
      order and once for each start; each comes directly before its item's start. */
  lemma {:induction false} RunPerforms(p: Executor, ops: seq<Op>)
    requires Steady(p) && RunAny(p, ops).Some?
    ensures var (q, log) := RunAny(p, ops).value;
      Performs(p.items, p.listId, log) && Steady(q) && q.items == p.items && q.listId == p.listId
  {
    hide Performs, Apply, Steady, Returns;
    if ops == [] {
      InertOnes(p.items, p.listId, StopMedia);
    } else {
      var init, op := ops[..|ops| - 1], ops[|ops| - 1];
      RunPerforms(p, init);
      var (q, log) := RunAny(p, init).value;
      OpPerforms(q, op);
      KeepsList(q, op);
      ApplySteady(q, op);
      PerformsConcat(p.items, p.listId, log, Apply(q, op).1);
    }
  }

  /** Steady executors return from every operation but a start from the first item, so runs of those never stick. */
  lemma {:induction false} RunGoesOn(p: Executor, ops: seq<Op>)
    requires Steady(p) && forall k :: 0 <= k < |ops| ==> !ops[k].StartOp?
    ensures RunAny(p, ops).Some? && Steady(RunAny(p, ops).value.0)
  {
    hide Apply, Steady;
    if ops != [] {
      RunGoesOn(p, ops[..|ops| - 1]);
      var q := RunAny(p, ops[..|ops| - 1]).value.0;
      assert Returns(q, ops[|ops| - 1]);
      ApplySteady(q, ops[|ops| - 1]);
    }
  }

  // ---- what comes next ----

  lemma SettledWhere(p: Executor, now: int)
    requires Settles(p.items, p.loop, p.index) && p.state == Running
    ensures var q := Execute(p, now).0;
      if !(0 <= p.index < |p.items|) then q.state == Ended
      else if FirstPlayable(p.items, p.index) < |p.items| then
        q.state == Running && q.index == FirstPlayable(p.items, p.index)
      else if p.loop == LoopAll then q.state == Running && q.index == FirstPlayable(p.items, 0) < |p.items|
      else q.state == Ended
  {
  }

  lemma SkippingStartsNothing(items: seq<Item>, i: nat, j: nat)
    requires i <= j <= |items|
    ensures Starts(SkipReport(items, i, j)) == []
  {
    hide *;
    SkippingInert(items, i, j);
    InertPerforms(items, "", SkipReport(items, i, j));
  }

  /** Skipping up to an item and performing it starts that one. */
  lemma SkipThenStart(p: Executor, i: nat, j: nat)
    requires i <= j < |p.items|
    ensures Starts(SkipReport(p.items, i, j) + PerformReport(p, j)) == [j]
  {
    hide *;
    SkippingStartsNothing(p.items, i, j);
    PerformingTells(p, j);
    Tells(SkipReport(p.items, i, j), PerformReport(p, j));
    assert [] + [j] == [j];
  }

  /** Executing starts the item the executor settles at, and nothing else. */
  lemma ExecuteStarts(p: Executor, now: int)
    requires Settles(p.items, p.loop, p.index) && p.state == Running
    ensures Starts(Execute(p, now).1) == if Execute(p, now).0.state == Ended then [] else [Execute(p, now).0.index]
  {
    hide Starts, PerformReport, SkipReport, Performed;
    var n, items := |p.items|, p.items;
    TellsOne(ListEnded("end"));
    SettledWhere(p, now);
    if 0 <= p.index < n {
      var j, k := FirstPlayable(items, p.index), FirstPlayable(items, 0);
      if j < n {
        SkipThenStart(p, p.index, j);
      } else {
        SkippingStartsNothing(items, p.index, n);
        if p.loop == LoopAll {
          var back := [Advanced(0, items[0].trigger)];
          TellsOne(back[0]);
          SkipThenStart(p, 0, k);
          Tells(SkipReport(items, p.index, n), back);
          Tells(SkipReport(items, p.index, n) + back, SkipReport(items, 0, k) + PerformReport(p, k));
          assert Execute(p, now).1 == SkipReport(items, p.index, n) + back + (SkipReport(items, 0, k) + PerformReport(p, k));
        } else {
          Tells(SkipReport(items, p.index, n), [ListEnded("end")]);
        }
      }
    }
  }

  /** The item that follows `i`: itself when one item loops; otherwise the next playable one in list order, going on
      from the first item when the list loops; none when the list is over. */
  ghost predicate Follows(items: seq<Item>, loop: LoopMode, i: nat, starts: seq<int>) {
    match loop
    case LoopCurrent => starts == [i]
    case NoLoop =>
      if starts == [] then forall m :: i < m < |items| ==> !Playable(items[m])
      else |starts| == 1 && i < starts[0] < |items| && Playable(items[starts[0]])
           && forall m :: i < m < starts[0] ==> !Playable(items[m])
    case LoopAll =>
      |starts| == 1 && 0 <= starts[0] < |items| && Playable(items[starts[0]])
      && if i < starts[0] then forall m :: i < m < starts[0] ==> !Playable(items[m])
         else (forall m :: i < m < |items| ==> !Playable(items[m])) && forall m :: 0 <= m < starts[0] ==> !Playable(items[m])
  }

  lemma AdvanceReports(p: Executor, now: int, reason: string)
    requires p.state == Running && 0 <= p.index < |p.items| && Settles(p.items, p.loop, Following(p.items, p.loop, p.index))
    ensures var (q, l) := Advance(p, now, reason);
      && l[0] == ItemEnded(p.index, reason)
      && Starts(l) == if q.state == Ended then [] else [q.index]
  {
    hide Starts, Execute;
    var i := Following(p.items, p.loop, p.index);
    var next := p.(index := i);
    ExecuteStarts(next, now);
    var ended := [ItemEnded(p.index, reason)];
    TellsOne(ended[0]);
    if i < |p.items| {
      var on := [Advanced(i, p.items[i].trigger)];
      TellsOne(on[0]);
      Tells(ended, on);
      Tells(ended + on, Execute(next, now).1);
    } else {
      assert ended + [] == ended;
      Tells(ended, Execute(next, now).1);
    }
  }

  /** Leaving an item ends it, and starts the one that follows in this loop mode. */
  lemma AdvanceStarts(p: Executor, now: int, reason: string)
    requires p.state == Running && 0 <= p.index < |p.items| && Playable(p.items[p.index])
    ensures Settles(p.items, p.loop, Following(p.items, p.loop, p.index))
    ensures var (q, l) := Advance(p, now, reason);
      && l[0] == ItemEnded(p.index, reason) && Follows(p.items, p.loop, p.index, Starts(l))
      && (q.state == Ended <==> Starts(l) == [])
  {
    FollowingSettles(p.items, p.loop, p.index);
    AdvanceReports(p, now, reason);
    SettledWhere(p.(index := Following(p.items, p.loop, p.index)), now);
    hide Starts, Execute;
  }

  // ---- when a tick leads on ----

  /** A delay that leads on by itself, performed at `start`, is ended by a tick exactly when its delay has passed. */
  lemma DelayLasts(p: Executor, start: int, now: int, mediaDone: bool)
    requires 0 <= p.index < |p.items| && Playable(p.items[p.index])
    requires p.state == Running && p.items[p.index].kind == Delay && p.items[p.index].trigger == Auto
    requires Settles(p.items, p.loop, p.index)
    ensures var q, it := Execute(p, start).0, p.items[p.index];
      var delay := if 0 < it.delayMs then it.delayMs else it.meta.delayMs;
      && q.state == Running && q.index == p.index && Steady(q)
      && (TickAt(q, now, mediaDone) == (q, []) <==> now < start + delay)
  {
    hide PerformReport;
    var q := Execute(p, start).0;
    FollowingSettles(q.items, q.loop, q.index);
    assert now >= q.delayStart + q.delayTarget ==> |Advance(q, now, "auto").1| > 0;
  }

  /** An item that leads on after a delay, its content over at `over`, is left exactly when its delay has passed since
      then. */
  lemma TriggerDelayLasts(p: Executor, over: int, now: int)
    requires Steady(p) && p.state == Running && p.items[p.index].trigger == AfterDelay && p.items[p.index].kind != Delay
    requires !p.waiting
    ensures var (q, l) := TickAt(p, over, true);
      && l == [] && q.state == Running && q.items == p.items && q.index == p.index && Steady(q)
      && (TickAt(q, now, true).1 == [] <==> now < over + p.items[p.index].delayMs)
  {
    var q := TickAt(p, over, true).0;
    FollowingSettles(p.items, p.loop, p.index);
    assert |Advance(q.(waiting := false), now, "delay_complete").1| > 0;
  }

  /** Media under way is left alone until it is over; then an item that waits for a go is held, and a go leaves it. */
  lemma GoIsAwaited(p: Executor, now: int, mediaDone: bool)
    requires Steady(p) && p.state == Running && p.items[p.index].trigger == Go && p.items[p.index].kind == Media
    ensures TickAt(p, now, mediaDone) == if mediaDone then (p.(state := WaitingGo), [WaitsForGo(p.index)]) else (p, [])
    ensures var q := p.(state := WaitingGo);
      Steady(q) && TickAt(q, now, mediaDone) == (q, []) && Apply(q, GoOp).1[0] == ItemEnded(p.index, "go")
  {
    FollowingSettles(p.items, p.loop, p.index);
    hide Execute;
  }

  /** A list paused and resumed starts the item it was at once more, and no other; until then no tick moves it. */
  lemma ResumesWhereItWas(p: Executor, now: int, mediaDone: bool)
    requires Steady(p) && (p.state == Running || p.state == WaitingGo)
    ensures var q := Apply(p, PauseOp).0;
      && q.state == Paused && Steady(q) && TickAt(q, now, mediaDone) == (q, []) && Apply(q, GoOp) == (q, [])
      && Apply(q, NextOp) == (q, [])
      && Apply(q, ResumeOp).0.state == Running && Apply(q, ResumeOp).0.index == p.index
      && Starts(Apply(q, ResumeOp).1) == [p.index]
  {
    hide Starts, Execute;
    var q := p.(state := Running);
    FollowingSettles(p.items, p.loop, p.index);
    SettlesHere(p.(state := Paused));
    ExecuteStarts(q, 0);
    SettledWhere(q, 0);
  }

  /** An empty list does not start. */
  lemma EmptyIsRefused(p: Executor)
    requires Steady(p) && p.items == []
    ensures Apply(p, StartOp) == (p, if p.state == Loaded then [Error(5002)] else [])
  {
  }

  /** Media is stopped by pausing, by going on to the next item and by stopping, and by nothing else. */
  lemma StopsMediaIff(p: Executor, op: Op)
    requires Steady(p) && Returns(p, op)
    ensures StopMedia in Apply(p, op).1 <==>
              op == StopOp || ((op == PauseOp || op == NextOp) && (p.state == Running || p.state == WaitingGo))
  {
    hide Execute, Advance, Settles;
    var underWay := p.(state := Running);
    if op == NextOp && (p.state == Running || p.state == WaitingGo) {
      FollowingSettles(p.items, p.loop, p.index);
      assert ([StopMedia] + Advance(underWay, 0, "next").1)[0] == StopMedia;
    }
    match op
    case StartOp =>
      if p.state == Loaded && p.items != [] {
        ExecuteHushesNothing(p.(state := Running, index := 0), 0);
      }
    case ResumeOp =>
      if p.state == Paused {
        SettlesHere(p);
        ExecuteHushesNothing(underWay, 0);
      }
    case GoOp =>
      if p.state == WaitingGo {
        FollowingSettles(p.items, p.loop, p.index);
        AdvanceHushesNothing(underWay, 0, "go");
      }
    case TickOp(now, mediaDone) =>
      if p.state == Running {
        FollowingSettles(p.items, p.loop, p.index);
        AdvanceHushesNothing(p, now, "auto");
        AdvanceHushesNothing(p.(waiting := false), now, "delay_complete");
      }
    case _ =>
  }

  lemma {:induction false} SkippingHushesNothing(items: seq<Item>, i: nat, j: nat)
    requires i <= j <= |items|
    ensures StopMedia !in SkipReport(items, i, j)
    decreases j - i
  {
    hide SkipReason;
    if i < j {
      SkippingHushesNothing(items, i + 1, j);
      var step := [Error(5003)] + StepReport(items, i, SkipReason(items[i]));
      assert StopMedia !in step;
      assert SkipReport(items, i, j) == step + SkipReport(items, i + 1, j);
    }
  }

  lemma ExecuteHushesNothing(p: Executor, now: int)
    requires Settles(p.items, p.loop, p.index)
    ensures StopMedia !in Execute(p, now).1
  {
    hide SkipReport, Performed;
    if 0 <= p.index < |p.items| {
      SkippingHushesNothing(p.items, p.index, FirstPlayable(p.items, p.index));
      SkippingHushesNothing(p.items, 0, FirstPlayable(p.items, 0));
    }
  }

  lemma AdvanceHushesNothing(p: Executor, now: int, reason: string)
    requires 0 <= p.index < |p.items| && Settles(p.items, p.loop, Following(p.items, p.loop, p.index))
    ensures StopMedia !in Advance(p, now, reason).1
  {
    hide Execute;
    ExecuteHushesNothing(p.(index := Following(p.items, p.loop, p.index)), now);
  }
}
