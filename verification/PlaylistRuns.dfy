/** Whole runs of a playlist without loops: every playable item is started once, in order. */
module PlaylistRuns {
  import opened Playlist
  import opened PlaylistExecutor

  // ---- what a log tells ----

  /** The positions of the items started, in order. */
  function Starts(log: seq<Event>): seq<int> {
    if log == [] then []
    else
      var e := log[|log| - 1];
      Starts(log[..|log| - 1]) + if e.ItemStarted? then [e.index] else []
  }

  /** The positions of the items ended, in order. */
  function Ends(log: seq<Event>): seq<int> {
    if log == [] then []
    else
      var e := log[|log| - 1];
      Ends(log[..|log| - 1]) + if e.ItemEnded? then [e.index] else []
  }

  /** How many items were refused. */
  function Refusals(log: seq<Event>): nat {
    if log == [] then 0
    else Refusals(log[..|log| - 1]) + if log[|log| - 1] == Error(5003) then 1 else 0
  }

  lemma {:induction false} Tells(a: seq<Event>, b: seq<Event>)
    ensures Starts(a + b) == Starts(a) + Starts(b)
    ensures Ends(a + b) == Ends(a) + Ends(b)
    ensures Refusals(a + b) == Refusals(a) + Refusals(b)
  {
    if b == [] {
      assert a + b == a;
    } else {
      assert (a + b)[..|a + b| - 1] == a + b[..|b| - 1];
      Tells(a, b[..|b| - 1]);
    }
  }

  lemma TellsOne(e: Event)
    ensures Starts([e]) == if e.ItemStarted? then [e.index] else []
    ensures Ends([e]) == if e.ItemEnded? then [e.index] else []
    ensures Refusals([e]) == if e == Error(5003) then 1 else 0
  {
    assert [e][..0] == [];
  }

  // ---- what a run should tell ----

  /** The playable positions below `n`, in order. */
  function PlayableBelow(items: seq<Item>, n: nat): seq<int>
    requires n <= |items|
  {
    if n == 0 then []
    else PlayableBelow(items, n - 1) + if Playable(items[n - 1]) then [n - 1] else []
  }

  function Below(n: nat): seq<int> {
    if n == 0 then [] else Below(n - 1) + [n - 1]
  }

  lemma {:induction false} NonePlayable(items: seq<Item>, i: nat, j: nat)
    requires i <= j <= |items| && forall k :: i <= k < j ==> !Playable(items[k])
    ensures PlayableBelow(items, j) == PlayableBelow(items, i)
    decreases j - i
  {
    if i < j {
      NonePlayable(items, i, j - 1);
    }
  }

  /** Log `log` has come to item `i`: all before it have ended, the playable ones among them were started, the
      others refused. */
  ghost predicate UpTo(items: seq<Item>, log: seq<Event>, i: nat)
    requires i <= |items|
  {
    && Starts(log) == PlayableBelow(items, i)
    && Ends(log) == Below(i)
    && Refusals(log) + |PlayableBelow(items, i)| == i
  }

  /** Where a run without loops is. */
  ghost predicate Progress(p: Executor, log: seq<Event>) {
    match p.state
    case Loaded => p.index == -1 && Starts(log) == [] && Ends(log) == [] && Refusals(log) == 0
    case Ended => p.index == |p.items| && UpTo(p.items, log, |p.items|)
    case Idle => false
    case Paused => false
    case _ =>
      && 0 <= p.index < |p.items| && Playable(p.items[p.index])
      && Starts(log) == PlayableBelow(p.items, p.index + 1)
      && Ends(log) == Below(p.index)
      && Refusals(log) + |PlayableBelow(p.items, p.index)| == p.index
  }

  // ---- one execution ----

  lemma {:induction false} SkippingTells(items: seq<Item>, log: seq<Event>, i: nat, j: nat)
    requires i <= j <= |items| && UpTo(items, log, i) && forall k :: i <= k < j ==> !Playable(items[k])
    ensures UpTo(items, log + SkipReport(items, i, j), j)
    decreases j - i
  {
    hide Starts, Ends, Refusals, SkipReason;
    if i == j {
      assert log + [] == log;
    } else {
      var step := [Error(NOT_SUPPORTED)] + StepReport(items, i, SkipReason(items[i]));
      StepTells(items, i);
      Tells(log, step);
      assert PlayableBelow(items, i + 1) == PlayableBelow(items, i);
      SkippingTells(items, log + step, i + 1, j);
      assert log + SkipReport(items, i, j) == log + step + SkipReport(items, i + 1, j);
    }
  }

  lemma StepTells(items: seq<Item>, i: nat)
    requires i < |items|
    ensures var step := [Error(NOT_SUPPORTED)] + StepReport(items, i, SkipReason(items[i]));
      Starts(step) == [] && Ends(step) == [i] && Refusals(step) == 1
  {
    hide Starts, Ends, Refusals, SkipReason;
    var ended := ItemEnded(i, SkipReason(items[i]));
    TellsOne(Error(NOT_SUPPORTED));
    TellsOne(ended);
    Tells([Error(NOT_SUPPORTED)], StepReport(items, i, SkipReason(items[i])));
    if i + 1 < |items| {
      TellsOne(Advanced(i + 1, items[i + 1].trigger));
      Tells([ended], [Advanced(i + 1, items[i + 1].trigger)]);
    } else {
      assert StepReport(items, i, SkipReason(items[i])) == [ended];
    }
  }

  lemma PerformingTells(p: Executor, j: nat)
    requires j < |p.items|
    ensures var r := PerformReport(p, j); Starts(r) == [j] && Ends(r) == [] && Refusals(r) == 0
  {
    hide Starts, Ends, Refusals;
    var it := p.items[j];
    TellsOne(ItemStarted(j, it.id, it.kind));
    TellsOne(Playing(p.listId, j, it.id));
    Tells([ItemStarted(j, it.id, it.kind)], [Playing(p.listId, j, it.id)]);
    assert [ItemStarted(j, it.id, it.kind), Playing(p.listId, j, it.id)]
        == [ItemStarted(j, it.id, it.kind)] + [Playing(p.listId, j, it.id)];
    CallsTell(it);
    Tells(PerformCalls(it), [ItemStarted(j, it.id, it.kind), Playing(p.listId, j, it.id)]);
  }

  lemma CallsTell(it: Item)
    ensures Starts(PerformCalls(it)) == [] && Ends(PerformCalls(it)) == [] && Refusals(PerformCalls(it)) == 0
  {
    hide Starts, Ends, Refusals;
    TellsNothing();
    TellsOne(PlayMedia(it.ref, it.meta));
    TellsOne(RecallScene(it.ref, it.meta.fadeMs));
    TellsOne(SendCommand(it.ref, it.meta.params));
  }

  lemma TellsNothing()
    ensures Starts([]) == [] && Ends([]) == [] && Refusals([]) == 0
  {
  }

  /** Executing from a position the log has come to. */
  lemma ExecutingTells(p: Executor, now: int, log: seq<Event>)
    requires p.loop == NoLoop && 0 <= p.index <= |p.items| && p.state == Running && UpTo(p.items, log, p.index)
    ensures Progress(Execute(p, now).0, log + Execute(p, now).1)
  {
    hide Starts, Ends, Refusals, PerformReport, SkipReport;
    var n := |p.items|;
    TellsOne(ListEnded("end"));
    if p.index == n {
      Tells(log, [ListEnded("end")]);
    } else {
      var j := FirstPlayable(p.items, p.index);
      var skipped := log + SkipReport(p.items, p.index, j);
      SkippingTells(p.items, log, p.index, j);
      if j < n {
        PerformingTells(p, j);
        Tells(skipped, PerformReport(p, j));
        assert log + Execute(p, now).1 == skipped + PerformReport(p, j);
      } else {
        Tells(skipped, [ListEnded("end")]);
        assert log + Execute(p, now).1 == skipped + [ListEnded("end")];
      }
    }
  }

  /** Leaving the current item. */
  lemma AdvancingTells(p: Executor, now: int, reason: string, log: seq<Event>)
    requires p.loop == NoLoop && p.state == Running && Progress(p, log)
    ensures Progress(Advance(p, now, reason).0, log + Advance(p, now, reason).1)
  {
    hide Starts, Ends, Refusals, Execute;
    var i := p.index + 1;
    var next := p.(index := i);
    TellsOne(ItemEnded(p.index, reason));
    Tells(log, [ItemEnded(p.index, reason)]);
    var ended := log + [ItemEnded(p.index, reason)];
    if i < |p.items| {
      var e := Advanced(i, p.items[i].trigger);
      TellsOne(e);
      Tells(ended, [e]);
      ExecutingTells(next, now, ended + [e]);
      assert log + Advance(p, now, reason).1 == ended + [e] + Execute(next, now).1;
    } else {
      ExecutingTells(next, now, ended);
      assert log + Advance(p, now, reason).1 == ended + Execute(next, now).1;
    }
  }

  // ---- runs ----

  /** Starting, ticking, going on by hand. */
  predicate Plain(op: Op) {
    op.StartOp? || op.TickOp? || op.GoOp? || op.NextOp?
  }

  lemma PlainTells(p: Executor, op: Op, log: seq<Event>)
    requires p.loop == NoLoop && Steady(p) && Plain(op) && Progress(p, log)
    ensures Progress(Apply(p, op).0, log + Apply(p, op).1) && Apply(p, op).0.loop == NoLoop
    ensures Steady(Apply(p, op).0) && Apply(p, op).0.items == p.items
  {
    hide Starts, Ends, Refusals, Execute, Advance;
    ApplySteady(p, op);
    KeepsLoop(p, op);
    assert log + [] == log;
    match op
    case StartOp =>
      TellsOne(Error(LIST_EMPTY));
      Tells(log, [Error(LIST_EMPTY)]);
      if p.state == Loaded && p.items != [] {
        ExecutingTells(p.(state := Running, index := 0), 0, log);
      }
    case GoOp =>
      if p.state == WaitingGo {
        AdvancingTells(p.(state := Running), 0, "go", log);
      }
    case NextOp =>
      if p.state == Running || p.state == WaitingGo {
        TellsOne(StopMedia);
        Tells(log, [StopMedia]);
        AdvancingTells(p.(state := Running), 0, "next", log + [StopMedia]);
        assert log + Apply(p, op).1 == log + [StopMedia] + Advance(p.(state := Running), 0, "next").1;
      }
    case TickOp(now, mediaDone) =>
      if p.state == Running {
        AdvancingTells(p, now, "auto", log);
        AdvancingTells(p.(waiting := false), now, "delay_complete", log);
        TellsOne(WaitsForGo(p.index));
        Tells(log, [WaitsForGo(p.index)]);
      }
  }

  lemma KeepsLoop(p: Executor, op: Op)
    requires p.loop == NoLoop && Steady(p) && Plain(op)
    ensures Apply(p, op).0.loop == NoLoop
  {
    hide SkipReport, PerformReport, StepReport;
  }

  function Run(p: Executor, ops: seq<Op>): (r: (Executor, seq<Event>))
    requires p.loop == NoLoop && Steady(p) && forall i :: 0 <= i < |ops| ==> Plain(ops[i])
    ensures Steady(r.0) && r.0.loop == NoLoop && r.0.items == p.items
  {
    if ops == [] then (p, [])
    else
      var (before, log) := Run(p, ops[..|ops| - 1]);
      KeepsLoop(before, ops[|ops| - 1]);
      ApplySteady(before, ops[|ops| - 1]);
      var (after, l) := Apply(before, ops[|ops| - 1]);
      (after, log + l)
  }

  lemma {:induction false} RunTells(p: Executor, ops: seq<Op>)
    requires p.loop == NoLoop && p.state == Loaded && p.index == -1
    requires forall i :: 0 <= i < |ops| ==> Plain(ops[i])
    ensures Progress(Run(p, ops).0, Run(p, ops).1)
  {
    hide Apply, Starts, Ends, Refusals;
    if ops == [] {
      TellsNothing();
    } else {
      var before := Run(p, ops[..|ops| - 1]);
      RunTells(p, ops[..|ops| - 1]);
      PlainTells(before.0, ops[|ops| - 1], before.1);
    }
  }

  /** After loading, under any starts, ticks, goes and nexts: the items started are, once each and in order, the
      first playable ones of the list, and all of them when the list has ended; by then every item has ended once,
      in order, and each one passed over has raised one refusal. */
  lemma StartedInOrder(p: Executor, ops: seq<Op>)
    requires p.loop == NoLoop && p.state == Loaded && p.index == -1
    requires forall i :: 0 <= i < |ops| ==> Plain(ops[i])
    ensures var (q, log) := Run(p, ops);
      && Starts(log) <= PlayableBelow(p.items, |p.items|)
      && Ends(log) <= Below(|p.items|)
      && (q.state == Ended ==>
            && Starts(log) == PlayableBelow(p.items, |p.items|)
            && Ends(log) == Below(|p.items|)
            && Refusals(log) == |p.items| - |Starts(log)|)
  {
    hide Starts, Ends, Refusals, Run;
    RunTells(p, ops);
    var q := Run(p, ops).0;
    if q.state == Running || q.state == WaitingGo {
      PlayablePrefix(p.items, q.index + 1, |p.items|);
      BelowPrefix(q.index, |p.items|);
    }
  }

  lemma {:induction false} PlayablePrefix(items: seq<Item>, i: nat, j: nat)
    requires i <= j <= |items|
    ensures PlayableBelow(items, i) <= PlayableBelow(items, j)
    decreases j - i
  {
    if i < j {
      PlayablePrefix(items, i, j - 1);
    }
  }

  lemma {:induction false} BelowPrefix(i: nat, j: nat)
    requires i <= j
    ensures Below(i) <= Below(j)
  {
    if i < j {
      BelowPrefix(i, j - 1);
    }
  }

  /** The list of playable positions is what it says. */
  lemma {:induction false} PlayableBelowIs(items: seq<Item>, n: nat)
    requires n <= |items|
    ensures var s := PlayableBelow(items, n);
      && (forall a, b :: 0 <= a < b < |s| ==> s[a] < s[b])
      && (forall i :: i in s <==> 0 <= i < n && Playable(items[i]))
  {
    if n != 0 {
      PlayableBelowIs(items, n - 1);
      var s := PlayableBelow(items, n - 1);
      assert forall a :: 0 <= a < |s| ==> s[a] in s;
    }
  }
}
