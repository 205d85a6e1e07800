/** Which ticks happened does not matter: after ticks that never go back, every item is where its times say,
    and what was called for it depends only on where playback began and where it has got to. */
module TimelineTicks {
  import opened Results
  import opened Timeline
  import opened TimelineRuns

  /** Nothing but ticks, at positions that never go back. */
  ghost predicate Forward(ticks: seq<Op>) {
    && (forall k :: 0 <= k < |ticks| ==> ticks[k].TickAt?)
    && (forall j, k :: 0 <= j < k < |ticks| ==> ticks[j].pos <= ticks[k].pos)
  }

  /** The position of the latest tick. */
  function Latest(ticks: seq<Op>): Option<int>
    requires forall k :: 0 <= k < |ticks| ==> ticks[k].TickAt?
  {
    if ticks == [] then None else Some(ticks[|ticks| - 1].pos)
  }

  predicate Reached(last: Option<int>, x: int) {
    last.Some? && x <= last.value
  }

  /** What has been called for an item when the playhead has reached `last` after starting at `from`. */
  function CalledBy(kind: TrackType, it: Item, from: int, last: Option<int>): seq<Effect> {
    if !Reached(last, it.start) then []
    else if IsMedia(kind) then Begun(it) + if Reached(last, EndOf(it)) then Over("done") else []
    else if kind == Scene && it.start <= from then []
    else AtOnce(kind, it)
  }

  /** The state of an item by its times alone; `None` stands for not begun. */
  function PhaseBy(kind: TrackType, it: Item, from: int, last: Option<int>): Option<ItemState> {
    if kind == Scene && it.start <= from then Some(Done)
    else if !Reached(last, it.start) then None
    else if IsMedia(kind) && !Reached(last, EndOf(it)) then Some(Active)
    else Some(Done)
  }

  ghost predicate InPhase(state: ItemState, phase: Option<ItemState>) {
    match phase
    case None => state == Scheduled || state == Preloaded
    case Some(p) => state == p
  }

  /** An item of an enabled track is where its times say. */
  ghost predicate ByTimes(kind: TrackType, it: Item, mine: seq<Effect>, from: int, last: Option<int>) {
    InPhase(it.state, PhaseBy(kind, it, from, last)) && mine == CalledBy(kind, it, from, last)
  }

  lemma ByTimesTick(kind: TrackType, it: Item, mine: seq<Effect>, from: int, last: Option<int>, pos: int, accept: Accepts)
    requires ByTimes(kind, it, mine, from, last)
    requires last.Some? ==> last.value <= pos
    ensures ByTimes(kind, StepItem(kind, it, pos, accept).0, mine + StepEssence(kind, it, pos, accept), from, Some(pos))
  {
    hide EndOf;
    match kind {
      case Audio => MediaByTimesTick(kind, it, mine, from, last, pos, accept);
      case Video => MediaByTimesTick(kind, it, mine, from, last, pos, accept);
      case _ =>
    }
  }

  lemma MediaByTimesTick(kind: TrackType, it: Item, mine: seq<Effect>, from: int, last: Option<int>, pos: int,
                         accept: Accepts)
    requires IsMedia(kind) && ByTimes(kind, it, mine, from, last)
    requires last.Some? ==> last.value <= pos
    ensures ByTimes(kind, StepItem(kind, it, pos, accept).0, mine + StepEssence(kind, it, pos, accept), from, Some(pos))
  {
    var after := StepItem(kind, it, pos, accept).0;
    assert EndOf(after) == EndOf(it);
    hide EndOf;
    assert Begun(after) == Begun(it);
    assert Begun(it) + [] == Begun(it);
  }

  /** Once an item has settled, going further changes nothing. */
  lemma ByTimesPast(kind: TrackType, it: Item, mine: seq<Effect>, from: int, last: Option<int>, pos: int)
    requires Settled(it) && ByTimes(kind, it, mine, from, last)
    requires last.Some? ==> last.value <= pos
    ensures ByTimes(kind, it, mine, from, Some(pos))
  {
  }

  /** After ticks that never go back, every item of an enabled track is where its times say: a media item is
      done once its end is reached, active between its start and its end; a command is done exactly once its
      start is reached, and a scene also when playback began past it. */
  lemma {:induction false} TicksGiveTimes(s: Schedule, from: int, ticks: seq<Op>, t: nat, i: nat)
    requires UniqueIds(s) && InRange(s, t, i) && s.tracks[t].enabled
    requires Forward(ticks)
    ensures var r := Run(Play(s, from), ticks);
            && SameShape(s, r.0) && UniqueIds(r.0) && InRange(r.0, t, i)
            && (r.0.play == Playing || (r.0.play == Stopped && Reached(Latest(ticks), s.total)))
            && (r.0.play == Stopped ==> Settled(ItemAt(r.0, t, i)))
            && ByTimes(s.tracks[t].kind, ItemAt(r.0, t, i), Mine(r.1, ItemAt(s, t, i).id), from, Latest(ticks))
  {
    hide UniqueIds, Mine, Essential;
    PlayItemwise(s, from, t, i);
    MineOfEmpty(ItemAt(s, t, i).id);
    if ticks != [] {
      var init, op := ticks[..|ticks| - 1], ticks[|ticks| - 1];
      TicksGiveTimes(s, from, init, t, i);
      var (before, log) := Run(Play(s, from), init);
      NextTick(s, before, log, from, Latest(init), op, t, i);
    }
  }

  lemma NextTick(s: Schedule, before: Schedule, log: seq<Logged>, from: int, last: Option<int>, op: Op, t: nat, i: nat)
    requires InRange(s, t, i) && s.tracks[t].enabled
    requires SameShape(s, before) && UniqueIds(before) && InRange(before, t, i)
    requires op.TickAt? && (last.Some? ==> last.value <= op.pos)
    requires before.play == Playing || (before.play == Stopped && Reached(last, s.total) && Settled(ItemAt(before, t, i)))
    requires ByTimes(s.tracks[t].kind, ItemAt(before, t, i), Mine(log, ItemAt(s, t, i).id), from, last)
    ensures var (after, l) := Apply(before, op);
            && SameShape(s, after) && UniqueIds(after) && InRange(after, t, i)
            && (after.play == Playing || (after.play == Stopped && op.pos >= s.total && Settled(ItemAt(after, t, i))))
            && ByTimes(s.tracks[t].kind, ItemAt(after, t, i), Mine(log + l, ItemAt(s, t, i).id), from, Some(op.pos))
  {
    hide StepItem, Essential, StepEssence, Own, ByTimes, AtOnce;
    var (after, l) := Apply(before, op);
    var it, id := ItemAt(before, t, i), ItemAt(s, t, i).id;
    ApplyItemwise(before, op, t, i);
    SameShapeTrans(s, before, after);
    SameShapeUnique(before, after);
    assert Static(s.tracks[t].items[i]) == Static(before.tracks[t].items[i]);
    assert SameTrackShape(s.tracks[t], before.tracks[t]);
    MineConcat(log, l, id);
    if before.play == Playing {
      StepEssential(s.tracks[t].kind, it, op.pos, op.accept);
      ByTimesTick(s.tracks[t].kind, it, Mine(log, id), from, last, op.pos, op.accept);
    } else {
      ByTimesPast(s.tracks[t].kind, it, Mine(log, id), from, last, op.pos);
      MineOfEmpty(id);
      assert Mine(log, id) + [] == Mine(log, id);
    }
  }

  lemma EndSame(a: Item, b: Item)
    requires Static(a) == Static(b)
    ensures EndOf(a) == EndOf(b) && a.duration == b.duration && a.id == b.id
  {
  }

  /** Tick granularity does not matter: two runs from the same point to the same position have made the same
      calls for every item, and left it in the same phase. */
  lemma GranularityIrrelevant(s: Schedule, from: int, fine: seq<Op>, coarse: seq<Op>, t: nat, i: nat)
    requires UniqueIds(s) && InRange(s, t, i) && s.tracks[t].enabled
    requires Forward(fine) && Forward(coarse) && Latest(fine) == Latest(coarse)
    ensures var a, b := Run(Play(s, from), fine), Run(Play(s, from), coarse);
            && InRange(a.0, t, i) && InRange(b.0, t, i)
            && Mine(a.1, ItemAt(s, t, i).id) == Mine(b.1, ItemAt(s, t, i).id)
            && (ItemAt(a.0, t, i).state == ItemAt(b.0, t, i).state
                || (ItemAt(a.0, t, i).state in {Scheduled, Preloaded} && ItemAt(b.0, t, i).state in {Scheduled, Preloaded}))
  {
    hide Run, Play, Mine, UniqueIds, CalledBy, Own;
    TicksGiveTimes(s, from, fine, t, i);
    TicksGiveTimes(s, from, coarse, t, i);
    var a, b := Run(Play(s, from), fine).0, Run(Play(s, from), coarse).0;
    SameStatic(s, a, t, i);
    SameStatic(s, b, t, i);
    SameTimes(s.tracks[t].kind, ItemAt(s, t, i), ItemAt(a, t, i), from, Latest(fine));
    SameTimes(s.tracks[t].kind, ItemAt(s, t, i), ItemAt(b, t, i), from, Latest(fine));
  }

  lemma SameStatic(a: Schedule, b: Schedule, t: nat, i: nat)
    requires SameShape(a, b) && InRange(a, t, i)
    ensures InRange(b, t, i) && Static(ItemAt(a, t, i)) == Static(ItemAt(b, t, i))
  {
    assert SameTrackShape(a.tracks[t], b.tracks[t]);
    assert Static(a.tracks[t].items[i]) == Static(b.tracks[t].items[i]);
  }

  lemma SameTimes(kind: TrackType, a: Item, b: Item, from: int, last: Option<int>)
    requires Static(a) == Static(b)
    ensures PhaseBy(kind, a, from, last) == PhaseBy(kind, b, from, last)
    ensures CalledBy(kind, a, from, last) == CalledBy(kind, b, from, last)
  {
    EndSame(a, b);
  }

  // ---- latency ----

  /** The first tick position that reaches `x`. */
  function FirstReach(ticks: seq<Op>, x: int): Option<int>
    requires forall k :: 0 <= k < |ticks| ==> ticks[k].TickAt?
  {
    if ticks == [] then None
    else if FirstReach(ticks[..|ticks| - 1], x).Some? then FirstReach(ticks[..|ticks| - 1], x)
    else if x <= ticks[|ticks| - 1].pos then Some(ticks[|ticks| - 1].pos)
    else None
  }

  lemma {:induction false} FirstReachIffReached(ticks: seq<Op>, x: int)
    requires Forward(ticks)
    ensures FirstReach(ticks, x).Some? <==> Reached(Latest(ticks), x)
    ensures FirstReach(ticks, x).Some? ==> x <= FirstReach(ticks, x).value
  {
    if ticks != [] {
      FirstReachIffReached(ticks[..|ticks| - 1], x);
    }
  }

  /** Ticks that never go back, the first no more than `gap` past `from` and each no more than `gap` past the one
      before. */
  ghost predicate GapsWithin(ticks: seq<Op>, from: int, gap: int) {
    && Forward(ticks)
    && (ticks != [] ==> ticks[0].pos - from <= gap)
    && forall k :: 0 < k < |ticks| ==> ticks[k].pos - ticks[k - 1].pos <= gap
  }

  /** Such ticks reach a position past `from` less than `gap` late. */
  lemma {:induction false} ReachedWithinGap(ticks: seq<Op>, from: int, gap: int, x: int)
    requires GapsWithin(ticks, from, gap) && from < x
    ensures FirstReach(ticks, x).Some? ==> x <= FirstReach(ticks, x).value < x + gap
  {
    if ticks != [] {
      var n := |ticks| - 1;
      ReachedWithinGap(ticks[..n], from, gap, x);
      FirstReachIffReached(ticks[..n], x);
      assert n != 0 ==> Latest(ticks[..n]) == Some(ticks[n - 1].pos);
    }
  }

  ghost predicate OnTime(it: Item, ticks: seq<Op>)
    requires Forward(ticks)
  {
    (it.state == Active || it.state == Done) ==> FirstReach(ticks, it.start) == Some(it.activeAt)
  }

  /** A media item is activated at the first tick that reaches its start. */
  lemma {:induction false} ActivatedAtFirstReach(s: Schedule, from: int, ticks: seq<Op>, t: nat, i: nat)
    requires UniqueIds(s) && InRange(s, t, i) && s.tracks[t].enabled
    requires Forward(ticks) && IsMedia(s.tracks[t].kind)
    ensures var r := Run(Play(s, from), ticks).0;
            InRange(r, t, i) && OnTime(ItemAt(r, t, i), ticks)
  {
    hide UniqueIds, CalledBy, PhaseBy, ApplyToItem, FirstReach, Play, Mine, Essential, Apply;
    TicksGiveTimes(s, from, ticks, t, i);
    PlayItemwise(s, from, t, i);
    if ticks != [] {
      var init, op := ticks[..|ticks| - 1], ticks[|ticks| - 1];
      ActivatedAtFirstReach(s, from, init, t, i);
      TicksGiveTimes(s, from, init, t, i);
      var before := Run(Play(s, from), init).0;
      ApplyItemwise(before, op, t, i);
      SameStatic(s, before, t, i);
      assert SameTrackShape(s.tracks[t], before.tracks[t]);
      FirstReachIffReached(init, ItemAt(s, t, i).start);
      OnTimeStep(s.tracks[t].kind, before.play, ItemAt(before, t, i), ticks, op, from);
    }
  }

  lemma OnTimeStep(kind: TrackType, play: PlayState, it: Item, ticks: seq<Op>, op: Op, from: int)
    requires Forward(ticks) && ticks != [] && op == ticks[|ticks| - 1] && IsMedia(kind)
    requires OnTime(it, ticks[..|ticks| - 1])
    requires InPhase(it.state, PhaseBy(kind, it, from, Latest(ticks[..|ticks| - 1])))
    requires FirstReach(ticks[..|ticks| - 1], it.start).Some? <==> Reached(Latest(ticks[..|ticks| - 1]), it.start)
    requires play == Playing || play == Stopped
    ensures OnTime(ApplyToItem(kind, true, play, it, op).0, ticks)
  {
  }

  /** The latency bound: when ticks are never more than `gap` apart, a media item that begins does so at or after its
      start and less than `gap` late. */
  lemma BegunWithinGap(s: Schedule, from: int, ticks: seq<Op>, gap: int, t: nat, i: nat)
    requires UniqueIds(s) && InRange(s, t, i) && s.tracks[t].enabled && IsMedia(s.tracks[t].kind)
    requires GapsWithin(ticks, from, gap) && from < ItemAt(s, t, i).start
    ensures var r := Run(Play(s, from), ticks).0;
            && InRange(r, t, i)
            && (ItemAt(r, t, i).state == Active || ItemAt(r, t, i).state == Done ==>
                  0 <= ItemAt(r, t, i).activeAt - ItemAt(s, t, i).start < gap)
  {
    hide Run, Play, FirstReach, UniqueIds, Mine, ByTimes;
    ActivatedAtFirstReach(s, from, ticks, t, i);
    TicksGiveTimes(s, from, ticks, t, i);
    SameStatic(s, Run(Play(s, from), ticks).0, t, i);
    ReachedWithinGap(ticks, from, gap, ItemAt(s, t, i).start);
  }

  // ---- preloading ----

  /** The preload requests among some effects. */
  function Preloads(effects: seq<Effect>): seq<Effect> {
    if effects == [] then []
    else
      var init, e := effects[..|effects| - 1], effects[|effects| - 1];
      Preloads(init) + if IsPreload(e) then [e] else []
  }

  lemma {:induction false} PreloadsConcat(a: seq<Effect>, b: seq<Effect>)
    ensures Preloads(a + b) == Preloads(a) + Preloads(b)
  {
    if b == [] {
      assert a + b == a;
    } else {
      assert (a + b)[..|a + b| - 1] == a + b[..|b| - 1];
      PreloadsConcat(a, b[..|b| - 1]);
    }
  }

  lemma {:induction false} NoPreloads(effects: seq<Effect>)
    requires NoPreload(effects)
    ensures Preloads(effects) == []
  {
    if effects != [] {
      NoPreloads(effects[..|effects| - 1]);
    }
  }

  predicate InWindow(it: Item, pos: int) {
    it.preloadAt <= pos < it.start
  }

  /** A tick that finds the item in its window and the media engine ready to take it. */
  predicate TakenAt(it: Item, op: Op) {
    op.TickAt? && InWindow(it, op.pos) && op.accept(it.id)
  }

  predicate TakenBy(it: Item, ticks: seq<Op>) {
    exists k :: 0 <= k < |ticks| && TakenAt(it, ticks[k])
  }

  lemma TakenByNext(it: Item, ticks: seq<Op>)
    requires ticks != []
    ensures TakenBy(it, ticks) <==> TakenBy(it, ticks[..|ticks| - 1]) || TakenAt(it, ticks[|ticks| - 1])
  {
    var init := ticks[..|ticks| - 1];
    if TakenBy(it, init) {
      var k :| 0 <= k < |init| && TakenAt(it, init[k]);
      assert TakenAt(it, ticks[k]);
    }
    if TakenBy(it, ticks) && !TakenAt(it, ticks[|ticks| - 1]) {
      var k :| 0 <= k < |ticks| && TakenAt(it, ticks[k]);
      assert TakenAt(it, init[k]);
    }
  }

  /** One request for each tick in the window, up to the first that is accepted. */
  function RequestsDue(it: Item, ticks: seq<Op>): seq<Effect> {
    if ticks == [] then []
    else
      var init, op := ticks[..|ticks| - 1], ticks[|ticks| - 1];
      RequestsDue(it, init)
      + (if !TakenBy(it, init) && op.TickAt? && InWindow(it, op.pos) then [MediaPreload(it.refUuid, it.meta)] else [])
  }

  /** What a tick requests for a media item, and when it leaves it preloaded. */
  lemma PreloadStep(kind: TrackType, it: Item, pos: int, accept: Accepts)
    requires IsMedia(kind)
    ensures Preloads(StepItem(kind, it, pos, accept).1)
         == if it.state == Scheduled && InWindow(it, pos) then [MediaPreload(it.refUuid, it.meta)] else []
    ensures pos < it.start && Waiting(it) ==>
              StepItem(kind, it, pos, accept).0.state
              == if it.state == Preloaded || (InWindow(it, pos) && accept(it.id)) then Preloaded else Scheduled
  {
    hide TryActivate, TryFinish, NoPreload;
    var (a, ea) := TryPreload(kind, it, pos, accept);
    var (b, eb) := TryActivate(kind, a, pos);
    var (c, ec) := TryFinish(kind, b, pos);
    PartsOfStep(kind, a, pos, accept);
    PartsOfStep(kind, b, pos, accept);
    NoPreloads(eb);
    NoPreloads(ec);
    PreloadsConcat(ea + eb, ec);
    PreloadsConcat(ea, eb);
    assert ea != [] ==> ea == [MediaPreload(it.refUuid, it.meta)] && ea[..0] == [];
    if pos < it.start && Waiting(it) {
      NotYet(kind, a, pos);
    }
  }

  lemma NotYet(kind: TrackType, it: Item, pos: int)
    requires Waiting(it) && pos < it.start
    ensures TryActivate(kind, it, pos).0 == it && TryFinish(kind, it, pos).0 == it
  {
  }

  /** After playing and any forward ticks, the preload requests made for a media item of an enabled track are those
      due: one for each tick in its window until one is accepted, each with its reference and metadata. */
  lemma {:induction false} PreloadsOfRun(s: Schedule, from: int, ticks: seq<Op>, t: nat, i: nat)
    requires UniqueIds(s) && InRange(s, t, i) && s.tracks[t].enabled && IsMedia(s.tracks[t].kind)
    requires Forward(ticks)
    ensures var r, it := Run(Play(s, from), ticks), ItemAt(s, t, i);
            && InRange(r.0, t, i) && Preloads(Own(r.1, it.id)) == RequestsDue(it, ticks)
            && (!Reached(Latest(ticks), it.start) ==>
                  ItemAt(r.0, t, i).state == if TakenBy(it, ticks) then Preloaded else Scheduled)
  {
    hide UniqueIds, Own, Mine, TakenBy, Apply, ByTimes;
    TicksGiveTimes(s, from, ticks, t, i);
    PlayItemwise(s, from, t, i);
    if ticks == [] {
      NothingTaken(ItemAt(s, t, i));
    } else {
      var init, op := ticks[..|ticks| - 1], ticks[|ticks| - 1];
      PreloadsOfRun(s, from, init, t, i);
      TicksGiveTimes(s, from, init, t, i);
      var (before, log) := Run(Play(s, from), init);
      TakenByNext(ItemAt(s, t, i), ticks);
      NextPreload(s, before, log, from, init, op, t, i);
    }
  }

  lemma NothingTaken(it: Item)
    ensures !TakenBy(it, []) && Own([], it.id) == [] && Preloads([]) == []
  {
  }

  lemma NextPreload(s: Schedule, before: Schedule, log: seq<Logged>, from: int, init: seq<Op>, op: Op, t: nat, i: nat)
    requires InRange(s, t, i) && s.tracks[t].enabled && IsMedia(s.tracks[t].kind)
    requires SameShape(s, before) && UniqueIds(before) && InRange(before, t, i)
    requires Forward(init) && op.TickAt? && (Latest(init).Some? ==> Latest(init).value <= op.pos)
    requires before.play == Playing || (before.play == Stopped && Settled(ItemAt(before, t, i)))
    requires ByTimes(s.tracks[t].kind, ItemAt(before, t, i), Mine(log, ItemAt(s, t, i).id), from, Latest(init))
    requires Preloads(Own(log, ItemAt(s, t, i).id)) == RequestsDue(ItemAt(s, t, i), init)
    requires !Reached(Latest(init), ItemAt(s, t, i).start) ==>
               ItemAt(before, t, i).state == if TakenBy(ItemAt(s, t, i), init) then Preloaded else Scheduled
    ensures var (after, l) := Apply(before, op);
            var it := ItemAt(s, t, i);
            && InRange(after, t, i)
            && Preloads(Own(log + l, it.id))
               == RequestsDue(it, init)
                  + (if !TakenBy(it, init) && InWindow(it, op.pos) then [MediaPreload(it.refUuid, it.meta)] else [])
            && (op.pos < it.start ==>
                  ItemAt(after, t, i).state == if TakenBy(it, init) || TakenAt(it, op) then Preloaded else Scheduled)
  {
    hide StepItem, Own, Mine, Apply, Preloads, TakenBy, RequestsDue;
    var it, was := ItemAt(s, t, i), ItemAt(before, t, i);
    ApplyItemwise(before, op, t, i);
    assert Static(s.tracks[t].items[i]) == Static(before.tracks[t].items[i]);
    assert SameTrackShape(s.tracks[t], before.tracks[t]);
    OwnConcat(log, Apply(before, op).1, it.id);
    PreloadsConcat(Own(log, it.id), Own(Apply(before, op).1, it.id));
    NothingTaken(it);
    if before.play == Playing {
      PreloadStep(s.tracks[t].kind, was, op.pos, op.accept);
    }
    assert RequestsDue(it, init) + [] == RequestsDue(it, init);
  }
}
