/** Whole runs of the timeline: exactly-once effects under any ticks, and independence from which ticks
    happened. */
module TimelineRuns {
  import opened Results
  import opened Timeline

  // ---- what concerns one item ----

  predicate IsPreload(e: Effect) {
    e.MediaPreload?
  }

  /** Effects other than preload requests. */
  function Essential(effects: seq<Effect>): seq<Effect> {
    if effects == [] then []
    else
      var init, e := effects[..|effects| - 1], effects[|effects| - 1];
      Essential(init) + if IsPreload(e) then [] else [e]
  }

  /** The effects made for item `id`, in order. */
  function Own(log: seq<Logged>, id: string): seq<Effect> {
    if log == [] then []
    else
      var init, l := log[..|log| - 1], log[|log| - 1];
      Own(init, id) + if l.id == id then [l.effect] else []
  }

  /** Those other than preload requests. */
  function Mine(log: seq<Logged>, id: string): seq<Effect> {
    Essential(Own(log, id))
  }

  lemma {:induction false} OwnConcat(a: seq<Logged>, b: seq<Logged>, id: string)
    ensures Own(a + b, id) == Own(a, id) + Own(b, id)
  {
    if b == [] {
      assert a + b == a;
    } else {
      var c := a + b;
      assert c[..|c| - 1] == a + b[..|b| - 1];
      OwnConcat(a, b[..|b| - 1], id);
    }
  }

  lemma MineConcat(a: seq<Logged>, b: seq<Logged>, id: string)
    ensures Mine(a + b, id) == Mine(a, id) + Mine(b, id)
  {
    OwnConcat(a, b, id);
    EssentialConcat(Own(a, id), Own(b, id));
  }

  lemma {:induction false} OwnTag(id: string, effects: seq<Effect>, other: string)
    ensures Own(Tag(id, effects), other) == if id == other then effects else []
  {
    if effects != [] {
      var init := effects[..|effects| - 1];
      assert Tag(id, effects)[..|effects| - 1] == Tag(id, init);
      OwnTag(id, init, other);
    }
  }

  // ---- structure ----

  ghost predicate InRange(s: Schedule, t: int, i: int) {
    0 <= t < |s.tracks| && 0 <= i < |s.tracks[t].items|
  }

  function ItemAt(s: Schedule, t: int, i: int): Item
    requires InRange(s, t, i)
  {
    s.tracks[t].items[i]
  }

  /** No two items share an id. */
  ghost predicate UniqueIds(s: Schedule) {
    forall t, i, t', i' {:trigger s.tracks[t].items[i], s.tracks[t'].items[i']} ::
      InRange(s, t, i) && InRange(s, t', i') && ItemAt(s, t, i).id == ItemAt(s, t', i').id ==> t == t' && i == i'
  }

  /** An item without its run-time state. */
  function Static(it: Item): Item {
    it.(state := Scheduled, activeAt := 0)
  }

  ghost predicate SameTrackShape(a: Track, b: Track) {
    && a.kind == b.kind && a.name == b.name && a.enabled == b.enabled && |a.items| == |b.items|
    && forall i :: 0 <= i < |a.items| ==> Static(a.items[i]) == Static(b.items[i])
  }

  /** `a` and `b` differ only in run-time state. */
  ghost predicate SameShape(a: Schedule, b: Schedule) {
    && |a.tracks| == |b.tracks| && a.total == b.total
    && forall t :: 0 <= t < |a.tracks| ==> SameTrackShape(a.tracks[t], b.tracks[t])
  }

  lemma SameShapeTrans(a: Schedule, b: Schedule, c: Schedule)
    requires SameShape(a, b) && SameShape(b, c)
    ensures SameShape(a, c)
  {
  }

  lemma SameShapeUnique(a: Schedule, b: Schedule)
    requires SameShape(a, b) && UniqueIds(a)
    ensures UniqueIds(b)
  {
    forall t, i, t', i' | InRange(b, t, i) && InRange(b, t', i') && ItemAt(b, t, i).id == ItemAt(b, t', i').id
      ensures t == t' && i == i'
    {
      assert Static(a.tracks[t].items[i]) == Static(b.tracks[t].items[i]);
      assert Static(a.tracks[t'].items[i']) == Static(b.tracks[t'].items[i']);
      assert InRange(a, t, i) && InRange(a, t', i');
    }
  }

  // ---- runs ----

  datatype Op = TickAt(pos: int, accept: Accepts) | PauseOp | ResumeOp | StopOp

  function Apply(s: Schedule, op: Op): (Schedule, seq<Logged>) {
    match op
    case TickAt(pos, accept) => Tick(s, pos, accept)
    case PauseOp => (Pause(s), [])
    case ResumeOp => (Resume(s), [])
    case StopOp => Stop(s)
  }

  function Run(s: Schedule, ops: seq<Op>): (Schedule, seq<Logged>) {
    if ops == [] then (s, [])
    else
      var (before, log) := Run(s, ops[..|ops| - 1]);
      var (after, l) := Apply(before, ops[|ops| - 1]);
      (after, log + l)
  }

  /** Operations that leave a schedule alone that does not play: ticks and pauses, and a resume once it is stopped. */
  ghost predicate Idle(s: Schedule, ops: seq<Op>) {
    s.play != Playing &&
    forall k :: 0 <= k < |ops| ==> ops[k].TickAt? || ops[k] == PauseOp || (ops[k] == ResumeOp && s.play == Stopped)
  }

  lemma {:induction false} StandsStill(s: Schedule, ops: seq<Op>)
    requires Idle(s, ops)
    ensures Run(s, ops) == (s, [])
  {
    if ops != [] {
      var init := ops[..|ops| - 1];
      assert forall k :: 0 <= k < |init| ==> init[k] == ops[k];
      StandsStill(s, init);
      assert Apply(s, ops[|ops| - 1]) == (s, []);
      assert Run(s, init).1 + [] == [];
    }
  }

  /** A pause that is resumed, whatever ticks and pauses come between, leaves no trace. */
  lemma PauseLeavesNoTrace(s: Schedule, between: seq<Op>)
    requires s.play == Playing && forall k :: 0 <= k < |between| ==> between[k].TickAt? || between[k] == PauseOp
    ensures Run(s, [PauseOp] + between + [ResumeOp]) == (s, [])
  {
    hide Tick;
    var ops := [PauseOp] + between;
    assert (ops + [ResumeOp])[..|ops|] == ops && (ops + [ResumeOp])[|ops|] == ResumeOp;
    PausedStandsStill(s, between);
  }

  lemma {:induction false} PausedStandsStill(s: Schedule, between: seq<Op>)
    requires s.play == Playing && forall k :: 0 <= k < |between| ==> between[k].TickAt? || between[k] == PauseOp
    ensures Run(s, [PauseOp] + between) == (s.(play := Paused), [])
  {
    var ops := [PauseOp] + between;
    if between == [] {
      assert ops == [PauseOp] && ops[..0] == [];
      assert Run(s, ops[..0]).1 + [] == [];
    } else {
      var init := between[..|between| - 1];
      assert ops[..|ops| - 1] == [PauseOp] + init;
      assert forall k :: 0 <= k < |init| ==> init[k] == between[k];
      PausedStandsStill(s, init);
      assert ops[|ops| - 1] == between[|between| - 1];
      assert Apply(s.(play := Paused), ops[|ops| - 1]) == (s.(play := Paused), []);
      assert Run(s, [PauseOp] + init).1 + [] == [];
    }
  }

  /** What an operation does to one item. */
  function ApplyToItem(kind: TrackType, enabled: bool, play: PlayState, it: Item, op: Op): (Item, seq<Effect>) {
    match op
    case TickAt(pos, accept) => if play == Playing && enabled then StepItem(kind, it, pos, accept) else (it, [])
    case StopOp => StopItem(kind, it)
    case _ => (it, [])
  }

  lemma StepItemStatic(kind: TrackType, it: Item, pos: int, accept: Accepts)
    ensures Static(StepItem(kind, it, pos, accept).0) == Static(it)
  {
  }

  // ---- an operation on every item, as one item sees it ----

  ghost predicate UniqueInTrack(t: Track) {
    forall i, j :: 0 <= i < |t.items| && 0 <= j < |t.items| && t.items[i].id == t.items[j].id ==> i == j
  }

  ghost predicate NoneHas(t: Track, id: string, n: nat)
    requires n <= |t.items|
  {
    forall i :: 0 <= i < n ==> t.items[i].id != id
  }

  lemma {:induction false} OwnOfNone(f: ItemFn, t: Track, n: nat, id: string)
    requires n <= |t.items| && NoneHas(t, id, n)
    ensures Own(MapItems(f, t, n).1, id) == []
  {
    hide Tag;
    if n != 0 {
      OwnOfNone(f, t, n - 1, id);
      var effects := f(t.kind, t.enabled, t.items[n - 1]).1;
      OwnConcat(MapItems(f, t, n - 1).1, Tag(t.items[n - 1].id, effects), id);
      OwnTag(t.items[n - 1].id, effects, id);
    }
  }

  lemma {:induction false} OwnOfItem(f: ItemFn, t: Track, n: nat, i: nat)
    requires i < n <= |t.items| && UniqueInTrack(t)
    ensures Own(MapItems(f, t, n).1, t.items[i].id) == f(t.kind, t.enabled, t.items[i]).1
  {
    hide Own, Tag;
    var id, effects := t.items[i].id, f(t.kind, t.enabled, t.items[n - 1]).1;
    OwnConcat(MapItems(f, t, n - 1).1, Tag(t.items[n - 1].id, effects), id);
    OwnTag(t.items[n - 1].id, effects, id);
    if i == n - 1 {
      OwnOfNone(f, t, n - 1, id);
    } else {
      OwnOfItem(f, t, n - 1, i);
    }
  }

  lemma UniqueIn(s: Schedule, t: nat, i: nat, k: nat)
    requires UniqueIds(s) && InRange(s, t, i) && k < |s.tracks|
    ensures UniqueInTrack(s.tracks[k])
    ensures k != t ==> NoneHas(s.tracks[k], ItemAt(s, t, i).id, |s.tracks[k].items|)
  {
    forall j | 0 <= j < |s.tracks[k].items| && k != t
      ensures s.tracks[k].items[j].id != ItemAt(s, t, i).id
    {
      assert InRange(s, k, j);
      assert s.tracks[t].items[i].id == s.tracks[k].items[j].id ==> k == t;
    }
    forall i', j | 0 <= i' < |s.tracks[k].items| && 0 <= j < |s.tracks[k].items| &&
                   s.tracks[k].items[i'].id == s.tracks[k].items[j].id
      ensures i' == j
    {
      assert InRange(s, k, i') && InRange(s, k, j);
    }
  }

  lemma NoneYet(f: ItemFn, tracks: seq<Track>, id: string)
    ensures Own(MapTracks(f, tracks, 0).1, id) == []
  {
  }

  lemma {:induction false} OwnOfTracks(f: ItemFn, s: Schedule, n: nat, t: nat, i: nat)
    requires n <= |s.tracks| && UniqueIds(s) && InRange(s, t, i)
    ensures Own(MapTracks(f, s.tracks, n).1, ItemAt(s, t, i).id)
         == if t < n then f(s.tracks[t].kind, s.tracks[t].enabled, ItemAt(s, t, i)).1 else []
  {
    hide Own, UniqueIds, NoneHas, UniqueInTrack;
    if n == 0 {
      NoneYet(f, s.tracks, ItemAt(s, t, i).id);
    } else {
      var id, last := ItemAt(s, t, i).id, s.tracks[n - 1];
      UniqueIn(s, t, i, n - 1);
      OwnOfTracks(f, s, n - 1, t, i);
      OwnConcat(MapTracks(f, s.tracks, n - 1).1, MapTrack(f, last).1, id);
      if t == n - 1 {
        OwnOfItem(f, last, |last.items|, i);
      } else {
        OwnOfNone(f, last, |last.items|, id);
      }
    }
  }

  /** Operations change only run-time state. */
  ghost predicate KeepsStatic(f: ItemFn) {
    forall kind, enabled, it :: Static(f(kind, enabled, it).0) == Static(it)
  }

  lemma OperationsKeepStatic(pos: int, accept: Accepts)
    ensures KeepsStatic(StepFn(pos, accept)) && KeepsStatic(ResetFn(pos)) && KeepsStatic(StopFn())
  {
    forall kind, enabled, it
      ensures Static(StepFn(pos, accept)(kind, enabled, it).0) == Static(it)
    {
      StepItemStatic(kind, it, pos, accept);
    }
  }

  lemma MapKeepsShape(f: ItemFn, s: Schedule, play: PlayState, pos: int)
    requires KeepsStatic(f)
    ensures SameShape(s, Schedule(MapTracks(f, s.tracks, |s.tracks|).0, play, pos, s.total))
  {
    var r := MapTracks(f, s.tracks, |s.tracks|).0;
    forall t | 0 <= t < |s.tracks|
      ensures SameTrackShape(s.tracks[t], r[t])
    {
      assert r[t] == MapTrack(f, s.tracks[t]).0;
    }
  }

  /** An operation treats each item by itself. */
  lemma ApplyItemwise(s: Schedule, op: Op, t: nat, i: nat)
    requires UniqueIds(s) && InRange(s, t, i)
    ensures SameShape(s, Apply(s, op).0) && InRange(Apply(s, op).0, t, i)
    ensures var r := ApplyToItem(s.tracks[t].kind, s.tracks[t].enabled, s.play, ItemAt(s, t, i), op);
            && ItemAt(Apply(s, op).0, t, i) == r.0
            && Own(Apply(s, op).1, ItemAt(s, t, i).id) == r.1
  {
    hide StepItem, StopItem;
    match op
    case TickAt(pos, accept) =>
      if s.play == Playing {
        var f := StepFn(pos, accept);
        OperationsKeepStatic(pos, accept);
        MapKeepsShape(f, s, Apply(s, op).0.play, pos);
        OwnOfTracks(f, s, |s.tracks|, t, i);
        assert MapTracks(f, s.tracks, |s.tracks|).0[t] == MapTrack(f, s.tracks[t]).0;
      }
    case PauseOp =>
    case ResumeOp =>
    case StopOp =>
      OperationsKeepStatic(0, _ => true);
      MapKeepsShape(StopFn(), s, Stopped, 0);
      OwnOfTracks(StopFn(), s, |s.tracks|, t, i);
      assert MapTracks(StopFn(), s.tracks, |s.tracks|).0[t] == MapTrack(StopFn(), s.tracks[t]).0;
  }

  /** Moving the playhead, as one item sees it: media that plays or is preloaded is stopped once and nothing is
      reported; nothing is left playing or preloaded; a scene at or before the new position counts as done. */
  lemma SeekItemwise(s: Schedule, pos: int, t: nat, i: nat)
    requires UniqueIds(s) && InRange(s, t, i) && CanSeek(s, pos)
    ensures var (after, l) := Seek(s, pos);
            var it := ItemAt(s, t, i);
            && SameShape(s, after) && InRange(after, t, i)
            && Own(l, it.id) == (if IsMedia(s.tracks[t].kind) && it.state in {Active, Preloaded} then [MediaStop] else [])
            && ItemAt(after, t, i).state
               == if s.tracks[t].kind == Scene && it.start <= pos then Done
                  else if it.state in {Active, Preloaded} then Scheduled
                  else it.state
  {
    SeekKeepsStatic(pos);
    MapKeepsShape(SeekFn(pos), s, s.play, pos);
    OwnOfTracks(SeekFn(pos), s, |s.tracks|, t, i);
    assert MapTracks(SeekFn(pos), s.tracks, |s.tracks|).0[t] == MapTrack(SeekFn(pos), s.tracks[t]).0;
  }

  lemma SeekKeepsStatic(pos: int)
    ensures KeepsStatic(SeekFn(pos))
  {
  }

  lemma NoEffects()
    ensures Essential([]) == []
  {
  }

  // ---- exactly once ----

  lemma {:induction false} EssentialConcat(a: seq<Effect>, b: seq<Effect>)
    ensures Essential(a + b) == Essential(a) + Essential(b)
  {
    if b == [] {
      assert a + b == a;
    } else {
      var c := a + b;
      assert c[..|c| - 1] == a + b[..|b| - 1];
      EssentialConcat(a, b[..|b| - 1]);
    }
  }

  ghost predicate NoPreload(effects: seq<Effect>) {
    forall i :: 0 <= i < |effects| ==> !IsPreload(effects[i])
  }

  lemma {:induction false} EssentialOfOthers(effects: seq<Effect>)
    requires NoPreload(effects)
    ensures Essential(effects) == effects
  {
    if effects != [] {
      EssentialOfOthers(effects[..|effects| - 1]);
    }
  }

  /** The calls that begin a media item. */
  function Begun(it: Item): seq<Effect> {
    [MediaPlay(it.refUuid, it.meta), ItemStarted]
  }

  /** The calls that end one that began. */
  function Over(reason: string): seq<Effect> {
    [MediaStop, ItemEnded(reason)]
  }

  /** What a tick calls for an item, preloading aside. */
  function StepEssence(kind: TrackType, it: Item, pos: int, accept: Accepts): seq<Effect> {
    var a := TryPreload(kind, it, pos, accept).0;
    var (b, eb) := TryActivate(kind, a, pos);
    eb + TryFinish(kind, b, pos).1
  }

  lemma PartsOfStep(kind: TrackType, it: Item, pos: int, accept: Accepts)
    ensures Essential(TryPreload(kind, it, pos, accept).1) == []
    ensures NoPreload(TryActivate(kind, it, pos).1) && NoPreload(TryFinish(kind, it, pos).1)
  {
    var e := TryPreload(kind, it, pos, accept).1;
    if e != [] {
      assert e == [MediaPreload(it.refUuid, it.meta)] && e[..0] == [];
    }
  }

  lemma StepEssential(kind: TrackType, it: Item, pos: int, accept: Accepts)
    ensures Essential(StepItem(kind, it, pos, accept).1) == StepEssence(kind, it, pos, accept)
  {
    hide Essential, TryPreload, TryActivate, TryFinish, NoPreload;
    var (a, ea) := TryPreload(kind, it, pos, accept);
    var (b, eb) := TryActivate(kind, a, pos);
    var ec := TryFinish(kind, b, pos).1;
    PartsOfStep(kind, it, pos, accept);
    PartsOfStep(kind, a, pos, accept);
    PartsOfStep(kind, b, pos, accept);
    EssentialConcat(ea + eb, ec);
    EssentialConcat(ea, eb);
    EssentialOfOthers(eb);
    EssentialOfOthers(ec);
    assert [] + eb + ec == eb + ec;
  }

  /** The life of a media item since playback began: what has been called for it, by its state, and whether
      stop has been called. */
  ghost predicate MediaLife(it: Item, mine: seq<Effect>, stopped: bool) {
    if stopped then
      || (it.state == Scheduled && (mine == [] || mine == [MediaStop] || mine == Begun(it) + Over("stop")))
      || (it.state == Done && mine == Begun(it) + Over("done"))
    else
      || ((it.state == Scheduled || it.state == Preloaded) && mine == [])
      || (it.state == Active && mine == Begun(it))
      || (it.state == Done && mine == Begun(it) + Over("done"))
  }

  lemma MediaLifeTick(kind: TrackType, it: Item, mine: seq<Effect>, pos: int, accept: Accepts)
    requires IsMedia(kind) && MediaLife(it, mine, false)
    ensures MediaLife(StepItem(kind, it, pos, accept).0, mine + StepEssence(kind, it, pos, accept), false)
  {
  }

  lemma MediaLifeStop(kind: TrackType, it: Item, mine: seq<Effect>, stopped: bool)
    requires IsMedia(kind) && MediaLife(it, mine, stopped)
    ensures MediaLife(StopItem(kind, it).0, mine + StopItem(kind, it).1, true)
  {
  }

  /** The calls that perform an item that takes no time: a scene is recalled with its fade and mode; a command is sent
      under the name in its metadata, or else its reference, when that is not empty; other kinds only end. */
  function AtOnce(kind: TrackType, it: Item): seq<Effect> {
    if kind == Scene then [SceneRecall(it.refUuid, it.meta.fadeMs, it.meta.recallMode), ItemEnded("done")]
    else if kind == Command then
      if it.meta.op == Some("") || (it.meta.op == None && it.refUuid == "") then [ItemEnded("done")]
      else [SendCommand(OrElse(it.meta.op, it.refUuid), it.meta.params), ItemEnded("done")]
    else [ItemEnded("skipped_phase")]
  }

  /** The life of a scene, command or not yet supported item: its calls are made at most once, all together. */
  ghost predicate InstantLife(kind: TrackType, it: Item, mine: seq<Effect>, from: int) {
    || ((it.state == Scheduled || it.state == Preloaded) && mine == [])
    || (it.state == Done && kind == Scene && it.start <= from && mine == [])
    || (it.state == Done && !(kind == Scene && it.start <= from) && mine == AtOnce(kind, it))
  }

  lemma InstantLifeTick(kind: TrackType, it: Item, mine: seq<Effect>, from: int, pos: int, accept: Accepts)
    requires !IsMedia(kind) && InstantLife(kind, it, mine, from)
    requires kind == Scene && it.start <= from ==> it.state == Done
    ensures InstantLife(kind, StepItem(kind, it, pos, accept).0, mine + StepEssence(kind, it, pos, accept), from)
  {
  }

  lemma InstantLifeStop(kind: TrackType, it: Item, mine: seq<Effect>, from: int)
    requires !IsMedia(kind) && InstantLife(kind, it, mine, from)
    ensures InstantLife(kind, StopItem(kind, it).0, mine + StopItem(kind, it).1, from)
  {
  }

  ghost predicate HasStop(ops: seq<Op>) {
    exists k :: 0 <= k < |ops| && ops[k].StopOp?
  }

  /** The state of one item after a run, with its calls so far. */
  ghost predicate Life(kind: TrackType, it: Item, mine: seq<Effect>, from: int, stopped: bool) {
    if IsMedia(kind) then MediaLife(it, mine, stopped)
    else InstantLife(kind, it, mine, from) && (kind == Scene && it.start <= from ==> it.state == Done)
  }

  /** An item that is done stays so. */
  lemma DoneStays(kind: TrackType, it: Item, pos: int, accept: Accepts)
    requires it.state == Done
    ensures StepItem(kind, it, pos, accept) == (it, []) && StopItem(kind, it) == (it, [])
  {
    var none: seq<Effect> := [];
    assert none + none == none;
  }

  lemma LifeTick(kind: TrackType, it: Item, mine: seq<Effect>, from: int, pos: int, accept: Accepts)
    requires Life(kind, it, mine, from, false)
    ensures Life(kind, StepItem(kind, it, pos, accept).0, mine + StepEssence(kind, it, pos, accept), from, false)
  {
    hide StepItem, StopItem, StepEssence, MediaLife, InstantLife;
    if IsMedia(kind) {
      MediaLifeTick(kind, it, mine, pos, accept);
    } else {
      InstantLifeTick(kind, it, mine, from, pos, accept);
      StepItemStatic(kind, it, pos, accept);
      if it.state == Done {
        DoneStays(kind, it, pos, accept);
      }
    }
  }

  lemma StopItemKeeps(kind: TrackType, it: Item)
    ensures Static(StopItem(kind, it).0) == Static(it) && NoPreload(StopItem(kind, it).1)
  {
  }

  lemma LifeStop(kind: TrackType, it: Item, mine: seq<Effect>, from: int, stopped: bool)
    requires Life(kind, it, mine, from, stopped)
    ensures Life(kind, StopItem(kind, it).0, mine + Essential(StopItem(kind, it).1), from, true)
  {
    hide StepItem, StopItem, StepEssence, MediaLife, InstantLife, Essential, NoPreload;
    StopItemKeeps(kind, it);
    EssentialOfOthers(StopItem(kind, it).1);
    if IsMedia(kind) {
      MediaLifeStop(kind, it, mine, stopped);
    } else {
      InstantLifeStop(kind, it, mine, from);
      if it.state == Done {
        DoneStays(kind, it, 0, _ => true);
      }
    }
  }

  lemma LifeStep(kind: TrackType, enabled: bool, play: PlayState, it: Item, mine: seq<Effect>, from: int, stopped: bool, op: Op)
    requires Life(kind, it, mine, from, stopped) && (stopped ==> play == Stopped)
    ensures var r := ApplyToItem(kind, enabled, play, it, op);
            Life(kind, r.0, mine + Essential(r.1), from, stopped || op.StopOp?)
  {
    hide StepItem, StopItem, StepEssence, Life, Essential;
    NoEffects();
    assert mine + [] == mine;
    match op
    case TickAt(pos, accept) =>
      StepEssential(kind, it, pos, accept);
      if play == Playing && enabled {
        LifeTick(kind, it, mine, from, pos, accept);
      }
    case StopOp =>
      LifeStop(kind, it, mine, from, stopped);
    case _ =>
  }

  // ---- runs after play ----

  /** Playing resets every item by itself. */
  lemma PlayItemwise(s: Schedule, from: int, t: nat, i: nat)
    requires UniqueIds(s) && InRange(s, t, i)
    ensures SameShape(s, Play(s, from)) && UniqueIds(Play(s, from)) && InRange(Play(s, from), t, i)
    ensures ItemAt(Play(s, from), t, i) == ResetItem(s.tracks[t].kind, ItemAt(s, t, i), from)
  {
    OperationsKeepStatic(from, _ => true);
    MapKeepsShape(ResetFn(from), s, Playing, from);
    SameShapeUnique(s, Play(s, from));
    assert MapTracks(ResetFn(from), s.tracks, |s.tracks|).0[t] == MapTrack(ResetFn(from), s.tracks[t]).0;
  }

  lemma HasStopStep(ops: seq<Op>)
    requires ops != []
    ensures HasStop(ops) <==> HasStop(ops[..|ops| - 1]) || ops[|ops| - 1].StopOp?
  {
    var init := ops[..|ops| - 1];
    if HasStop(init) {
      var k :| 0 <= k < |init| && init[k].StopOp?;
      assert ops[k].StopOp?;
    }
    if HasStop(ops) && !ops[|ops| - 1].StopOp? {
      var k :| 0 <= k < |ops| && ops[k].StopOp?;
      assert init[k].StopOp?;
    }
  }

  lemma MineOfEmpty(id: string)
    ensures Mine([], id) == []
  {
  }

  /** After one play, whatever ticks (at any positions, even backwards), pauses, resumes and stops follow, every
      item is in a point of its life: a media item is played at most once, and stopped and reported ended once
      after it; any other item makes its calls at most once. */
  lemma {:induction false} LifeOfRun(s: Schedule, from: int, ops: seq<Op>, t: nat, i: nat)
    requires UniqueIds(s) && InRange(s, t, i)
    ensures var r := Run(Play(s, from), ops);
            && SameShape(s, r.0) && UniqueIds(r.0) && InRange(r.0, t, i)
            && (HasStop(ops) ==> r.0.play == Stopped)
            && Life(s.tracks[t].kind, ItemAt(r.0, t, i), Mine(r.1, ItemAt(s, t, i).id), from, HasStop(ops))
  {
    PlayItemwise(s, from, t, i);
    MineOfEmpty(ItemAt(s, t, i).id);
    if ops != [] {
      var init, op := ops[..|ops| - 1], ops[|ops| - 1];
      LifeOfRun(s, from, init, t, i);
      HasStopStep(ops);
      LifeOfNext(s, Run(Play(s, from), init).0, Run(Play(s, from), init).1, from, op, HasStop(init), t, i);
    }
  }

  lemma LifeOfNext(s: Schedule, before: Schedule, log: seq<Logged>, from: int, op: Op, stopped: bool, t: nat, i: nat)
    requires InRange(s, t, i) && SameShape(s, before) && UniqueIds(before) && InRange(before, t, i)
    requires stopped ==> before.play == Stopped
    requires Life(s.tracks[t].kind, ItemAt(before, t, i), Mine(log, ItemAt(s, t, i).id), from, stopped)
    ensures var (after, l) := Apply(before, op);
            && SameShape(s, after) && UniqueIds(after) && InRange(after, t, i)
            && (stopped || op.StopOp? ==> after.play == Stopped)
            && Life(s.tracks[t].kind, ItemAt(after, t, i), Mine(log + l, ItemAt(s, t, i).id), from, stopped || op.StopOp?)
  {
    var (after, l) := Apply(before, op);
    ApplyItemwise(before, op, t, i);
    SameShapeTrans(s, before, after);
    SameShapeUnique(before, after);
    assert Static(s.tracks[t].items[i]) == Static(before.tracks[t].items[i]);
    assert SameTrackShape(s.tracks[t], before.tracks[t]);
    MineConcat(log, l, ItemAt(s, t, i).id);
    LifeStep(s.tracks[t].kind, before.tracks[t].enabled, before.play, ItemAt(before, t, i),
             Mine(log, ItemAt(s, t, i).id), from, stopped, op);
    assert stopped || op.StopOp? ==> after.play == Stopped by {
      hide MapTracks, AllSettled;
    }
  }

  // ---- reaching the end ----

  /** The total covers every item, as recalculating it ensures. */
  ghost predicate TotalCovers(s: Schedule) {
    forall t, i :: InRange(s, t, i) ==> EndOf(ItemAt(s, t, i)) <= s.total
  }

  lemma ShapeKeepsTotal(a: Schedule, b: Schedule)
    requires SameShape(a, b) && TotalCovers(a)
    ensures TotalCovers(b)
  {
    forall t, i | InRange(b, t, i)
      ensures EndOf(ItemAt(b, t, i)) <= b.total
    {
      assert SameTrackShape(a.tracks[t], b.tracks[t]);
      assert InRange(a, t, i) && Static(a.tracks[t].items[i]) == Static(b.tracks[t].items[i]);
    }
  }

  /** Not begun. */
  predicate Waiting(it: Item) {
    it.state == Scheduled || it.state == Preloaded
  }

  lemma EndAfterStart(it: Item)
    requires 0 <= it.duration
    ensures it.start <= EndOf(it)
  {
    if 0 < it.loop {
      assert 0 <= it.duration * (it.loop + 1);
    }
  }

  /** A tick at or past the end of an item settles it exactly unless it has not begun and starts later still, which
      takes a negative duration. */
  lemma SettlesIff(kind: TrackType, it: Item, pos: int, accept: Accepts)
    requires EndOf(it) <= pos
    ensures Settled(StepItem(kind, it, pos, accept).0) <==> !(Waiting(it) && pos < it.start)
    ensures pos < it.start ==> it.duration < 0
  {
    if 0 <= it.duration {
      EndAfterStart(it);
    }
  }

  /** No item of an enabled track still waits for a start past `pos`. */
  ghost predicate NoneAhead(s: Schedule, pos: int) {
    forall t, i :: InRange(s, t, i) && s.tracks[t].enabled && Waiting(ItemAt(s, t, i)) ==> ItemAt(s, t, i).start <= pos
  }

  lemma AllSettleIff(s: Schedule, pos: int, accept: Accepts)
    requires TotalCovers(s) && s.total <= pos
    ensures AllSettled(MapTracks(StepFn(pos, accept), s.tracks, |s.tracks|).0) <==> NoneAhead(s, pos)
  {
    hide StepItem, Settled, Waiting;
    var r := MapTracks(StepFn(pos, accept), s.tracks, |s.tracks|).0;
    forall t, i | InRange(s, t, i) && s.tracks[t].enabled
      ensures 0 <= t < |r| && r[t].enabled && 0 <= i < |r[t].items|
      ensures Settled(r[t].items[i]) <==> !(Waiting(ItemAt(s, t, i)) && pos < ItemAt(s, t, i).start)
    {
      assert r[t] == MapTrack(StepFn(pos, accept), s.tracks[t]).0;
      SettlesIff(s.tracks[t].kind, ItemAt(s, t, i), pos, accept);
    }
    forall t, i | 0 <= t < |r| && r[t].enabled && 0 <= i < |r[t].items|
      ensures InRange(s, t, i) && s.tracks[t].enabled
    {
      assert r[t] == MapTrack(StepFn(pos, accept), s.tracks[t]).0;
    }
  }

  /** A playing tick ends playback exactly when it is at or past a positive total and no item of an enabled track
      still waits for a later start. */
  lemma TickEndsIff(s: Schedule, pos: int, accept: Accepts)
    requires s.play == Playing && TotalCovers(s)
    ensures Tick(s, pos, accept).0.play == Stopped <==> 0 < s.total <= pos && NoneAhead(s, pos)
  {
    hide NoneAhead, TotalCovers, AllSettled;
    if s.total <= pos {
      AllSettleIff(s, pos, accept);
    }
  }

  /** A playing tick at or past a positive total: the schedule stops if and only if no item of an enabled track still
      waits for a start past the tick; and a media item of an enabled track has by then been played once and stopped
      once, unless it is itself such an item, which has been called for nothing. */
  lemma RunReachesEnd(s: Schedule, from: int, ops: seq<Op>, pos: int, accept: Accepts, t: nat, i: nat)
    requires UniqueIds(s) && TotalCovers(s) && InRange(s, t, i)
    requires s.tracks[t].enabled && IsMedia(s.tracks[t].kind)
    requires !HasStop(ops) && Run(Play(s, from), ops).0.play == Playing && 0 < s.total <= pos
    ensures var before := Run(Play(s, from), ops).0;
            var r := Run(Play(s, from), ops + [TickAt(pos, accept)]);
            && (r.0.play == Stopped <==> NoneAhead(before, pos))
            && InRange(before, t, i) && InRange(r.0, t, i)
            && Mine(r.1, ItemAt(s, t, i).id)
               == if Waiting(ItemAt(before, t, i)) && pos < ItemAt(before, t, i).start then []
                  else Begun(ItemAt(s, t, i)) + Over("done")
  {
    hide MapTracks, Mine, TotalCovers, UniqueIds, SameShape, AllSettled, NoneAhead, Tick, Settled, Waiting;
    var all := ops + [TickAt(pos, accept)];
    var before := Run(Play(s, from), ops).0;
    assert all[..|all| - 1] == ops;
    HasStopStep(all);
    LifeOfRun(s, from, ops, t, i);
    LifeOfRun(s, from, all, t, i);
    ShapeKeepsTotal(s, before);
    SameTotal(s, before);
    TickEndsIff(before, pos, accept);
    var after := Run(Play(s, from), all).0;
    EndedItem(s, before, after, pos, accept, t, i);
    LifeAtEnd(s.tracks[t].kind, ItemAt(after, t, i), Mine(Run(Play(s, from), all).1, ItemAt(s, t, i).id), from);
  }

  lemma SameTotal(a: Schedule, b: Schedule)
    requires SameShape(a, b)
    ensures a.total == b.total
  {
  }

  lemma LifeAtEnd(kind: TrackType, it: Item, mine: seq<Effect>, from: int)
    requires IsMedia(kind) && Life(kind, it, mine, from, false)
    ensures Settled(it) ==> mine == Begun(it) + Over("done")
    ensures Waiting(it) ==> mine == []
  {
  }

  lemma EndedItem(s: Schedule, before: Schedule, after: Schedule, pos: int, accept: Accepts, t: nat, i: nat)
    requires UniqueIds(before) && InRange(s, t, i) && InRange(before, t, i) && SameShape(s, before) && SameShape(s, after)
    requires s.tracks[t].enabled && before.play == Playing && after == Tick(before, pos, accept).0
    requires TotalCovers(before) && before.total <= pos
    ensures InRange(after, t, i) && Begun(ItemAt(after, t, i)) == Begun(ItemAt(s, t, i))
    ensures if Waiting(ItemAt(before, t, i)) && pos < ItemAt(before, t, i).start then Waiting(ItemAt(after, t, i))
            else Settled(ItemAt(after, t, i))
  {
    hide StepItem;
    ApplyItemwise(before, TickAt(pos, accept), t, i);
    SettlesIff(before.tracks[t].kind, ItemAt(before, t, i), pos, accept);
    StaysWaiting(before.tracks[t].kind, ItemAt(before, t, i), pos, accept);
    assert SameTrackShape(s.tracks[t], before.tracks[t]);
    assert SameTrackShape(s.tracks[t], after.tracks[t]);
    assert Static(s.tracks[t].items[i]) == Static(after.tracks[t].items[i]);
  }

  lemma StaysWaiting(kind: TrackType, it: Item, pos: int, accept: Accepts)
    ensures Waiting(it) && pos < it.start ==> Waiting(StepItem(kind, it, pos, accept).0)
  {
  }

  ghost predicate NonNegative(s: Schedule) {
    forall t, i :: InRange(s, t, i) ==> 0 <= ItemAt(s, t, i).duration
  }

  /** Where no duration is negative nothing can still wait, so every such tick ends playback. */
  lemma DurationsSuffice(s: Schedule, run: Schedule, pos: int)
    requires SameShape(s, run) && NonNegative(s) && TotalCovers(s) && s.total <= pos
    ensures NoneAhead(run, pos)
  {
    forall t, i | InRange(run, t, i)
      ensures ItemAt(run, t, i).start <= pos
    {
      assert SameTrackShape(s.tracks[t], run.tracks[t]);
      assert InRange(s, t, i) && Static(s.tracks[t].items[i]) == Static(run.tracks[t].items[i]);
      EndAfterStart(ItemAt(s, t, i));
    }
  }

  /** A schedule whose only item would end before it starts, as a load accepts it. */
  function Backwards(): Schedule {
    var it := Item("a", 0, 100, -50, 0, "", Meta(500, "cut", None, "{}"), Scheduled, 80, 0, 50);
    Schedule([Track(Audio, "audio", true, [it])], Stopped, 0, 50)
  }

  lemma BackwardsIsProper()
    ensures UniqueIds(Backwards()) && TotalCovers(Backwards()) && InRange(Backwards(), 0, 0)
  {
    var s := Backwards();
    forall t, i | InRange(s, t, i)
      ensures t == 0 && i == 0
    {
      assert |s.tracks| == 1 && |s.tracks[0].items| == 1;
    }
  }

  /** There a tick past the total neither ends playback nor plays the item. */
  lemma BackwardsNeverEnds(accept: Accepts)
    ensures var s := Backwards();
            var r := Run(Play(s, 0), [TickAt(60, accept)]);
            0 < s.total <= 60 && r.0.play == Playing && Mine(r.1, "a") == []
  {
    var s := Backwards();
    var before := Play(s, 0);
    BackwardsIsProper();
    PlayItemwise(s, 0, 0, 0);
    assert Run(before, []).0 == before;
    assert [TickAt(60, accept)] == [] + [TickAt(60, accept)];
    assert Waiting(ItemAt(before, 0, 0)) && before.tracks[0].enabled by {
      assert SameTrackShape(s.tracks[0], before.tracks[0]);
    }
    hide Mine, Tick, Play;
    RunReachesEnd(s, 0, [], 60, accept, 0, 0);
  }
}
