/** The playlist executor on values: where execution settles from any item, and what it reports on the way. */
module Playlist {

  datatype ItemType = Media | Scene | Delay | Command | Segment

  datatype Trigger = Auto | Go | AfterDelay | Timecode

  datatype LoopMode = NoLoop | LoopAll | LoopCurrent

  datatype ExecState = Idle | Loaded | Running | WaitingGo | Paused | Ended

  /** What the executor reads of an item's metadata. */
  datatype Meta = Meta(fadeMs: int, delayMs: int, params: string, rest: string)

  datatype Item = Item(id: string, sortIndex: int, kind: ItemType, ref: string, trigger: Trigger, delayMs: int, meta: Meta)

  /** Calls and events, in the order they are made. */
  datatype Event =
    | PlayMedia(ref: string, meta: Meta)
    | RecallScene(ref: string, fadeMs: int)
    | SendCommand(op: string, params: string)
    | StopMedia
    | ListLoaded(count: nat)
    | Error(code: int)
    | ItemStarted(index: int, id: string, kind: ItemType)
    | Playing(list: string, index: int, id: string)
    | ItemEnded(index: int, reason: string)
    | Advanced(index: int, trigger: Trigger)
    | WaitsForGo(index: int)
    | ListEnded(reason: string)

  datatype Executor = Executor(items: seq<Item>, state: ExecState, index: int, loop: LoopMode, listId: string,
                               waiting: bool, delayStart: int, delayTarget: int)

  const LIST_EMPTY: int := 5002
  const NOT_SUPPORTED: int := 5003

  /** Items that are not skipped. */
  predicate Playable(it: Item) {
    it.trigger != Timecode && it.kind != Segment
  }

  /** The first playable item from `i` on, or the length of the list. */
  function FirstPlayable(items: seq<Item>, i: nat): (j: nat)
    requires i <= |items|
    ensures i <= j <= |items| && (j < |items| ==> Playable(items[j]))
    ensures forall k :: i <= k < j ==> !Playable(items[k])
    decreases |items| - i
  {
    if i == |items| || Playable(items[i]) then i else FirstPlayable(items, i + 1)
  }

  // ---- skipping ----

  function SkipReason(it: Item): string {
    if it.trigger == Timecode then "skipped_timecode" else "skipped_segment"
  }

  /** What is reported of the step from item `i` to the next one of the list. */
  function StepReport(items: seq<Item>, i: nat, reason: string): seq<Event>
    requires i < |items|
  {
    [ItemEnded(i, reason)] + if i + 1 < |items| then [Advanced(i + 1, items[i + 1].trigger)] else []
  }

  /** What is reported of skipping items `i` up to `j`. */
  function SkipReport(items: seq<Item>, i: nat, j: nat): seq<Event>
    requires i <= j <= |items|
    decreases j - i
  {
    if i == j then []
    else [Error(5003)] + StepReport(items, i, SkipReason(items[i])) + SkipReport(items, i + 1, j)
  }

  // ---- performing ----

  function PerformCalls(it: Item): seq<Event> {
    match it.kind
    case Media => [PlayMedia(it.ref, it.meta)]
    case Scene => [RecallScene(it.ref, it.meta.fadeMs)]
    case Command => if it.ref != "" then [SendCommand(it.ref, it.meta.params)] else []
    case _ => []
  }

  function PerformReport(p: Executor, j: nat): seq<Event>
    requires j < |p.items|
  {
    var it := p.items[j];
    PerformCalls(it) + [ItemStarted(j, it.id, it.kind), Playing(p.listId, j, it.id)]
  }

  /** The executor once item `j` has been performed. */
  function Performed(p: Executor, j: nat, now: int): Executor
    requires j < |p.items|
  {
    var it := p.items[j];
    var at := p.(index := j);
    if it.kind == Delay then
      at.(waiting := true, delayStart := now, delayTarget := if 0 < it.delayMs then it.delayMs else it.meta.delayMs)
    else at
  }

  // ---- settling ----

  /** Whether execution from item `i` settles at all. */
  predicate Settles(items: seq<Item>, loop: LoopMode, i: int) {
    0 <= i < |items| ==>
      match loop
      case NoLoop => true
      case LoopAll => FirstPlayable(items, 0) < |items|
      case LoopCurrent => Playable(items[i])
  }

  /** Executing from item `i`: the items up to the next playable one are skipped, going round once if the list
      loops, and that one is performed; without one the list ends. */
  function Execute(p: Executor, now: int): (Executor, seq<Event>)
    requires Settles(p.items, p.loop, p.index)
  {
    var n := |p.items|;
    if !(0 <= p.index < n) then (p.(state := Ended), [ListEnded("end")])
    else
      var j := FirstPlayable(p.items, p.index);
      if j < n then
        (Performed(p, j, now), SkipReport(p.items, p.index, j) + PerformReport(p, j))
      else if p.loop == LoopAll then
        var k := FirstPlayable(p.items, 0);
        (Performed(p, k, now), SkipReport(p.items, p.index, n) + [Advanced(0, p.items[0].trigger)]
                               + SkipReport(p.items, 0, k) + PerformReport(p, k))
      else
        (p.(state := Ended, index := n), SkipReport(p.items, p.index, n) + [ListEnded("end")])
  }

  /** The item after the current one, where the list's loop mode leads. */
  function Following(items: seq<Item>, loop: LoopMode, i: int): int {
    match loop
    case LoopCurrent => i
    case NoLoop => i + 1
    case LoopAll => if |items| <= i + 1 then 0 else i + 1
  }

  /** Leaving the current item, at a list position. */
  function Advance(p: Executor, now: int, reason: string): (Executor, seq<Event>)
    requires 0 <= p.index < |p.items| && Settles(p.items, p.loop, Following(p.items, p.loop, p.index))
  {
    var i := Following(p.items, p.loop, p.index);
    var (q, report) := Execute(p.(index := i), now);
    (q, [ItemEnded(p.index, reason)] + (if i < |p.items| then [Advanced(i, p.items[i].trigger)] else []) + report)
  }

  // ---- operations ----

  datatype Op =
    | StartOp
    | PauseOp
    | ResumeOp
    | StopOp
    | GoOp
    | NextOp
    | TickOp(now: int, mediaDone: bool)
    | SetLoop(mode: LoopMode)

  /** Whenever the executor is under way, it is at a playable item. */
  predicate Steady(p: Executor) {
    p.state == Running || p.state == WaitingGo || p.state == Paused ==>
      0 <= p.index < |p.items| && Playable(p.items[p.index])
  }

  predicate CurrentDone(p: Executor, now: int, mediaDone: bool) {
    0 <= p.index < |p.items| ==>
      match p.items[p.index].kind
      case Media => mediaDone
      case Delay => p.waiting ==> p.delayTarget <= now - p.delayStart
      case _ => true
  }

  /** Whether an operation returns: only starting may not. */
  predicate Returns(p: Executor, op: Op) {
    op == StartOp && p.state == Loaded ==> Settles(p.items, p.loop, 0)
  }

  lemma FollowingSettles(items: seq<Item>, loop: LoopMode, i: int)
    requires 0 <= i < |items| && Playable(items[i])
    ensures Settles(items, loop, Following(items, loop, i))
  {
    assert FirstPlayable(items, 0) <= i;
  }

  function TickAt(p: Executor, now: int, mediaDone: bool): (Executor, seq<Event>)
    requires Steady(p)
  {
    if p.state != Running || !CurrentDone(p, now, mediaDone) then (p, [])
    else
      FollowingSettles(p.items, p.loop, p.index);
      match p.items[p.index].trigger
      case Auto => Advance(p, now, "auto")
      case Go => (p.(state := WaitingGo), [WaitsForGo(p.index)])
      case AfterDelay =>
        if !p.waiting then
          (p.(waiting := true, delayStart := now, delayTarget := p.items[p.index].delayMs), [])
        else if p.delayTarget <= now - p.delayStart then Advance(p.(waiting := false), now, "delay_complete")
        else (p, [])
      case Timecode => (p, [])
  }

  function Apply(p: Executor, op: Op): (Executor, seq<Event>)
    requires Steady(p) && Returns(p, op)
  {
    match op
    case StartOp =>
      if p.state != Loaded then (p, [])
      else if p.items == [] then (p, [Error(5002)])
      else Execute(p.(state := Running, index := 0), 0)
    case PauseOp =>
      if p.state == Running || p.state == WaitingGo then (p.(state := Paused), [StopMedia]) else (p, [])
    case ResumeOp =>
      if p.state == Paused then Execute(p.(state := Running), 0) else (p, [])
    case StopOp => (p.(state := Ended), [StopMedia, ListEnded("manual_stop")])
    case GoOp =>
      if p.state == WaitingGo then
        FollowingSettles(p.items, p.loop, p.index);
        Advance(p.(state := Running), 0, "go")
      else (p, [])
    case NextOp =>
      if p.state == Running || p.state == WaitingGo then
        FollowingSettles(p.items, p.loop, p.index);
        var (q, report) := Advance(p.(state := Running), 0, "next");
        (q, [StopMedia] + report)
      else (p, [])
    case TickOp(now, mediaDone) => TickAt(p, now, mediaDone)
    case SetLoop(mode) => (p.(loop := mode), [])
  }
}
