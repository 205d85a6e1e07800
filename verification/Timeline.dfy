/** The timeline scheduler on values: what one tick, play, stop or seek does to every item, and what whole
    runs of them do. */
module Timeline {
  import opened Results

  datatype TrackType = Audio | Video | Scene | Command | Vj | Light | Pixel | Device

  datatype ItemState = Scheduled | Preloaded | Active | Done | Cancelled | Aborted

  datatype PlayState = Stopped | Playing | Paused

  /** What the scheduler reads of an item's metadata. */
  datatype Meta = Meta(fadeMs: int, recallMode: string, op: Option<string>, params: string)

  datatype Item = Item(id: string, track: int, start: int, duration: int, loop: int, refUuid: string, meta: Meta,
                       state: ItemState, preloadAt: int, activeAt: int, endAt: int)

  datatype Track = Track(kind: TrackType, name: string, enabled: bool, items: seq<Item>)

  datatype Schedule = Schedule(tracks: seq<Track>, play: PlayState, pos: int, total: int)

  /** A call out of the scheduler. */
  datatype Effect =
    | MediaPreload(ref: string, meta: Meta)
    | MediaPlay(ref: string, meta: Meta)
    | MediaStop
    | SceneRecall(ref: string, fadeMs: int, mode: string)
    | SendCommand(op: string, params: string)
    | ItemStarted
    | ItemEnded(reason: string)

  /** An effect and the item it is made for. */
  datatype Logged = Logged(id: string, effect: Effect)

  const PRELOAD_AHEAD: int := 20

  predicate IsMedia(kind: TrackType) {
    kind == Audio || kind == Video
  }

  /** The end of an item, repeats included. */
  function EndOf(it: Item): int {
    if it.loop <= 0 then it.start + it.duration else it.start + it.duration * (it.loop + 1)
  }

  // ---- one item ----

  /** Which preload requests the media engine accepts during one tick. */
  type Accepts = string -> bool

  function Activate(kind: TrackType, it: Item, now: int): (Item, seq<Effect>) {
    var a := it.(state := Active, activeAt := now);
    match kind
    case Audio => (a, [MediaPlay(it.refUuid, it.meta), ItemStarted])
    case Video => (a, [MediaPlay(it.refUuid, it.meta), ItemStarted])
    case Scene =>
      (a.(state := Done), [SceneRecall(it.refUuid, it.meta.fadeMs, it.meta.recallMode), ItemEnded("done")])
    case Command =>
      var op := if it.meta.op.Some? then it.meta.op.value else it.refUuid;
      (a.(state := Done), (if op != "" then [SendCommand(op, it.meta.params)] else []) + [ItemEnded("done")])
    case _ => (a.(state := Done), [ItemEnded("skipped_phase")])
  }

  function Finish(kind: TrackType, it: Item, reason: string): (Item, seq<Effect>) {
    (it.(state := Done), (if IsMedia(kind) then [MediaStop] else []) + [ItemEnded(reason)])
  }

  /** The preloading part of a tick. */
  function TryPreload(kind: TrackType, it: Item, pos: int, accept: Accepts): (Item, seq<Effect>) {
    if it.state == Scheduled && it.preloadAt <= pos < it.start then
      if IsMedia(kind) then
        (if accept(it.id) then it.(state := Preloaded) else it, [MediaPreload(it.refUuid, it.meta)])
      else
        (it.(state := Preloaded), [])
    else (it, [])
  }

  function TryActivate(kind: TrackType, it: Item, pos: int): (Item, seq<Effect>) {
    if (it.state == Preloaded || it.state == Scheduled) && it.start <= pos then Activate(kind, it, pos) else (it, [])
  }

  function TryFinish(kind: TrackType, it: Item, pos: int): (Item, seq<Effect>) {
    if it.state == Active && EndOf(it) <= pos then Finish(kind, it, "done")
    else if it.state == Aborted then Finish(kind, it, "aborted")
    else (it, [])
  }

  /** One tick of one item of an enabled track. */
  function StepItem(kind: TrackType, it: Item, pos: int, accept: Accepts): (Item, seq<Effect>) {
    var (a, ea) := TryPreload(kind, it, pos, accept);
    var (b, eb) := TryActivate(kind, a, pos);
    var (c, ec) := TryFinish(kind, b, pos);
    (c, ea + eb + ec)
  }

  // ---- all items ----

  function Tag(id: string, effects: seq<Effect>): (l: seq<Logged>)
    ensures |l| == |effects|
  {
    seq(|effects|, i requires 0 <= i < |effects| => Logged(id, effects[i]))
  }

  /** What an operation does to an item of a track of this kind, enabled or not: the item after it, and the
      calls made for it. */
  type ItemFn = (TrackType, bool, Item) -> (Item, seq<Effect>)

  /** The first `n` items of a track after an operation, and the calls made for them in order. */
  function MapItems(f: ItemFn, t: Track, n: nat): (r: (seq<Item>, seq<Logged>))
    requires n <= |t.items|
    ensures |r.0| == n
    ensures forall i :: 0 <= i < n ==> r.0[i] == f(t.kind, t.enabled, t.items[i]).0
  {
    if n == 0 then ([], [])
    else
      var (done, log) := MapItems(f, t, n - 1);
      var (it, effects) := f(t.kind, t.enabled, t.items[n - 1]);
      (done + [it], log + Tag(t.items[n - 1].id, effects))
  }

  function MapTrack(f: ItemFn, t: Track): (Track, seq<Logged>) {
    var (items, log) := MapItems(f, t, |t.items|);
    (t.(items := items), log)
  }

  /** The first `n` tracks after an operation on every item. */
  function MapTracks(f: ItemFn, tracks: seq<Track>, n: nat): (r: (seq<Track>, seq<Logged>))
    requires n <= |tracks|
    ensures |r.0| == n
    ensures forall t :: 0 <= t < n ==> r.0[t] == MapTrack(f, tracks[t]).0
  {
    if n == 0 then ([], [])
    else
      var (done, log) := MapTracks(f, tracks, n - 1);
      var (t, l) := MapTrack(f, tracks[n - 1]);
      (done + [t], log + l)
  }

  /** A tick leaves the items of disabled tracks alone. */
  function StepFn(pos: int, accept: Accepts): ItemFn {
    (kind, enabled, it) => if enabled then StepItem(kind, it, pos, accept) else (it, [])
  }

  predicate Settled(it: Item) {
    it.state == Done || it.state == Cancelled
  }

  predicate AllSettled(tracks: seq<Track>) {
    forall t, i :: 0 <= t < |tracks| && tracks[t].enabled && 0 <= i < |tracks[t].items| ==> Settled(tracks[t].items[i])
  }

  /** A whole tick. */
  function Tick(s: Schedule, pos: int, accept: Accepts): (Schedule, seq<Logged>) {
    if s.play != Playing then (s, [])
    else
      var (tracks, log) := MapTracks(StepFn(pos, accept), s.tracks, |s.tracks|);
      var ended := s.total <= pos && 0 < s.total && AllSettled(tracks);
      (Schedule(tracks, if ended then Stopped else Playing, pos, s.total), log)
  }

  /** Doing `g` to every item after `f`, where `g` calls nothing. */
  ghost predicate Composes(f: ItemFn, g: ItemFn, h: ItemFn) {
    forall kind, enabled, it ::
      h(kind, enabled, it) == (g(kind, enabled, f(kind, enabled, it).0).0, f(kind, enabled, it).1)
  }

  lemma {:induction false} MapItemsTwice(f: ItemFn, g: ItemFn, h: ItemFn, t: Track, n: nat)
    requires n <= |t.items| && Composes(f, g, h)
    ensures MapItems(h, t, n).1 == MapItems(f, t, n).1
  {
    if n != 0 {
      MapItemsTwice(f, g, h, t, n - 1);
    }
  }

  lemma MapTrackTwice(f: ItemFn, g: ItemFn, h: ItemFn, t: Track)
    requires Composes(f, g, h)
    ensures MapTrack(h, t) == (MapTrack(g, MapTrack(f, t).0).0, MapTrack(f, t).1)
  {
    MapItemsTwice(f, g, h, t, |t.items|);
    assert MapTrack(h, t).0.items == MapTrack(g, MapTrack(f, t).0).0.items;
  }

  lemma {:induction false} MapTracksTwice(f: ItemFn, g: ItemFn, h: ItemFn, tracks: seq<Track>, n: nat)
    requires n <= |tracks| && Composes(f, g, h)
    ensures MapTracks(h, tracks, n) == (MapTracks(g, MapTracks(f, tracks, |tracks|).0, n).0, MapTracks(f, tracks, n).1)
  {
    hide MapTrack, Composes;
    if n != 0 {
      MapTracksTwice(f, g, h, tracks, n - 1);
      MapTrackTwice(f, g, h, tracks[n - 1]);
    }
  }

  /** An item when playback starts at `from`. */
  function ResetItem(kind: TrackType, it: Item, from: int): Item {
    it.(state := if kind == Scene && it.start <= from then Done else Scheduled, activeAt := 0)
  }

  function ResetFn(from: int): ItemFn {
    (kind, enabled, it) => (ResetItem(kind, it, from), [])
  }

  function Play(s: Schedule, from: int): Schedule {
    Schedule(MapTracks(ResetFn(from), s.tracks, |s.tracks|).0, Playing, from, s.total)
  }

  function Pause(s: Schedule): Schedule {
    if s.play == Playing then s.(play := Paused) else s
  }

  function Resume(s: Schedule): Schedule {
    if s.play == Paused then s.(play := Playing) else s
  }

  /** Stopping one item, reporting the end of one that was active. */
  function StopItem(kind: TrackType, it: Item): (Item, seq<Effect>) {
    if it.state == Active || it.state == Preloaded then
      (it.(state := Scheduled),
       (if IsMedia(kind) then [MediaStop] else []) + (if it.state == Active then [ItemEnded("stop")] else []))
    else (it, [])
  }

  function StopFn(): ItemFn {
    (kind, enabled, it) => StopItem(kind, it)
  }

  function Stop(s: Schedule): (Schedule, seq<Logged>) {
    var (tracks, log) := MapTracks(StopFn(), s.tracks, |s.tracks|);
    (Schedule(tracks, Stopped, 0, s.total), log)
  }

  /** Moving the playhead stops what plays, without reporting its end, and marks the scenes passed over. */
  function SeekItem(kind: TrackType, it: Item, pos: int): (Item, seq<Effect>) {
    var stopped := if it.state == Active || it.state == Preloaded then it.(state := Scheduled) else it;
    (if kind == Scene && it.start <= pos then stopped.(state := Done) else stopped,
     if (it.state == Active || it.state == Preloaded) && IsMedia(kind) then [MediaStop] else [])
  }

  function SeekFn(pos: int): ItemFn {
    (kind, enabled, it) => SeekItem(kind, it, pos)
  }

  /** Whether the playhead can be moved to `pos`. */
  predicate CanSeek(s: Schedule, pos: int) {
    0 <= pos && (0 < s.total ==> pos <= s.total)
  }

  function Seek(s: Schedule, pos: int): (Schedule, seq<Logged>) {
    if !CanSeek(s, pos) then (s, [])
    else
      var (tracks, log) := MapTracks(SeekFn(pos), s.tracks, |s.tracks|);
      (s.(tracks := tracks, pos := pos), log)
  }
}
