/** The device engine on values: actions, the delayed queue and the power sequencer under a simulated clock. */
module Device {

  datatype Action =
    PowerOn | PowerOff | Reboot | Standby | EStop | SetInput | Mute | Unmute | Query | Custom

  datatype Power = Off | StandingBy | On | Fault | Unknown

  datatype Info = Info(id: string, group: int, online: bool, power: Power, lastCmdAt: int, lastError: string)

  datatype Step = Step(device: string, action: Action, param: string, delay: int)

  /** A delayed action: numbered in the order of queueing, with the clock it was queued at. */
  datatype Pending = Pending(serial: nat, queuedAt: int, due: int, device: string, action: Action, param: string)

  /** Progress of a sequence. */
  datatype Run = Run(name: string, running: bool, index: nat, remaining: int, startedAt: int)

  /** What the engine does and reports: a queued action is consumed, a step is run, a driver is called, a change is
      reported. */
  datatype Event =
    | Consumed(p: Pending, at: int, before: int)
    | StepRun(index: nat, at: int)
    | IoCall(device: string, action: Action, param: string)
    | Changed(device: string, what: string, power: Power)

  /** The registry in key order; `bound` are the devices with a driver; `calls` and `queued` count driver calls and
      queued actions so far. */
  datatype Engine = Engine(devices: seq<Info>, bound: set<string>, sequences: map<string, seq<Step>>,
                           pending: seq<Pending>, run: Run, clock: int, active: bool, calls: nat, queued: nat)

  /** Whether the driver answers: any function of the call and of how many calls came before. */
  type Respond = (string, Action, string, nat) -> bool

  function ActionName(a: Action): string {
    match a
    case PowerOn => "power_on"
    case PowerOff => "power_off"
    case Reboot => "reboot"
    case Standby => "standby"
    case EStop => "estop"
    case SetInput => "set_input"
    case Mute => "mute"
    case Unmute => "unmute"
    case Query => "query"
    case Custom => "custom"
  }

  /** The place of a device in the registry, or its length. */
  function Find(devices: seq<Info>, id: string): (i: nat)
    ensures i <= |devices| && (i < |devices| ==> devices[i].id == id)
    ensures forall k :: 0 <= k < i ==> devices[k].id != id
  {
    if devices == [] then 0
    else if devices[0].id == id then 0
    else 1 + Find(devices[1..], id)
  }

  // ---- one action ----

  predicate Refusable(a: Action) {
    a == PowerOff || a == Standby || a == EStop
  }

  function PowerAfter(a: Action, power: Power): Power {
    match a
    case PowerOn => On
    case PowerOff => Off
    case Standby => StandingBy
    case Reboot => On
    case EStop => Off
    case _ => power
  }

  function ErrorAfter(a: Action, param: string, error: string): string {
    match a
    case PowerOn => ""
    case SetInput => "input:" + param
    case _ => error
  }

  /** Every device but this one powered off. */
  function OthersOff(devices: seq<Info>, id: string): (r: seq<Info>)
    ensures |r| == |devices|
    ensures forall k :: 0 <= k < |r| ==> r[k] == if devices[k].id == id then devices[k] else devices[k].(power := Off)
  {
    seq(|devices|, k requires 0 <= k < |devices| => if devices[k].id == id then devices[k] else devices[k].(power := Off))
  }

  /** What an accepted action does. */
  function Perform(e: Engine, i: nat, a: Action, param: string): (Engine, seq<Event>)
    requires i < |e.devices|
  {
    var dev := e.devices[i];
    var done := dev.(lastCmdAt := e.clock, power := PowerAfter(a, dev.power), lastError := ErrorAfter(a, param, dev.lastError));
    var devices := e.devices[i := done];
    if a == EStop then
      (e.(devices := OthersOff(devices, dev.id), run := e.run.(running := false)), [Changed(dev.id, "estop", Off)])
    else
      (e.(devices := devices), [Changed(dev.id, ActionName(a), done.power)])
  }

  /** Calling the device's driver, if it has one. */
  function Ask(e: Engine, id: string, a: Action, param: string, respond: Respond): (Engine, bool, seq<Event>) {
    if id in e.bound then (e.(calls := e.calls + 1), respond(id, a, param, e.calls), [IoCall(id, a, param)])
    else (e, true, [])
  }

  /** Applying an action to the device at `i`: the engine after it, whether it succeeded, and what was done. */
  function ApplyAction(e: Engine, i: nat, a: Action, param: string, respond: Respond): (Engine, bool, seq<Event>)
    requires i < |e.devices|
  {
    var dev := e.devices[i];
    var (called, answered, asked) := Ask(e, dev.id, a, param, respond);
    if !answered then
      var failed := dev.(power := Fault, lastError := "io no response: " + ActionName(a));
      (called.(devices := e.devices[i := failed]), false, asked + [Changed(dev.id, "fault", Fault)])
    else if !dev.online && Refusable(a) then
      (called.(devices := e.devices[i := dev.(lastError := "device offline")]), false, asked)
    else
      var (next, log) := Perform(called, i, a, param);
      (next, true, asked + log)
  }

  /** The same for a device by id; an unknown one is passed over. */
  function ApplyTo(e: Engine, id: string, a: Action, param: string, respond: Respond): (Engine, bool, seq<Event>) {
    var i := Find(e.devices, id);
    if i < |e.devices| then ApplyAction(e, i, a, param, respond) else (e, false, [])
  }

  // ---- the queue ----

  function DueBy(pending: seq<Pending>, clock: int): seq<Pending> {
    if pending == [] then []
    else
      var init, p := pending[..|pending| - 1], pending[|pending| - 1];
      DueBy(init, clock) + if p.due <= clock then [p] else []
  }

  function LaterThan(pending: seq<Pending>, clock: int): seq<Pending> {
    if pending == [] then []
    else
      var init, p := pending[..|pending| - 1], pending[|pending| - 1];
      LaterThan(init, clock) + if p.due <= clock then [] else [p]
  }

  /** Consumes actions one after another. */
  function ConsumeAll(e: Engine, due: seq<Pending>, before: int, respond: Respond): (Engine, seq<Event>) {
    if due == [] then (e, [])
    else
      var p := due[|due| - 1];
      var (prior, log) := ConsumeAll(e, due[..|due| - 1], before, respond);
      var (next, _, l) := ApplyTo(prior, p.device, p.action, p.param, respond);
      (next, log + [Consumed(p, e.clock, before)] + l)
  }

  // ---- the sequencer ----

  function StepsOf(e: Engine): seq<Step> {
    if e.run.name in e.sequences then e.sequences[e.run.name] else []
  }

  /** The sequencer's part of an update by `delta`. */
  function StepSequence(e: Engine, delta: int, respond: Respond): (Engine, seq<Event>) {
    if !e.run.running then (e, [])
    else if |StepsOf(e)| <= e.run.index then (e.(run := e.run.(running := false)), [])
    else if e.run.remaining <= 0 then
      var step := StepsOf(e)[e.run.index];
      var (next, _, log) := ApplyTo(e, step.device, step.action, step.param, respond);
      var run := if step.delay <= 0 then next.run.(index := next.run.index + 1, remaining := 0)
                 else next.run.(remaining := step.delay);
      (next.(run := run), [StepRun(e.run.index, e.clock)] + log)
    else
      var remaining := e.run.remaining - delta;
      (e.(run := if remaining <= 0 then e.run.(index := e.run.index + 1, remaining := 0)
                 else e.run.(remaining := remaining)), [])
  }

  // ---- operations ----

  datatype Op =
    | UpdateOp(now: int, respond: Respond)
    | ExecOp(device: string, action: Action, param: string, delay: int, respond: Respond)
    | BatchOp(action: Action, group: int, gap: int)
    | AbortOp
    | TriggerOp(name: string)
    | DefineOp(name: string, steps: seq<Step>)
    | StartOp
    | StopOp

  function Update(e: Engine, now: int, respond: Respond): (Engine, seq<Event>) {
    if !e.active then (e, [])
    else if now <= e.clock then (e.(clock := now), [])
    else
      var at := e.(clock := now, pending := LaterThan(e.pending, now));
      var (drained, consumed) := ConsumeAll(at, DueBy(e.pending, now), e.clock, respond);
      var (stepped, log) := StepSequence(drained, now - e.clock, respond);
      (stepped, consumed + log)
  }

  function Exec(e: Engine, id: string, a: Action, param: string, delay: int, respond: Respond): (Engine, bool, seq<Event>) {
    if 0 < delay then
      var p := Pending(e.queued, e.clock, e.clock + delay, id, a, param);
      (e.(pending := e.pending + [p], queued := e.queued + 1), true, [])
    else ApplyTo(e, id, a, param, respond)
  }

  /** The devices of a group among the first `n`, or all of them. */
  function Targets(devices: seq<Info>, group: int, n: nat): seq<string>
    requires n <= |devices|
  {
    if n == 0 then []
    else Targets(devices, group, n - 1) + if group < 0 || devices[n - 1].group == group then [devices[n - 1].id] else []
  }

  /** `n` gaps. */
  function Times(n: nat, gap: int): int {
    if n == 0 then 0 else Times(n - 1, gap) + gap
  }

  /** Queues the same action for each target, `gap` apart, starting now. */
  function QueueAll(e: Engine, targets: seq<string>, a: Action, gap: int): Engine {
    if targets == [] then e
    else
      var n := |targets| - 1;
      var before := QueueAll(e, targets[..n], a, gap);
      var p := Pending(before.queued, e.clock, e.clock + Times(n, gap), targets[n], a, "");
      before.(pending := before.pending + [p], queued := before.queued + 1)
  }

  lemma QueueNone(e: Engine, a: Action, gap: int)
    ensures QueueAll(e, [], a, gap) == e && Times(0, gap) == 0
  {
  }

  lemma QueueNext(e: Engine, targets: seq<string>, k: nat, a: Action, gap: int)
    requires k < |targets|
    ensures Times(k + 1, gap) == Times(k, gap) + gap
    ensures var before := QueueAll(e, targets[..k], a, gap);
      QueueAll(e, targets[..k + 1], a, gap)
        == before.(pending := before.pending
                     + [Pending(before.queued, e.clock, e.clock + Times(k, gap), targets[k], a, "")],
                   queued := before.queued + 1)
  {
    assert targets[..k + 1][..k] == targets[..k];
  }

  /** Starting a sequence; one that is unknown or empty is not started. */
  function Trigger(e: Engine, name: string): (Engine, bool) {
    if name in e.sequences && e.sequences[name] != [] then
      (e.(run := Run(name, true, 0, 0, e.clock)), true)
    else (e, false)
  }

  function Apply(e: Engine, op: Op): (Engine, seq<Event>) {
    match op
    case UpdateOp(now, respond) => Update(e, now, respond)
    case ExecOp(device, action, param, delay, respond) =>
      var (next, _, log) := Exec(e, device, action, param, delay, respond);
      (next, log)
    case BatchOp(action, group, gap) =>
      (QueueAll(e, Targets(e.devices, group, |e.devices|), action, gap), [])
    case AbortOp => (e.(run := e.run.(running := false)), [])
    case TriggerOp(name) => (Trigger(e, name).0, [])
    case DefineOp(name, steps) => (e.(sequences := e.sequences[name := steps]), [])
    case StartOp => (e.(active := true), [])
    case StopOp => (e.(active := false, pending := [], run := e.run.(running := false)), [])
  }
}
