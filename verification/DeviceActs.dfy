/** What the device engine does to devices: whose driver is called for what, what an action leaves behind, and what
    the reported changes tell. */
module DeviceActs {
  import opened Device
  import opened DeviceRuns
  import opened Results

  /** The registry is keyed by id. */
  ghost predicate Keyed(devices: seq<Info>) {
    forall j, k :: 0 <= j < k < |devices| ==> devices[j].id != devices[k].id
  }

  // ---- one action ----

  /** How an action that is carried out leaves its device, and the name it is reported under. */
  ghost predicate Leaves(a: Action, param: string, before: Info, after: Info, what: string) {
    match a
    case PowerOn => after.power == On && after.lastError == "" && what == "power_on"
    case Reboot => after.power == On && after.lastError == before.lastError && what == "reboot"
    case PowerOff => after.power == Off && after.lastError == before.lastError && what == "power_off"
    case EStop => after.power == Off && after.lastError == before.lastError && what == "estop"
    case Standby => after.power == StandingBy && after.lastError == before.lastError && what == "standby"
    case SetInput => after.power == before.power && after.lastError == "input:" + param && what == "set_input"
    case Mute => after == before.(lastCmdAt := after.lastCmdAt) && what == "mute"
    case Unmute => after == before.(lastCmdAt := after.lastCmdAt) && what == "unmute"
    case Query => after == before.(lastCmdAt := after.lastCmdAt) && what == "query"
    case Custom => after == before.(lastCmdAt := after.lastCmdAt) && what == "custom"
  }

  /** The driver, where there is one, is asked first; without an answer the device is faulty. An offline device
      refuses to be powered off, put on standby or stopped. Otherwise the action is carried out and reported, and an
      emergency stop powers every other device off. */
  lemma ActionDoes(e: Engine, i: nat, a: Action, param: string, respond: Respond)
    requires i < |e.devices| && Keyed(e.devices)
    ensures var before, id := e.devices[i], e.devices[i].id;
      var (next, ok, log) := ApplyTo(e, id, a, param, respond);
      var asked := if id in e.bound then [IoCall(id, a, param)] else [];
      var dumb := id in e.bound && !respond(id, a, param, e.calls);
      var refused := !dumb && !before.online && a in {PowerOff, Standby, EStop};
      && |next.devices| == |e.devices| && (ok <==> !dumb && !refused)
      && (dumb ==> next.devices[i].power == Fault && log == asked + [Changed(id, "fault", Fault)])
      && (refused ==> next.devices[i] == before.(lastError := "device offline") && log == asked)
      && (ok ==> next.devices[i].lastCmdAt == e.clock && |log| == |asked| + 1 && log[..|asked|] == asked)
      && (ok ==> var told := log[|asked|];
                 told.Changed? && told.device == id && told.power == next.devices[i].power
                 && Leaves(a, param, before, next.devices[i], told.what))
      && forall k :: 0 <= k < |e.devices| && k != i ==>
            next.devices[k] == if ok && a == EStop then e.devices[k].(power := Off) else e.devices[k]
  {
    hide Perform, Ask, ActionName, Find, Leaves, Keyed;
    FindAt(e.devices, i);
    var dev := e.devices[i];
    AskDoes(e, dev.id, a, param, respond);
    PerformDoes(Ask(e, dev.id, a, param, respond).0, i, a, param);
  }

  lemma FindAt(devices: seq<Info>, i: nat)
    requires i < |devices| && Keyed(devices)
    ensures Find(devices, devices[i].id) == i
  {
  }

  lemma AskDoes(e: Engine, id: string, a: Action, param: string, respond: Respond)
    ensures var (next, answered, log) := Ask(e, id, a, param, respond);
      && next.devices == e.devices && next.clock == e.clock
      && log == (if id in e.bound then [IoCall(id, a, param)] else [])
      && (answered <==> (id in e.bound ==> respond(id, a, param, e.calls)))
  {
  }

  lemma PerformDoes(e: Engine, i: nat, a: Action, param: string)
    requires i < |e.devices| && Keyed(e.devices)
    ensures var (next, log) := Perform(e, i, a, param);
      && |next.devices| == |e.devices| && next.devices[i].lastCmdAt == e.clock
      && |log| == 1 && log[0].Changed? && log[0].device == e.devices[i].id && log[0].power == next.devices[i].power
      && Leaves(a, param, e.devices[i], next.devices[i], log[0].what)
      && forall k :: 0 <= k < |e.devices| && k != i ==>
            next.devices[k] == if a == EStop then e.devices[k].(power := Off) else e.devices[k]
  {
  }

  // ---- the registry over runs ----

  function Ids(devices: seq<Info>): (r: seq<string>)
    ensures |r| == |devices| && forall i :: 0 <= i < |r| ==> r[i] == devices[i].id
  {
    seq(|devices|, i requires 0 <= i < |devices| => devices[i].id)
  }

  /** The same devices with the same drivers. */
  ghost predicate SameRegistry(a: Engine, b: Engine) {
    Ids(a.devices) == Ids(b.devices) && a.bound == b.bound
  }

  lemma ActionKeepsRegistry(e: Engine, id: string, a: Action, param: string, respond: Respond)
    ensures SameRegistry(e, ApplyTo(e, id, a, param, respond).0)
  {
    hide Ask, Perform, ActionName;
    var i := Find(e.devices, id);
    if i < |e.devices| {
      AskDoes(e, e.devices[i].id, a, param, respond);
      PerformKeepsRegistry(Ask(e, e.devices[i].id, a, param, respond).0, i, a, param);
      AskKeepsBound(e, e.devices[i].id, a, param, respond);
    }
  }

  lemma AskKeepsBound(e: Engine, id: string, a: Action, param: string, respond: Respond)
    ensures Ask(e, id, a, param, respond).0.bound == e.bound
  {
  }

  lemma PerformKeepsRegistry(e: Engine, i: nat, a: Action, param: string)
    requires i < |e.devices|
    ensures SameRegistry(e, Perform(e, i, a, param).0)
  {
    hide PowerAfter, ErrorAfter, ActionName;
  }

  // ---- what the reported changes tell ----

  /** The power of a device as the log tells it: by the latest change of its own or emergency stop of another, or as
      it was. */
  function PowerTold(log: seq<Event>, id: string, was: Power): Power {
    if log == [] then was
    else
      var e := log[|log| - 1];
      if e.Changed? && e.device == id then e.power
      else if e.Changed? && e.what == "estop" then Off
      else PowerTold(log[..|log| - 1], id, was)
  }

  lemma {:induction false} ToldConcat(a: seq<Event>, b: seq<Event>, id: string, was: Power)
    ensures PowerTold(a + b, id, was) == PowerTold(b, id, PowerTold(a, id, was))
  {
    if b == [] {
      assert a + b == a;
    } else {
      assert (a + b)[..|a + b| - 1] == a + b[..|b| - 1];
      ToldConcat(a, b[..|b| - 1], id, was);
    }
  }

  lemma ToldOne(e: Event, id: string, was: Power)
    ensures PowerTold([e], id, was) ==
      if e.Changed? && e.device == id then e.power else if e.Changed? && e.what == "estop" then Off else was
  {
  }

  /** The log tells the power of every device. */
  ghost predicate Told(before: Engine, log: seq<Event>, after: Engine) {
    && |after.devices| == |before.devices|
    && forall k :: 0 <= k < |before.devices| ==>
         && after.devices[k].id == before.devices[k].id
         && after.devices[k].power == PowerTold(log, before.devices[k].id, before.devices[k].power)
  }

  lemma ToldTrans(a: Engine, l: seq<Event>, b: Engine, m: seq<Event>, c: Engine)
    requires Told(a, l, b) && Told(b, m, c)
    ensures Told(a, l + m, c)
  {
    forall k | 0 <= k < |a.devices|
      ensures c.devices[k].power == PowerTold(l + m, a.devices[k].id, a.devices[k].power)
    {
      ToldConcat(l, m, a.devices[k].id, a.devices[k].power);
    }
  }

  /** Where no power changes, any events that are no changes tell so. */
  lemma ToldQuiet(a: Engine, log: seq<Event>, b: Engine)
    requires a.devices == b.devices && |log| <= 1 && forall i :: 0 <= i < |log| ==> !log[i].Changed?
    ensures Told(a, log, b)
  {
    forall id, was
      ensures PowerTold(log, id, was) == was
    {
      if log != [] {
        assert log == [log[0]];
        ToldOne(log[0], id, was);
      }
    }
  }

  /** What an action reports, if anything, is the power its device has afterwards. */
  lemma ActionReports(e: Engine, i: nat, a: Action, param: string, respond: Respond) returns (asked: seq<Event>, told: seq<Event>)
    requires i < |e.devices| && Keyed(e.devices)
    ensures var (next, ok, log) := ApplyTo(e, e.devices[i].id, a, param, respond);
      && |next.devices| == |e.devices|
      && log == asked + told && |asked| <= 1 && |told| <= 1 && (forall k :: 0 <= k < |asked| ==> !asked[k].Changed?)
      && (told == [] ==> forall k :: 0 <= k < |e.devices| ==> next.devices[k].power == e.devices[k].power)
      && (told != [] ==> told[0].Changed? && told[0].device == e.devices[i].id
                         && told[0].power == next.devices[i].power)
      && (told != [] ==> forall k :: 0 <= k < |e.devices| && k != i ==>
            next.devices[k].power == if told[0].what == "estop" then Off else e.devices[k].power)
  {
    hide ApplyTo, Keyed;
    ActionDoes(e, i, a, param, respond);
    var log := ApplyTo(e, e.devices[i].id, a, param, respond).2;
    asked := if e.devices[i].id in e.bound then [IoCall(e.devices[i].id, a, param)] else [];
    told := log[|asked|..];
    assert log == asked + told;
  }

  lemma ActionTold(e: Engine, id: string, a: Action, param: string, respond: Respond)
    requires Keyed(e.devices)
    ensures Told(e, ApplyTo(e, id, a, param, respond).2, ApplyTo(e, id, a, param, respond).0)
  {
    hide ApplyTo, PowerTold;
    var (next, ok, log) := ApplyTo(e, id, a, param, respond);
    var i := Find(e.devices, id);
    if i < |e.devices| {
      var asked, told := ActionReports(e, i, a, param, respond);
      ActionKeepsRegistry(e, id, a, param, respond);
      IdsAt(e, next);
      forall k | 0 <= k < |e.devices|
        ensures next.devices[k].power == PowerTold(log, e.devices[k].id, e.devices[k].power)
      {
        TellsOneAction(asked, told, id, e.devices[k].id, e.devices[k].power);
      }
    } else {
      UnknownDoesNothing(e, id, a, param, respond);
      ToldQuiet(e, [], e);
    }
  }

  lemma IdsAt(a: Engine, b: Engine)
    requires SameRegistry(a, b)
    ensures |b.devices| == |a.devices| && forall k :: 0 <= k < |a.devices| ==> b.devices[k].id == a.devices[k].id
  {
    forall k | 0 <= k < |a.devices|
      ensures b.devices[k].id == a.devices[k].id
    {
      assert Ids(a.devices)[k] == Ids(b.devices)[k];
    }
  }

  lemma UnknownDoesNothing(e: Engine, id: string, a: Action, param: string, respond: Respond)
    requires Find(e.devices, id) == |e.devices|
    ensures ApplyTo(e, id, a, param, respond) == (e, false, [])
  {
  }

  lemma TellsOneAction(asked: seq<Event>, told: seq<Event>, id: string, other: string, was: Power)
    requires |asked| <= 1 && |told| <= 1 && forall i :: 0 <= i < |asked| ==> !asked[i].Changed?
    ensures PowerTold(asked + told, other, was) ==
      if told == [] || !told[0].Changed? then was
      else if told[0].device == other then told[0].power
      else if told[0].what == "estop" then Off else was
  {
    hide PowerTold;
    ToldConcat(asked, told, other, was);
    NothingTold(other, was);
    if asked != [] {
      assert asked == [asked[0]];
      ToldOne(asked[0], other, was);
    }
    if told != [] {
      assert told == [told[0]];
      ToldOne(told[0], other, was);
    }
  }

  lemma NothingTold(id: string, was: Power)
    ensures PowerTold([], id, was) == was
  {
  }

  lemma StaysKeyed(a: Engine, b: Engine)
    requires SameRegistry(a, b) && Keyed(a.devices)
    ensures Keyed(b.devices)
  {
    IdsAt(a, b);
  }

  lemma {:induction false} ConsumingTold(e: Engine, due: seq<Pending>, before: int, respond: Respond)
    requires Keyed(e.devices)
    ensures var (next, log) := ConsumeAll(e, due, before, respond);
      SameRegistry(e, next) && Told(e, log, next)
  {
    hide ApplyTo, Told, Keyed, Ids;
    if due == [] {
      ToldQuiet(e, [], e);
    } else {
      var init, p := due[..|due| - 1], due[|due| - 1];
      ConsumingTold(e, init, before, respond);
      var (prior, log) := ConsumeAll(e, init, before, respond);
      var (next, _, l) := ApplyTo(prior, p.device, p.action, p.param, respond);
      var one := [Consumed(p, e.clock, before)];
      StaysKeyed(e, prior);
      ToldQuiet(prior, one, prior);
      ActionKeepsRegistry(prior, p.device, p.action, p.param, respond);
      ActionTold(prior, p.device, p.action, p.param, respond);
      ToldTrans(e, log, prior, one, prior);
      ToldTrans(e, log + one, prior, l, next);
    }
  }

  lemma ToldAfterRun(a: Engine, log: seq<Event>, b: Engine, c: Engine)
    requires Told(a, log, b) && c.devices == b.devices
    ensures Told(a, log, c)
  {
    hide PowerTold;
  }

  lemma ToldFrom(a: Engine, log: seq<Event>, b: Engine, c: Engine)
    requires Told(b, log, c) && a.devices == b.devices
    ensures Told(a, log, c)
  {
    hide PowerTold;
  }

  lemma SteppingTold(e: Engine, delta: int, respond: Respond)
    requires Keyed(e.devices)
    ensures var (next, log) := StepSequence(e, delta, respond);
      SameRegistry(e, next) && Told(e, log, next)
  {
    hide ApplyTo, Told, Keyed, Ids;
    var (next, log) := StepSequence(e, delta, respond);
    if e.run.running && e.run.index < |StepsOf(e)| && e.run.remaining <= 0 {
      var step := StepsOf(e)[e.run.index];
      var (after, _, l) := ApplyTo(e, step.device, step.action, step.param, respond);
      var one := [StepRun(e.run.index, e.clock)];
      ToldQuiet(e, one, e);
      ActionKeepsRegistry(e, step.device, step.action, step.param, respond);
      ActionTold(e, step.device, step.action, step.param, respond);
      ToldTrans(e, one, e, l, after);
      ToldAfterRun(e, one + l, after, next);
    } else {
      ToldQuiet(e, [], next);
    }
  }

  lemma UpdateTold(e: Engine, now: int, respond: Respond)
    requires Keyed(e.devices)
    ensures var (next, log) := Update(e, now, respond);
      SameRegistry(e, next) && Told(e, log, next)
  {
    hide ConsumeAll, StepSequence, Told, Keyed, Ids, DueBy, LaterThan;
    if e.active && e.clock < now {
      var at := e.(clock := now, pending := LaterThan(e.pending, now));
      var (drained, consumed) := ConsumeAll(at, DueBy(e.pending, now), e.clock, respond);
      ConsumingTold(at, DueBy(e.pending, now), e.clock, respond);
      StaysKeyed(at, drained);
      SteppingTold(drained, now - e.clock, respond);
      var (next, log) := StepSequence(drained, now - e.clock, respond);
      ToldTrans(at, consumed, drained, log, next);
      ToldFrom(e, consumed + log, at, next);
    } else {
      ToldQuiet(e, [], Update(e, now, respond).0);
    }
  }

  lemma {:induction false} QueueingKeepsDevices(e: Engine, targets: seq<string>, a: Action, gap: int)
    ensures QueueAll(e, targets, a, gap).devices == e.devices && QueueAll(e, targets, a, gap).bound == e.bound
  {
    if targets != [] {
      QueueingKeepsDevices(e, targets[..|targets| - 1], a, gap);
    }
  }

  lemma OpTold(e: Engine, op: Op)
    requires Keyed(e.devices)
    ensures var (next, log) := Apply(e, op);
      SameRegistry(e, next) && Told(e, log, next)
  {
    hide Update, ApplyTo, QueueAll, Targets, Told, Keyed, Ids;
    var (next, log) := Apply(e, op);
    match op
    case UpdateOp(now, respond) =>
      UpdateTold(e, now, respond);
    case ExecOp(device, action, param, delay, respond) =>
      ActionKeepsRegistry(e, device, action, param, respond);
      ActionTold(e, device, action, param, respond);
      if 0 < delay {
        ToldQuiet(e, [], next);
      }
    case BatchOp(action, group, gap) =>
      QueueingKeepsDevices(e, Targets(e.devices, group, |e.devices|), action, gap);
      ToldQuiet(e, [], next);
    case _ =>
      ToldQuiet(e, [], next);
  }

  /** Over any run, the reported changes tell the power of every device. */
  lemma {:induction false} PowerIsTold(e: Engine, ops: seq<Op>)
    requires Keyed(e.devices)
    ensures var (next, log) := DeviceRuns.Run(e, ops);
      && SameRegistry(e, next) && |next.devices| == |e.devices|
      && forall k :: 0 <= k < |e.devices| ==>
           next.devices[k].power == PowerTold(log, e.devices[k].id, e.devices[k].power)
  {
    hide Apply, PowerTold, Keyed, Ids;
    if ops == [] {
      ToldQuiet(e, [], e);
    } else {
      var init, op := ops[..|ops| - 1], ops[|ops| - 1];
      PowerIsTold(e, init);
      var (before, log) := DeviceRuns.Run(e, init);
      IdsAt(e, before);
      StaysKeyed(e, before);
      OpTold(before, op);
      ToldTrans(e, log, before, Apply(before, op).1, Apply(before, op).0);
    }
  }

  // ---- whose driver is called ----

  /** An action asked of a device. */
  datatype Request = Request(device: string, action: Action, param: string)

  /** What a consumed action or a step of the sequence asks for. */
  function Asks(ev: Event, steps: seq<Step>): Option<Request> {
    match ev
    case Consumed(p, _, _) => Some(Request(p.device, p.action, p.param))
    case StepRun(j, _) => if j < |steps| then Some(Request(steps[j].device, steps[j].action, steps[j].param)) else None
    case _ => None
  }

  ghost predicate ActedAt(ids: seq<string>, bound: set<string>, steps: seq<Step>, log: seq<Event>, i: nat)
    requires i < |log|
  {
    && (log[i].IoCall? ==> 0 < i && Asks(log[i - 1], steps).Some?)
    && (log[i].Consumed? || log[i].StepRun? ==>
          && Asks(log[i], steps).Some?
          && var r := Asks(log[i], steps).value;
             if r.device in ids && r.device in bound
             then i + 1 < |log| && log[i + 1] == IoCall(r.device, r.action, r.param)
             else i + 1 == |log| || !log[i + 1].IoCall?)
  }

  /** Directly after every action consumed and every step run the driver of its device is called with that very
      action, where a registered device has one, and no driver is called otherwise. */
  ghost predicate Acted(ids: seq<string>, bound: set<string>, steps: seq<Step>, log: seq<Event>) {
    forall i :: 0 <= i < |log| ==> ActedAt(ids, bound, steps, log, i)
  }

  /** The events of one request. */
  ghost predicate Answers(ids: seq<string>, bound: set<string>, r: Request, l: seq<Event>) {
    var heard := r.device in ids && r.device in bound;
    && (heard ==> l != [] && l[0] == IoCall(r.device, r.action, r.param))
    && (forall i :: 0 <= i < |l| ==> Quiet(l[i]) && (l[i].IoCall? ==> heard && i == 0))
  }

  lemma ActionAnswers(e: Engine, id: string, a: Action, param: string, respond: Respond)
    requires Keyed(e.devices)
    ensures Answers(Ids(e.devices), e.bound, Request(id, a, param), ApplyTo(e, id, a, param, respond).2)
  {
    hide ApplyTo, Leaves;
    var i := Find(e.devices, id);
    if i < |e.devices| {
      assert Ids(e.devices)[i] == id;
      ActionDoes(e, i, a, param, respond);
    } else {
      UnknownDoesNothing(e, id, a, param, respond);
    }
  }

  lemma ActedOne(ids: seq<string>, bound: set<string>, steps: seq<Step>, ev: Event, l: seq<Event>)
    requires Asks(ev, steps).Some? && Answers(ids, bound, Asks(ev, steps).value, l)
    ensures Acted(ids, bound, steps, [ev] + l)
  {
    var all := [ev] + l;
    forall i | 0 <= i < |all|
      ensures ActedAt(ids, bound, steps, all, i)
    {
      if i != 0 {
        assert all[i] == l[i - 1] && Quiet(l[i - 1]);
      }
    }
  }

  lemma ActedConcat(ids: seq<string>, bound: set<string>, steps: seq<Step>, a: seq<Event>, b: seq<Event>)
    requires Acted(ids, bound, steps, a) && Acted(ids, bound, steps, b)
    ensures Acted(ids, bound, steps, a + b)
  {
    hide Asks;
    var all := a + b;
    if b != [] {
      assert ActedAt(ids, bound, steps, b, 0);
    }
    forall i | 0 <= i < |all|
      ensures ActedAt(ids, bound, steps, all, i)
    {
      if i < |a| {
        assert ActedAt(ids, bound, steps, a, i);
      } else {
        assert ActedAt(ids, bound, steps, b, i - |a|);
      }
    }
  }

  lemma {:induction false} ConsumingActs(e: Engine, due: seq<Pending>, before: int, steps: seq<Step>, respond: Respond)
    requires Keyed(e.devices)
    ensures Acted(Ids(e.devices), e.bound, steps, ConsumeAll(e, due, before, respond).1)
  {
    hide ApplyTo, Keyed, Acted, Answers, Ids;
    if due == [] {
      NothingActed(Ids(e.devices), e.bound, steps);
    } else {
      var init, p := due[..|due| - 1], due[|due| - 1];
      ConsumingActs(e, init, before, steps, respond);
      ConsumingTold(e, init, before, respond);
      var (prior, log) := ConsumeAll(e, init, before, respond);
      StaysKeyed(e, prior);
      ActionAnswers(prior, p.device, p.action, p.param, respond);
      var l := ApplyTo(prior, p.device, p.action, p.param, respond).2;
      var ev := Consumed(p, e.clock, before);
      ActedOne(Ids(e.devices), e.bound, steps, ev, l);
      ActedConcat(Ids(e.devices), e.bound, steps, log, [ev] + l);
      assert log + [ev] + l == log + ([ev] + l);
    }
  }

  lemma NothingActed(ids: seq<string>, bound: set<string>, steps: seq<Step>)
    ensures Acted(ids, bound, steps, [])
  {
  }

  lemma SteppingActs(e: Engine, delta: int, respond: Respond)
    requires Keyed(e.devices)
    ensures Acted(Ids(e.devices), e.bound, StepsOf(e), StepSequence(e, delta, respond).1)
  {
    hide ApplyTo, Keyed, Acted, Answers, Ids, StepsOf;
    NothingActed(Ids(e.devices), e.bound, StepsOf(e));
    if e.run.running && e.run.index < |StepsOf(e)| && e.run.remaining <= 0 {
      var step := StepsOf(e)[e.run.index];
      ActionAnswers(e, step.device, step.action, step.param, respond);
      var l := ApplyTo(e, step.device, step.action, step.param, respond).2;
      ActedOne(Ids(e.devices), e.bound, StepsOf(e), StepRun(e.run.index, e.clock), l);
    }
  }

  /** An update calls, for every action it consumes and the step it runs, the driver of the device named, directly and
      with that very action, and no other. */
  lemma UpdateActs(e: Engine, now: int, respond: Respond)
    requires Keyed(e.devices)
    ensures Acted(Ids(e.devices), e.bound, StepsOf(e), Update(e, now, respond).1)
  {
    hide ConsumeAll, StepSequence, Keyed, Acted, Ids, DueBy, LaterThan, StepsOf;
    NothingActed(Ids(e.devices), e.bound, StepsOf(e));
    if e.active && e.clock < now {
      var at := e.(clock := now, pending := LaterThan(e.pending, now));
      var due := DueBy(e.pending, now);
      var (drained, consumed) := ConsumeAll(at, due, e.clock, respond);
      ConsumingTold(at, due, e.clock, respond);
      ConsumingActs(at, due, e.clock, StepsOf(e), respond);
      StaysKeyed(at, drained);
      ConsumingKeepsSteps(e, now, respond);
      SteppingActs(drained, now - e.clock, respond);
      var log := StepSequence(drained, now - e.clock, respond).1;
      ActedConcat(Ids(e.devices), e.bound, StepsOf(e), consumed, log);
    }
  }

  lemma {:induction false} ConsumingKeepsPlan(e: Engine, due: seq<Pending>, before: int, respond: Respond)
    ensures SamePlan(e, ConsumeAll(e, due, before, respond).0)
  {
    hide ApplyTo;
    if due != [] {
      var init, p := due[..|due| - 1], due[|due| - 1];
      ConsumingKeepsPlan(e, init, before, respond);
      ActionKeepsPlan(ConsumeAll(e, init, before, respond).0, p.device, p.action, p.param, respond);
    }
  }

  lemma ConsumingKeepsSteps(e: Engine, now: int, respond: Respond)
    ensures var at := e.(clock := now, pending := LaterThan(e.pending, now));
      StepsOf(ConsumeAll(at, DueBy(e.pending, now), e.clock, respond).0) == StepsOf(e)
  {
    hide ConsumeAll, DueBy, LaterThan;
    ConsumingKeepsPlan(e.(clock := now, pending := LaterThan(e.pending, now)), DueBy(e.pending, now), e.clock, respond);
  }

  /** With a sound past, the steps run while a sequence runs carry out the actions of the sequence triggered. */
  lemma StepsCarriedOut(e: Engine, past: Past, now: int, respond: Respond)
    requires Keyed(e.devices) && Sound(e, past) && e.run.running
    ensures Acted(Ids(e.devices), e.bound, past.steps, Update(e, now, respond).1)
  {
    hide Update, Acted, QueueOk, AtStep, Spaced;
    UpdateActs(e, now, respond);
  }
}
