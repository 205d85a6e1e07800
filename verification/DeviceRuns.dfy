/** Whole runs of the device engine: every delayed action is consumed once and on time, and a sequence runs its
    steps in order with their delays kept. */
module DeviceRuns {
  import opened Device

  // ---- what a log tells ----

  /** The numbers of the queued actions consumed, in order. */
  function Taken(log: seq<Event>): seq<nat> {
    if log == [] then []
    else
      var e := log[|log| - 1];
      Taken(log[..|log| - 1]) + if e.Consumed? then [e.p.serial] else []
  }

  /** The sequence steps run, with the clock they ran at. */
  function Ran(log: seq<Event>): seq<(nat, int)> {
    if log == [] then []
    else
      var e := log[|log| - 1];
      Ran(log[..|log| - 1]) + if e.StepRun? then [(e.index, e.at)] else []
  }

  /** A consumed action was due, and was not yet due, or not yet queued, when the clock last advanced. */
  predicate OnTime(e: Event) {
    e.Consumed? ==> e.p.due <= e.at && e.before < e.at && (e.before < e.p.due || e.before == e.p.queuedAt)
  }

  ghost predicate AllOnTime(log: seq<Event>) {
    forall i :: 0 <= i < |log| ==> OnTime(log[i])
  }

  ghost predicate EmergencyStop(log: seq<Event>) {
    exists i :: 0 <= i < |log| && log[i].Changed? && log[i].what == "estop"
  }

  lemma {:induction false} Tells(a: seq<Event>, b: seq<Event>)
    ensures Taken(a + b) == Taken(a) + Taken(b)
    ensures Ran(a + b) == Ran(a) + Ran(b)
  {
    if b == [] {
      assert a + b == a;
    } else {
      assert (a + b)[..|a + b| - 1] == a + b[..|b| - 1];
      Tells(a, b[..|b| - 1]);
    }
  }

  /** Neither consumption nor a step. */
  predicate Quiet(e: Event) {
    !e.Consumed? && !e.StepRun?
  }

  lemma {:induction false} QuietTells(log: seq<Event>)
    requires forall i :: 0 <= i < |log| ==> Quiet(log[i])
    ensures Taken(log) == [] && Ran(log) == [] && AllOnTime(log)
  {
    if log != [] {
      QuietTells(log[..|log| - 1]);
    }
  }

  lemma TellsOne(e: Event)
    ensures Taken([e]) == if e.Consumed? then [e.p.serial] else []
    ensures Ran([e]) == if e.StepRun? then [(e.index, e.at)] else []
  {
    assert [e][..0] == [];
  }

  // ---- one action ----

  /** What an action leaves alone. */
  predicate SamePlan(a: Engine, b: Engine) {
    && a.pending == b.pending && a.sequences == b.sequences && a.clock == b.clock && a.active == b.active
    && a.queued == b.queued && (b.run == a.run || b.run == a.run.(running := false))
  }

  lemma ActionKeepsPlan(e: Engine, id: string, a: Action, param: string, respond: Respond)
    ensures var (next, ok, log) := ApplyTo(e, id, a, param, respond);
      && SamePlan(e, next)
      && (forall i :: 0 <= i < |log| ==> Quiet(log[i]))
      && (next.run != e.run ==> EmergencyStop(log)) && (EmergencyStop(log) ==> !next.run.running)
  {
    hide Ask, Perform, ActionName, Find, EmergencyStop;
    NoEmergency();
    var i := Find(e.devices, id);
    if i < |e.devices| {
      var dev := e.devices[i];
      var (called, answered, asked) := Ask(e, dev.id, a, param, respond);
      AskKeepsPlan(e, dev.id, a, param, respond);
      PerformKeepsPlan(called, i, a, param);
      EmergencyIn(asked, Perform(called, i, a, param).1);
      EmergencyOne(Changed(dev.id, "fault", Fault));
      EmergencyIn(asked, [Changed(dev.id, "fault", Fault)]);
    }
  }

  lemma AskKeepsPlan(e: Engine, id: string, a: Action, param: string, respond: Respond)
    ensures var (next, ok, log) := Ask(e, id, a, param, respond);
      && SamePlan(e, next) && next.devices == e.devices && next.run == e.run && !EmergencyStop(log)
      && forall i :: 0 <= i < |log| ==> Quiet(log[i])
  {
  }

  lemma PerformKeepsPlan(e: Engine, i: nat, a: Action, param: string)
    requires i < |e.devices|
    ensures var (next, log) := Perform(e, i, a, param);
      && SamePlan(e, next) && (forall k :: 0 <= k < |log| ==> Quiet(log[k]))
      && (next.run != e.run ==> EmergencyStop(log)) && (EmergencyStop(log) ==> !next.run.running)
  {
    hide PowerAfter, ErrorAfter, ActionName, OthersOff, EmergencyStop;
    EmergencyOne(Perform(e, i, a, param).1[0]);
    OnlyEStopIsEmergency(a);
  }

  lemma OnlyEStopIsEmergency(a: Action)
    ensures ActionName(a) == "estop" <==> a == EStop
  {
  }

  /** A successful emergency stop ends the sequence and leaves every device powered off. */
  lemma EmergencyStopsAll(e: Engine, i: nat, param: string, respond: Respond)
    requires i < |e.devices| && forall j, k :: 0 <= j < k < |e.devices| ==> e.devices[j].id != e.devices[k].id
    ensures var (next, ok, log) := ApplyAction(e, i, EStop, param, respond);
      && (ok <==> !(e.devices[i].id in e.bound && !respond(e.devices[i].id, EStop, param, e.calls)) && e.devices[i].online)
      && (ok ==> !next.run.running && forall k :: 0 <= k < |next.devices| ==> next.devices[k].power == Off)
  {
  }

  // ---- the queue ----

  function Serials(pending: seq<Pending>): (r: seq<nat>)
    ensures |r| == |pending| && forall i :: 0 <= i < |r| ==> r[i] == pending[i].serial
  {
    seq(|pending|, i requires 0 <= i < |pending| => pending[i].serial)
  }

  function Numbers(n: nat): seq<nat> {
    if n == 0 then [] else Numbers(n - 1) + [n - 1]
  }

  lemma SerialsSnoc(init: seq<Pending>, p: Pending)
    ensures multiset(Serials(init + [p])) == multiset(Serials(init)) + multiset{p.serial}
    ensures Serials(init + [p]) == Serials(init) + [p.serial]
  {
    assert Serials(init + [p]) == Serials(init) + [p.serial];
  }

  /** Splitting the queue by what is due keeps every action. */
  lemma {:induction false} SplitKeepsAll(pending: seq<Pending>, clock: int)
    ensures multiset(Serials(pending)) == multiset(Serials(DueBy(pending, clock))) + multiset(Serials(LaterThan(pending, clock)))
  {
    hide Serials;
    if pending == [] {
      assert Serials([]) == [];
    } else {
      var init, p := pending[..|pending| - 1], pending[|pending| - 1];
      SplitKeepsAll(init, clock);
      assert pending == init + [p];
      SerialsSnoc(init, p);
      SerialsSnoc(DueBy(init, clock), p);
      SerialsSnoc(LaterThan(init, clock), p);
      assert DueBy(init, clock) + [] == DueBy(init, clock) && LaterThan(init, clock) + [] == LaterThan(init, clock);
    }
  }

  lemma {:induction false} SplitByDue(pending: seq<Pending>, clock: int)
    ensures forall i :: 0 <= i < |DueBy(pending, clock)| ==> DueBy(pending, clock)[i] in pending && DueBy(pending, clock)[i].due <= clock
    ensures forall i :: 0 <= i < |LaterThan(pending, clock)| ==> LaterThan(pending, clock)[i] in pending && clock < LaterThan(pending, clock)[i].due
  {
    if pending != [] {
      SplitByDue(pending[..|pending| - 1], clock);
    }
  }

  /** Waiting actions: not yet due, or queued since the clock last advanced. */
  predicate Waiting(p: Pending, clock: int) {
    clock < p.due || clock == p.queuedAt
  }

  ghost predicate AllWaiting(pending: seq<Pending>, clock: int) {
    forall i :: 0 <= i < |pending| ==> Waiting(pending[i], clock)
  }

  /** What consuming one more action adds to a log. */
  lemma ConsumedTells(log: seq<Event>, p: Pending, at: int, before: int, l: seq<Event>)
    requires AllOnTime(log) && Ran(log) == [] && before < at && p.due <= at && Waiting(p, before)
    requires forall i :: 0 <= i < |l| ==> Quiet(l[i])
    ensures var all := log + [Consumed(p, at, before)] + l;
      && Taken(all) == Taken(log) + [p.serial] && Ran(all) == [] && AllOnTime(all)
      && (EmergencyStop(log) || EmergencyStop(l) ==> EmergencyStop(all))
  {
    hide Taken, Ran, EmergencyStop;
    var one := [Consumed(p, at, before)];
    QuietTells(l);
    TellsOne(one[0]);
    Tells(log, one);
    Tells(log + one, l);
    LaterStops(log, one, l);
  }

  lemma SamePlanRefl(e: Engine)
    ensures SamePlan(e, e)
  {
  }

  lemma SamePlanTrans(a: Engine, b: Engine, c: Engine)
    requires SamePlan(a, b) && SamePlan(b, c)
    ensures SamePlan(a, c) && a.clock == b.clock
  {
  }

  lemma {:induction false} ConsumingTells(e: Engine, due: seq<Pending>, before: int, respond: Respond)
    requires before < e.clock && forall i :: 0 <= i < |due| ==> due[i].due <= e.clock && Waiting(due[i], before)
    ensures var (next, log) := ConsumeAll(e, due, before, respond);
      && SamePlan(e, next) && Taken(log) == Serials(due) && Ran(log) == [] && AllOnTime(log)
      && (next.run != e.run ==> EmergencyStop(log))
  {
    hide Taken, Ran, ApplyTo, AllOnTime, EmergencyStop, SamePlan, Serials, Waiting;
    if due == [] {
      QuietTells([]);
      assert Serials([]) == [];
      SamePlanRefl(e);
    } else {
      var init, p := due[..|due| - 1], due[|due| - 1];
      ConsumingTells(e, init, before, respond);
      var (prior, log) := ConsumeAll(e, init, before, respond);
      var (next, _, l) := ApplyTo(prior, p.device, p.action, p.param, respond);
      ActionKeepsPlan(prior, p.device, p.action, p.param, respond);
      SamePlanTrans(e, prior, next);
      ConsumedTells(log, p, e.clock, before, l);
      assert due == init + [p];
      SerialsSnoc(init, p);
    }
  }

  lemma LaterStops(a: seq<Event>, b: seq<Event>, c: seq<Event>)
    ensures EmergencyStop(a) || EmergencyStop(c) ==> EmergencyStop(a + b + c)
  {
    var all := a + b + c;
    if EmergencyStop(a) {
      var i :| 0 <= i < |a| && a[i].Changed? && a[i].what == "estop";
      assert all[i] == a[i];
    } else if EmergencyStop(c) {
      var i :| 0 <= i < |c| && c[i].Changed? && c[i].what == "estop";
      assert all[|a| + |b| + i] == c[i];
    }
  }

  // ---- invariants of runs ----

  /** What an engine has been through: all it has done, the numbers of the queued actions that stops dropped, and,
      since the latest trigger, the steps triggered, those run, and whether an abort, a stop or an emergency stop
      has come. */
  datatype Past = Past(log: seq<Event>, dropped: seq<nat>, steps: seq<Step>, ran: seq<(nat, int)>, halted: bool)

  /** Every queued action is, exactly once, consumed, dropped or waiting. */
  ghost predicate Conserved(e: Engine, past: Past) {
    multiset(Taken(past.log)) + multiset(past.dropped) + multiset(Serials(e.pending)) == multiset(Numbers(e.queued))
  }

  function Longer(a: int, b: int): int {
    if a < b then b else a
  }

  /** The steps run so far are the first ones of the sequence, each at its turn and with its delay kept before the
      next. */
  ghost predicate Spaced(steps: seq<Step>, ran: seq<(nat, int)>) {
    && |ran| <= |steps|
    && (forall j :: 0 <= j < |ran| ==> ran[j].0 == j)
    && (forall j :: 0 <= j < |ran| - 1 ==> ran[j].1 + Longer(0, steps[j].delay) < ran[j + 1].1)
  }

  /** Where a running sequence is. */
  ghost predicate AtStep(e: Engine, steps: seq<Step>, ran: seq<(nat, int)>)
    requires |ran| <= |steps|
  {
    var m := |ran|;
    if 0 < e.run.remaining then
      0 < m && e.run.index == m - 1 && 0 < steps[m - 1].delay && ran[m - 1].1 + steps[m - 1].delay == e.clock + e.run.remaining
    else
      e.run.index == m && (0 < m ==> ran[m - 1].1 + Longer(0, steps[m - 1].delay) <= e.clock)
  }

  ghost predicate Sequenced(e: Engine, steps: seq<Step>, ran: seq<(nat, int)>) {
    Spaced(steps, ran) && (e.run.running ==> StepsOf(e) == steps && AtStep(e, steps, ran))
  }

  // ---- one step of the sequencer ----

  lemma StoppedRunsNothing(e: Engine, delta: int, respond: Respond)
    requires !e.run.running
    ensures StepSequence(e, delta, respond) == (e, [])
  {
  }

  lemma SteppingTells(e: Engine, from: Engine, steps: seq<Step>, ran: seq<(nat, int)>, respond: Respond)
    requires from.clock < e.clock && e.run == from.run && e.sequences == from.sequences && Sequenced(from, steps, ran)
    ensures var (next, log) := StepSequence(e, e.clock - from.clock, respond);
      && SamePlan(e, next.(run := e.run)) && Taken(log) == [] && AllOnTime(log)
      && |Ran(log)| <= 1 && Sequenced(next, steps, ran + Ran(log))
      && (e.run.running && !next.run.running ==> |ran + Ran(log)| == |steps| || EmergencyStop(log))
  {
    hide ApplyTo, Taken, Ran, EmergencyStop;
    QuietTells([]);
    assert ran + [] == ran;
    if e.run.running && e.run.index < |StepsOf(e)| && e.run.remaining <= 0 {
      RunningTells(e, from, steps, ran, respond);
    }
  }

  lemma SpacedMore(steps: seq<Step>, ran: seq<(nat, int)>, from: Engine, at: int)
    requires Spaced(steps, ran) && AtStep(from, steps, ran) && from.run.remaining <= 0
    requires from.clock < at && from.run.index < |steps|
    ensures from.run.index == |ran| && Spaced(steps, ran + [(|ran|, at)])
  {
    var more := ran + [(|ran|, at)];
    forall j | 0 <= j < |more| - 1
      ensures more[j].1 + Longer(0, steps[j].delay) < more[j + 1].1
    {
      if j < |ran| - 1 {
        assert more[j] == ran[j] && more[j + 1] == ran[j + 1];
      }
    }
  }

  lemma AtStepAfter(e: Engine, next: Engine, steps: seq<Step>, ran: seq<(nat, int)>)
    requires Spaced(steps, ran + [(|ran|, e.clock)]) && next.clock == e.clock && |ran| < |steps|
    requires var delay := steps[|ran|].delay;
      if delay <= 0 then next.run.index == |ran| + 1 && next.run.remaining == 0
      else next.run.index == |ran| && next.run.remaining == delay
    ensures AtStep(next, steps, ran + [(|ran|, e.clock)])
  {
    var more := ran + [(|ran|, e.clock)];
    assert more[|more| - 1] == (|ran|, e.clock);
  }

  /** The update that runs a step. */
  lemma RunningTells(e: Engine, from: Engine, steps: seq<Step>, ran: seq<(nat, int)>, respond: Respond)
    requires from.clock < e.clock && e.run == from.run && e.sequences == from.sequences && Sequenced(from, steps, ran)
    requires e.run.running && e.run.index < |StepsOf(e)| && e.run.remaining <= 0
    ensures var (next, log) := StepSequence(e, e.clock - from.clock, respond);
      && SamePlan(e, next.(run := e.run)) && Taken(log) == [] && AllOnTime(log)
      && Ran(log) == [(e.run.index, e.clock)] && Sequenced(next, steps, ran + Ran(log))
      && (!next.run.running ==> EmergencyStop(log))
  {
    hide ApplyTo, Taken, Ran, EmergencyStop, Spaced, AtStep;
    SpacedMore(steps, ran, from, e.clock);
    var step := steps[e.run.index];
    var (next, ok, l) := ApplyTo(e, step.device, step.action, step.param, respond);
    ActionKeepsPlan(e, step.device, step.action, step.param, respond);
    QuietTells(l);
    var ev := StepRun(e.run.index, e.clock);
    TellsOne(ev);
    Tells([ev], l);
    LaterStops([], [ev], l);
    assert [] + [ev] + l == [ev] + l;
    assert AllOnTime([ev] + l);
    AtStepAfter(e, StepSequence(e, e.clock - from.clock, respond).0, steps, ran);
  }

  // ---- one operation ----

  /** The clock does not go back, and the running sequence is not redefined. */
  ghost predicate InTime(e: Engine, op: Op) {
    && (op.UpdateOp? && e.active ==> e.clock <= op.now)
    && (op.DefineOp? && e.run.running ==> op.name != e.run.name)
  }

  ghost predicate QueueOk(e: Engine, past: Past) {
    Conserved(e, past) && AllWaiting(e.pending, e.clock) && AllOnTime(past.log)
  }

  /** A sequence is over exactly when it was halted or has run all its steps, the latter as soon as it is noticed. */
  ghost predicate HaltsOk(e: Engine, past: Past) {
    && (past.halted ==> !e.run.running)
    && (!e.run.running ==> past.halted || |past.ran| == |past.steps|)
  }

  ghost predicate Sound(e: Engine, past: Past) {
    QueueOk(e, past) && Sequenced(e, past.steps, past.ran) && HaltsOk(e, past)
  }

  /** The past after one more operation. */
  ghost function Remember(e: Engine, past: Past, op: Op): Past {
    var l := Apply(e, op).1;
    if op.TriggerOp? && Trigger(e, op.name).1 then past.(steps := e.sequences[op.name], ran := [], halted := false)
    else
      Past(past.log + l, past.dropped + if op.StopOp? then Serials(e.pending) else [], past.steps, past.ran + Ran(l),
           past.halted || op.AbortOp? || op.StopOp? || EmergencyStop(l))
  }

  lemma OnTimeConcat(a: seq<Event>, b: seq<Event>)
    requires AllOnTime(a) && AllOnTime(b)
    ensures AllOnTime(a + b)
  {
  }

  /** The queue's part of an advancing update. */
  lemma DrainingTells(e: Engine, now: int, respond: Respond)
    requires e.clock < now && AllWaiting(e.pending, e.clock)
    ensures var at := e.(clock := now, pending := LaterThan(e.pending, now));
      var (next, log) := ConsumeAll(at, DueBy(e.pending, now), e.clock, respond);
      && SamePlan(at, next) && Taken(log) == Serials(DueBy(e.pending, now)) && Ran(log) == [] && AllOnTime(log)
      && AllWaiting(next.pending, now) && (next.run != e.run ==> EmergencyStop(log))
  {
    hide Taken, Ran, DueBy, LaterThan, ConsumeAll;
    SplitByDue(e.pending, now);
    var at := e.(clock := now, pending := LaterThan(e.pending, now));
    ConsumingTells(at, DueBy(e.pending, now), e.clock, respond);
  }

  lemma UpdateTells(e: Engine, now: int, respond: Respond, steps: seq<Step>, ran: seq<(nat, int)>)
    requires e.active && e.clock < now && AllWaiting(e.pending, e.clock) && Sequenced(e, steps, ran)
    ensures var (next, log) := Update(e, now, respond);
      && next.active && next.clock == now && next.queued == e.queued && next.sequences == e.sequences
      && next.pending == LaterThan(e.pending, now) && AllWaiting(next.pending, now)
      && Taken(log) == Serials(DueBy(e.pending, now)) && AllOnTime(log)
      && |Ran(log)| <= 1 && Sequenced(next, steps, ran + Ran(log))
      && (e.run.running && !next.run.running ==> |ran + Ran(log)| == |steps| || EmergencyStop(log))
  {
    hide Taken, Ran, DueBy, LaterThan, ConsumeAll, StepSequence, AllWaiting, EmergencyStop;
    var at := e.(clock := now, pending := LaterThan(e.pending, now));
    var (drained, consumed) := ConsumeAll(at, DueBy(e.pending, now), e.clock, respond);
    DrainingTells(e, now, respond);
    var from := e.(run := drained.run);
    assert Sequenced(from, steps, ran);
    SteppingTells(drained, from, steps, ran, respond);
    var (next, log) := StepSequence(drained, now - e.clock, respond);
    Tells(consumed, log);
    assert [] + Ran(log) == Ran(log) && Taken(consumed) + [] == Taken(consumed);
    OnTimeConcat(consumed, log);
    LaterStops(consumed, [], log);
    assert consumed + [] + log == consumed + log;
  }

  lemma QueuedOne(e: Engine, p: Pending, past: Past)
    requires p.serial == e.queued && p.queuedAt == e.clock && QueueOk(e, past)
    ensures QueueOk(e.(pending := e.pending + [p], queued := e.queued + 1), past)
  {
    hide Taken, Serials, AllOnTime;
    SerialsSnoc(e.pending, p);
  }

  lemma {:induction false} QueueingTells(e: Engine, targets: seq<string>, a: Action, gap: int, past: Past)
    requires QueueOk(e, past)
    ensures var next := QueueAll(e, targets, a, gap);
      next == e.(pending := next.pending, queued := next.queued) && QueueOk(next, past)
  {
    hide QueueOk;
    if targets != [] {
      var n := |targets| - 1;
      var before := QueueAll(e, targets[..n], a, gap);
      QueueingTells(e, targets[..n], a, gap, past);
      QueuedOne(before, Pending(before.queued, e.clock, e.clock + Times(n, gap), targets[n], a, ""), past);
    }
  }

  lemma SequencedSameRun(e: Engine, next: Engine, steps: seq<Step>, ran: seq<(nat, int)>)
    requires Sequenced(e, steps, ran) && next.clock == e.clock
    requires e.run.running ==> StepsOf(next) == StepsOf(e)
    requires next.run == e.run || next.run == e.run.(running := false)
    ensures Sequenced(next, steps, ran)
  {
  }

  lemma UpdateKeeps(e: Engine, now: int, respond: Respond, past: Past)
    requires e.active && e.clock < now && Sound(e, past)
    ensures Sound(Update(e, now, respond).0, Remember(e, past, UpdateOp(now, respond)))
    ensures |Ran(Update(e, now, respond).1)| <= 1
  {
    hide Taken, Ran, Sequenced, AllWaiting, AllOnTime, EmergencyStop, Serials, DueBy, LaterThan, Update;
    var l := Update(e, now, respond).1;
    Tells(past.log, l);
    UpdateTells(e, now, respond, past.steps, past.ran);
    SplitKeepsAll(e.pending, now);
    OnTimeConcat(past.log, l);
    OpHalts(e, UpdateOp(now, respond));
    assert past.dropped + [] == past.dropped;
  }

  /** An operation that does nothing but queue, or end the sequence. */
  lemma SilentKeeps(e: Engine, op: Op, past: Past)
    requires Sound(e, past) && Apply(e, op).1 == [] && !op.TriggerOp? && !op.StopOp? && QueueOk(Apply(e, op).0, past)
    requires Apply(e, op).0.clock == e.clock && (e.run.running ==> StepsOf(Apply(e, op).0) == StepsOf(e))
    requires Apply(e, op).0.run == if op.AbortOp? then e.run.(running := false) else e.run
    ensures Sound(Apply(e, op).0, Remember(e, past, op)) && |Ran(Apply(e, op).1)| <= 1
  {
    hide Apply, AllWaiting, AllOnTime, Spaced, AtStep, StepsOf, Taken, Serials, Ran, EmergencyStop;
    NothingRemembered(past);
    SequencedSameRun(e, Apply(e, op).0, past.steps, past.ran);
    assert Remember(e, past, op) == past.(halted := past.halted || op.AbortOp?);
  }

  lemma NothingRemembered(past: Past)
    ensures past.log + [] == past.log && past.dropped + [] == past.dropped && past.ran + Ran([]) == past.ran
    ensures Ran([]) == [] && Taken([]) == [] && !EmergencyStop([])
  {
    assert past.ran + [] == past.ran;
  }

  lemma ActionKeeps(e: Engine, id: string, a: Action, param: string, respond: Respond, delay: int, past: Past)
    requires Sound(e, past) && delay <= 0
    ensures var op := ExecOp(id, a, param, delay, respond);
      Sound(Apply(e, op).0, Remember(e, past, op)) && |Ran(Apply(e, op).1)| <= 1
  {
    hide Taken, Ran, Sequenced, AllWaiting, EmergencyStop, Serials, ApplyTo, AllOnTime;
    var (next, _, l) := ApplyTo(e, id, a, param, respond);
    Tells(past.log, l);
    ActionKeepsPlan(e, id, a, param, respond);
    QuietTells(l);
    assert past.ran + [] == past.ran && Taken(past.log) + [] == Taken(past.log) && past.dropped + [] == past.dropped;
    OnTimeConcat(past.log, l);
    SequencedSameRun(e, next, past.steps, past.ran);
    OpHalts(e, ExecOp(id, a, param, delay, respond));
  }

  lemma StopKeeps(e: Engine, past: Past)
    requires Sound(e, past)
    ensures Sound(Apply(e, StopOp).0, Remember(e, past, StopOp)) && Ran(Apply(e, StopOp).1) == []
  {
    hide Taken, AllOnTime, Spaced, AtStep;
    NothingRemembered(past);
    assert multiset(past.dropped + Serials(e.pending)) == multiset(past.dropped) + multiset(Serials(e.pending));
    assert Serials([]) == [];
  }

  lemma TriggerKeeps(e: Engine, name: string, past: Past)
    requires Sound(e, past)
    ensures Sound(Apply(e, TriggerOp(name)).0, Remember(e, past, TriggerOp(name))) && Ran(Apply(e, TriggerOp(name)).1) == []
  {
    hide Taken, AllOnTime, AllWaiting, Serials, EmergencyStop, Ran, Sequenced;
    NothingRemembered(past);
    if Trigger(e, name).1 {
      FromFirstStep(Trigger(e, name).0, e.sequences[name]);
    }
  }

  /** Just triggered, with nothing run. */
  lemma FromFirstStep(e: Engine, steps: seq<Step>)
    requires e.run.running && e.run.index == 0 && e.run.remaining == 0 && StepsOf(e) == steps
    ensures Sequenced(e, steps, [])
  {
  }

  /** Every operation keeps the queue conserved and on time, the sequence in order and its delays kept, and runs at
      most one step. */
  lemma OpTells(e: Engine, op: Op, past: Past)
    requires InTime(e, op) && Sound(e, past)
    ensures Sound(Apply(e, op).0, Remember(e, past, op)) && |Ran(Apply(e, op).1)| <= 1
  {
    hide Remember, Sequenced, HaltsOk, EmergencyStop, ApplyTo, QueueAll, Targets, ConsumeAll, StepSequence, DueBy;
    hide Conserved, AllWaiting, AllOnTime, LaterThan, Ran;
    match op
    case UpdateOp(now, respond) =>
      if e.active && e.clock < now {
        UpdateKeeps(e, now, respond, past);
      } else {
        SilentKeeps(e, op, past);
      }
    case ExecOp(device, action, param, delay, respond) =>
      if 0 < delay {
        QueuedOne(e, Pending(e.queued, e.clock, e.clock + delay, device, action, param), past);
        SilentKeeps(e, op, past);
      } else {
        ActionKeeps(e, device, action, param, respond, delay, past);
      }
    case BatchOp(action, group, gap) =>
      QueueingTells(e, Targets(e.devices, group, |e.devices|), action, gap, past);
      SilentKeeps(e, op, past);
    case AbortOp =>
      SameQueue(e, e.(run := e.run.(running := false)), past);
      SilentKeeps(e, op, past);
    case TriggerOp(name) =>
      TriggerKeeps(e, name, past);
    case DefineOp(name, steps) =>
      SameQueue(e, e.(sequences := e.sequences[name := steps]), past);
      SilentKeeps(e, op, past);
    case StartOp =>
      SameQueue(e, e.(active := true), past);
      SilentKeeps(e, op, past);
    case StopOp =>
      StopKeeps(e, past);
  }

  lemma SameQueue(e: Engine, next: Engine, past: Past)
    requires QueueOk(e, past) && next.pending == e.pending && next.clock == e.clock && next.queued == e.queued
    ensures QueueOk(next, past)
  {
  }

  // ---- what ends a sequence ----

  /** A successful emergency stop ends the sequence, and nothing but a trigger starts one. */
  lemma ActionHalts(e: Engine, id: string, a: Action, param: string, respond: Respond)
    ensures var (next, _, l) := ApplyTo(e, id, a, param, respond);
      (EmergencyStop(l) || !e.run.running ==> !next.run.running) && Ran(l) == []
  {
    ActionKeepsPlan(e, id, a, param, respond);
    QuietTells(ApplyTo(e, id, a, param, respond).2);
  }

  lemma {:induction false} ConsumingHalts(e: Engine, due: seq<Pending>, before: int, respond: Respond)
    ensures var (next, l) := ConsumeAll(e, due, before, respond);
      (EmergencyStop(l) || !e.run.running ==> !next.run.running) && Ran(l) == []
  {
    hide ApplyTo, EmergencyStop, Ran;
    if due == [] {
      QuietTells([]);
      NoEmergency();
    } else {
      var init, p := due[..|due| - 1], due[|due| - 1];
      ConsumingHalts(e, init, before, respond);
      var (prior, log) := ConsumeAll(e, init, before, respond);
      var l := ApplyTo(prior, p.device, p.action, p.param, respond).2;
      var one := [Consumed(p, e.clock, before)];
      ActionHalts(prior, p.device, p.action, p.param, respond);
      EmergencyIn(log, one);
      EmergencyIn(log + one, l);
      EmergencyOne(one[0]);
      Tells(log, one);
      Tells(log + one, l);
      TellsOne(one[0]);
    }
  }

  lemma NoEmergency()
    ensures !EmergencyStop([])
  {
  }

  lemma EmergencyOne(e: Event)
    ensures EmergencyStop([e]) <==> e.Changed? && e.what == "estop"
  {
    assert [e][0] == e;
  }

  lemma EmergencyIn(a: seq<Event>, b: seq<Event>)
    ensures EmergencyStop(a + b) <==> EmergencyStop(a) || EmergencyStop(b)
  {
    LaterStops(a, [], b);
    assert a + [] + b == a + b;
    if EmergencyStop(a + b) {
      var i :| 0 <= i < |a + b| && (a + b)[i].Changed? && (a + b)[i].what == "estop";
      assert if i < |a| then a[i] == (a + b)[i] else b[i - |a|] == (a + b)[i];
    }
  }

  lemma SteppingHalts(e: Engine, delta: int, respond: Respond)
    ensures var (next, l) := StepSequence(e, delta, respond);
      (EmergencyStop(l) || !e.run.running ==> !next.run.running) && (!e.run.running ==> l == [])
  {
    hide ApplyTo, EmergencyStop;
    NoEmergency();
    if e.run.running && e.run.index < |StepsOf(e)| && e.run.remaining <= 0 {
      var step := StepsOf(e)[e.run.index];
      ActionHalts(e, step.device, step.action, step.param, respond);
      EmergencyOne(StepRun(e.run.index, e.clock));
      EmergencyIn([StepRun(e.run.index, e.clock)], ApplyTo(e, step.device, step.action, step.param, respond).2);
    }
  }

  lemma UpdateHalts(e: Engine, now: int, respond: Respond)
    ensures var (next, l) := Update(e, now, respond);
      && (EmergencyStop(l) || !e.run.running ==> !next.run.running)
      && (!e.run.running ==> Ran(l) == [])
  {
    hide ConsumeAll, StepSequence, EmergencyStop, Ran;
    NoEmergency();
    QuietTells([]);
    if e.active && e.clock < now {
      var at := e.(clock := now, pending := LaterThan(e.pending, now));
      var (drained, consumed) := ConsumeAll(at, DueBy(e.pending, now), e.clock, respond);
      ConsumingHalts(at, DueBy(e.pending, now), e.clock, respond);
      SteppingHalts(drained, now - e.clock, respond);
      EmergencyIn(consumed, StepSequence(drained, now - e.clock, respond).1);
      assert consumed + [] == consumed;
    }
  }

  /** The operations after which no sequence runs: an abort, a stop, and any that made a successful emergency stop.
      A sequence that is not running runs no step and starts again only by a trigger. */
  lemma OpHalts(e: Engine, op: Op)
    ensures var (next, l) := Apply(e, op);
      && (op.AbortOp? || op.StopOp? || EmergencyStop(l) ==> !next.run.running)
      && (!e.run.running && !op.TriggerOp? ==> !next.run.running && Ran(l) == [])
  {
    hide Update, ApplyTo, QueueAll, Targets, EmergencyStop, Ran;
    NoEmergency();
    QuietTells([]);
    match op
    case UpdateOp(now, respond) =>
      UpdateHalts(e, now, respond);
    case ExecOp(device, action, param, delay, respond) =>
      ActionHalts(e, device, action, param, respond);
    case BatchOp(action, group, gap) =>
      QueueingKeepsRun(e, Targets(e.devices, group, |e.devices|), action, gap);
    case _ =>
  }

  lemma {:induction false} QueueingKeepsRun(e: Engine, targets: seq<string>, a: Action, gap: int)
    ensures QueueAll(e, targets, a, gap).run == e.run
  {
    if targets != [] {
      QueueingKeepsRun(e, targets[..|targets| - 1], a, gap);
    }
  }

  // ---- runs ----

  function Run(e: Engine, ops: seq<Op>): (Engine, seq<Event>) {
    if ops == [] then (e, [])
    else
      var (before, log) := Run(e, ops[..|ops| - 1]);
      var (after, l) := Apply(before, ops[|ops| - 1]);
      (after, log + l)
  }

  ghost function PastAfter(e: Engine, past: Past, ops: seq<Op>): Past {
    if ops == [] then past
    else Remember(Run(e, ops[..|ops| - 1]).0, PastAfter(e, past, ops[..|ops| - 1]), ops[|ops| - 1])
  }

  /** The clock never goes back, and no sequence is redefined while it runs. */
  ghost predicate Forward(e: Engine, ops: seq<Op>) {
    ops == [] || (Forward(e, ops[..|ops| - 1]) && InTime(Run(e, ops[..|ops| - 1]).0, ops[|ops| - 1]))
  }

  /** Over any run of any engine with a sound past: every action ever queued is consumed once and on time, dropped by
      a stop, or waits; the steps run since the latest trigger are the first ones of the sequence triggered, in order,
      with their delays kept; and it stops early exactly for an abort, a stop or an emergency stop. */
  lemma {:induction false} RunTells(e: Engine, past: Past, ops: seq<Op>)
    requires Sound(e, past) && Forward(e, ops)
    ensures Sound(Run(e, ops).0, PastAfter(e, past, ops))
    ensures PastAfter(e, past, ops).log == past.log + Run(e, ops).1
  {
    hide Apply, InTime, Sound, Ran, EmergencyStop;
    if ops == [] {
      assert past.log + [] == past.log;
    } else {
      var init, op := ops[..|ops| - 1], ops[|ops| - 1];
      RunTells(e, past, init);
      OpTells(Run(e, init).0, op, PastAfter(e, past, init));
      TriggerDoesNothing(Run(e, init).0, op);
      assert past.log + Run(e, init).1 + Apply(Run(e, init).0, op).1 == past.log + (Run(e, init).1 + Apply(Run(e, init).0, op).1);
    }
  }

  lemma TriggerDoesNothing(e: Engine, op: Op)
    ensures op.TriggerOp? ==> Apply(e, op).1 == []
  {
  }

  /** An engine that has done nothing, and queued and started nothing, has a sound past. */
  lemma FreshIsSound(e: Engine)
    requires e.pending == [] && e.queued == 0 && !e.run.running
    ensures Sound(e, Past([], [], [], [], false))
  {
    assert Serials([]) == [];
  }

  /** Triggering starts from the first step with nothing run, whatever went before. */
  lemma TriggerStarts(e: Engine, past: Past, name: string)
    requires Trigger(e, name).1
    ensures Apply(e, TriggerOp(name)).0.run == Device.Run(name, true, 0, 0, e.clock)
    ensures Remember(e, past, TriggerOp(name)) == Past(past.log, past.dropped, e.sequences[name], [], false)
  {
  }

  lemma {:induction false} RunConcat(e: Engine, a: seq<Op>, b: seq<Op>)
    ensures var (mid, log) := Run(e, a);
      Run(e, a + b) == (Run(mid, b).0, log + Run(mid, b).1)
  {
    hide Apply;
    if b == [] {
      assert a + b == a && Run(e, a).1 + [] == Run(e, a).1;
    } else {
      var ops := a + b;
      assert ops[..|ops| - 1] == a + b[..|b| - 1];
      RunConcat(e, a, b[..|b| - 1]);
      var (mid, log) := Run(e, a);
      var (after, l) := Run(mid, b[..|b| - 1]);
      assert log + l + Apply(after, b[|b| - 1]).1 == log + (l + Apply(after, b[|b| - 1]).1);
    }
  }

  ghost predicate NoTrigger(ops: seq<Op>) {
    forall i :: 0 <= i < |ops| ==> !ops[i].TriggerOp?
  }

  /** A sequence that is not running stays so and runs no step until a trigger, over any run. */
  lemma {:induction false} StoppedStays(e: Engine, ops: seq<Op>)
    requires !e.run.running && NoTrigger(ops)
    ensures !Run(e, ops).0.run.running && Ran(Run(e, ops).1) == []
  {
    hide Apply, Ran;
    if ops == [] {
      QuietTells([]);
    } else {
      var init := ops[..|ops| - 1];
      StoppedStays(e, init);
      OpHalts(Run(e, init).0, ops[|ops| - 1]);
      Tells(Run(e, init).1, Apply(Run(e, init).0, ops[|ops| - 1]).1);
    }
  }

  /** After an abort, a stop or a successful emergency stop, wherever in a run it comes and whatever follows short of
      a trigger, no sequence runs and no further step is run. */
  lemma HaltIsFinal(e: Engine, a: seq<Op>, op: Op, b: seq<Op>)
    requires op.AbortOp? || op.StopOp? || EmergencyStop(Apply(Run(e, a).0, op).1)
    requires NoTrigger(b)
    ensures !Run(e, a + [op] + b).0.run.running
    ensures Ran(Run(e, a + [op] + b).1) == Ran(Run(e, a + [op]).1)
  {
    hide Apply, Ran, EmergencyStop, NoTrigger;
    OpHalts(Run(e, a).0, op);
    assert (a + [op])[..|a|] == a;
    var mid := Run(e, a + [op]).0;
    RunConcat(e, a + [op], b);
    StoppedStays(mid, b);
    Tells(Run(e, a + [op]).1, Run(mid, b).1);
    assert Ran(Run(e, a + [op]).1) + [] == Ran(Run(e, a + [op]).1);
  }

  /** A run that made a successful emergency stop and triggered nothing ends with no sequence running. */
  lemma {:induction false} EmergencyStopEnds(e: Engine, ops: seq<Op>)
    requires NoTrigger(ops) && EmergencyStop(Run(e, ops).1)
    ensures !Run(e, ops).0.run.running
  {
    hide Apply, EmergencyStop;
    if ops == [] {
      NoEmergency();
      assert false;
    } else {
      var init, op := ops[..|ops| - 1], ops[|ops| - 1];
      var (before, log) := Run(e, init);
      EmergencyIn(log, Apply(before, op).1);
      OpHalts(before, op);
      if EmergencyStop(log) {
        EmergencyStopEnds(e, init);
      }
    }
  }

  function Count(s: seq<nat>, k: nat): (n: nat)
    ensures 0 < n <==> k in s
  {
    assert k in s <==> k in multiset(s);
    multiset(s)[k]
  }

  /** Each action ever queued has one fate: the numbers consumed are distinct, none of them was dropped or still
      waits, and every number is consumed, dropped or waits. */
  lemma ConsumedOnce(e: Engine, past: Past)
    requires Conserved(e, past)
    ensures var taken, waiting := Taken(past.log), Serials(e.pending);
      && (forall i, j :: 0 <= i < j < |taken| ==> taken[i] != taken[j])
      && (forall i :: 0 <= i < |taken| ==> taken[i] !in waiting && taken[i] !in past.dropped)
      && (forall i :: 0 <= i < |waiting| ==> waiting[i] !in past.dropped)
      && (forall k :: 0 <= k < e.queued ==> k in taken || k in past.dropped || k in waiting)
  {
    hide Taken, Serials;
    var taken, dropped, waiting := Taken(past.log), past.dropped, Serials(e.pending);
    forall k: nat
      ensures Count(taken, k) + Count(dropped, k) + Count(waiting, k) == if k < e.queued then 1 else 0
    {
      EachNumberOnce(e.queued);
      OneFate(multiset(taken), multiset(dropped), multiset(waiting), k);
    }
    forall i, j | 0 <= i < j < |taken|
      ensures taken[i] != taken[j]
    {
      assert Count(taken, taken[i]) <= 1;
      TwoPlaces(taken, i, j);
    }
    forall k: nat
      ensures k in taken ==> k !in waiting && k !in dropped
      ensures k in waiting ==> k !in dropped
      ensures k < e.queued ==> k in taken || k in dropped || k in waiting
    {
      assert Count(taken, k) + Count(dropped, k) + Count(waiting, k) == if k < e.queued then 1 else 0;
    }
  }

  lemma OneFate(a: multiset<nat>, b: multiset<nat>, c: multiset<nat>, k: nat)
    ensures (a + b + c)[k] == a[k] + b[k] + c[k]
  {
  }

  lemma {:induction false} NumberOnce(n: nat, k: nat)
    ensures multiset(Numbers(n))[k] == if k < n then 1 else 0
  {
    hide Numbers;
    NumbersNext(n);
    if n != 0 {
      NumberOnce(n - 1, k);
      CountSnoc(Numbers(n - 1), n - 1, k);
    }
  }

  lemma NumbersNext(n: nat)
    ensures Numbers(n) == if n == 0 then [] else Numbers(n - 1) + [n - 1]
  {
  }

  lemma CountSnoc(s: seq<nat>, x: nat, k: nat)
    ensures multiset(s + [x])[k] == multiset(s)[k] + if k == x then 1 else 0
  {
    assert multiset(s + [x]) == multiset(s) + multiset([x]);
  }

  lemma EachNumberOnce(n: nat)
    ensures forall k: nat :: multiset(Numbers(n))[k] == if k < n then 1 else 0
  {
    forall k: nat
      ensures multiset(Numbers(n))[k] == if k < n then 1 else 0
    {
      NumberOnce(n, k);
    }
  }

  lemma TwoPlaces(s: seq<nat>, i: nat, j: nat)
    requires i < j < |s| && multiset(s)[s[i]] <= 1
    ensures s[i] != s[j]
  {
    assert s == s[..i] + [s[i]] + s[i + 1..j] + [s[j]] + s[j + 1..];
  }
}
