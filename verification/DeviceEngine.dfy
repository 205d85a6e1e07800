/** The device engine object. */
module DeviceEngine {
  import opened Device
  import opened Words

  // ---- the queue's length plays no part in actions ----

  lemma PerformIgnoresQueue(e: Engine, pending: seq<Pending>, i: nat, a: Action, param: string)
    requires i < |e.devices|
    ensures var (next, log) := Perform(e, i, a, param);
      Perform(e.(pending := pending), i, a, param) == (next.(pending := pending), log)
      && next.pending == e.pending && next.clock == e.clock
  {
    hide PowerAfter, ErrorAfter, ActionName, OthersOff;
  }

  lemma AskIgnoresQueue(e: Engine, pending: seq<Pending>, id: string, a: Action, param: string, respond: Respond)
    ensures var (next, ok, log) := Ask(e, id, a, param, respond);
      Ask(e.(pending := pending), id, a, param, respond) == (next.(pending := pending), ok, log)
      && next.pending == e.pending && next.clock == e.clock && next.devices == e.devices
  {
  }

  lemma ActionIgnoresQueue(e: Engine, pending: seq<Pending>, id: string, a: Action, param: string, respond: Respond)
    ensures var (next, ok, log) := ApplyTo(e, id, a, param, respond);
      ApplyTo(e.(pending := pending), id, a, param, respond) == (next.(pending := pending), ok, log)
      && next.pending == e.pending && next.clock == e.clock
  {
    hide Perform, Ask, ActionName, Find;
    var i := Find(e.devices, id);
    if i < |e.devices| {
      AskIgnoresQueue(e, pending, e.devices[i].id, a, param, respond);
      PerformIgnoresQueue(Ask(e, e.devices[i].id, a, param, respond).0, pending, i, a, param);
    }
  }

  lemma ConsumeSnoc(at: Engine, due: seq<Pending>, p: Pending, before: int, respond: Respond)
    ensures var (prior, log) := ConsumeAll(at, due, before, respond);
      var (next, _, l) := ApplyTo(prior, p.device, p.action, p.param, respond);
      ConsumeAll(at, due + [p], before, respond) == (next, log + ([Consumed(p, at.clock, before)] + l))
  {
    hide ApplyTo;
    assert (due + [p])[..|due|] == due;
    var (prior, log) := ConsumeAll(at, due, before, respond);
    var l := ApplyTo(prior, p.device, p.action, p.param, respond).2;
    assert log + [Consumed(p, at.clock, before)] + l == log + ([Consumed(p, at.clock, before)] + l);
  }

  /** Taking the item at the place after `kept` out of the queue. */
  lemma EraseAt(kept: seq<Pending>, all: seq<Pending>, n: nat)
    requires n < |all|
    ensures var pending := kept + all[n..]; var i := |kept|;
      && pending[i] == all[n] && pending[..i] + pending[i + 1..] == kept + all[n + 1..]
      && pending == (kept + [all[n]]) + all[n + 1..]
  {
  }

  lemma {:induction false} ConsumeKeepsQueue(at: Engine, due: seq<Pending>, before: int, respond: Respond)
    ensures var next := ConsumeAll(at, due, before, respond).0; next.pending == at.pending && next.clock == at.clock
  {
    hide ApplyTo;
    if due != [] {
      var p := due[|due| - 1];
      var prior := ConsumeAll(at, due[..|due| - 1], before, respond).0;
      ConsumeKeepsQueue(at, due[..|due| - 1], before, respond);
      ActionIgnoresQueue(prior, [], p.device, p.action, p.param, respond);
    }
  }

  lemma DueSnoc(pending: seq<Pending>, n: nat, clock: int)
    requires n < |pending|
    ensures var due, later := DueBy(pending[..n], clock), LaterThan(pending[..n], clock);
      if pending[n].due <= clock then
        DueBy(pending[..n + 1], clock) == due + [pending[n]] && LaterThan(pending[..n + 1], clock) == later
      else
        DueBy(pending[..n + 1], clock) == due && LaterThan(pending[..n + 1], clock) == later + [pending[n]]
  {
    assert pending[..n + 1][..n] == pending[..n];
  }

  class DeviceEngine {
    var devices: seq<Info>
    var bound: set<string>
    var sequences: map<string, seq<Step>>
    var pending: seq<Pending>
    var run: Run
    var clock: int
    var active: bool
    var calls: nat
    var queued: nat
    var log: seq<Event>  // everything done so far

    ghost function View(): Engine
      reads this
    {
      Engine(devices, bound, sequences, pending, run, clock, active, calls, queued)
    }

    constructor (registry: seq<Info>, drivers: set<string>)
      ensures View() == Engine(registry, drivers, map[], [], Run("", false, 0, 0, 0), 0, false, 0, 0) && log == []
    {
      devices, bound, sequences, pending := registry, drivers, map[], [];
      run := Run("", false, 0, 0, 0);
      clock, active, calls, queued := 0, false, 0, 0;
      log := [];
    }

    method Emit(e: Event)
      modifies this`log
      ensures log == old(log) + [e]
    {
      log := log + [e];
    }

    method Start()
      modifies this`active
      ensures View() == Apply(old(View()), StartOp).0
    {
      active := true;
    }

    method Stop()
      modifies this`active, this`pending, this`run
      ensures View() == Apply(old(View()), StopOp).0
    {
      active := false;
      pending := [];
      run := run.(running := false);
    }

    method DefineSequence(name: string, steps: seq<Step>)
      modifies this`sequences
      ensures View() == Apply(old(View()), DefineOp(name, steps)).0
    {
      sequences := sequences[name := steps];
    }

    method TriggerSequence(name: string) returns (ok: bool)
      modifies this`run
      ensures View() == Apply(old(View()), TriggerOp(name)).0 && ok == Trigger(old(View()), name).1
    {
      if name !in sequences {
        return false;
      }
      if sequences[name] == [] {
        return false;
      }
      run := run.(name := name);
      run := run.(running := true);
      run := run.(index := 0);
      run := run.(remaining := 0);
      run := run.(startedAt := clock);
      return true;
    }

    method AbortSequence()
      modifies this`run
      ensures View() == Apply(old(View()), AbortOp).0
    {
      if !run.running {
        return;
      }
      run := run.(running := false);
    }

    method FindDevice(id: string) returns (i: nat)
      ensures i == Find(devices, id)
    {
      i := 0;
      while i < |devices| && devices[i].id != id
        invariant i <= |devices| && Find(devices, id) == i + Find(devices[i..], id)
      {
        assert devices[i..][1..] == devices[i + 1..];
        i := i + 1;
      }
    }

    method AskDriver(id: string, a: Action, param: string, respond: Respond) returns (answered: bool)
      modifies this`calls, this`log
      ensures var r := Ask(old(View()), id, a, param, respond);
        View() == r.0 && answered == r.1 && log == old(log) + r.2
    {
      answered := true;
      if id in bound {
        Emit(IoCall(id, a, param));
        answered := respond(id, a, param, calls);
        calls := calls + 1;
      }
    }

    method ApplyAt(i: nat, a: Action, param: string, respond: Respond) returns (ok: bool)
      requires i < |devices|
      modifies this
      ensures var r := ApplyAction(old(View()), i, a, param, respond);
        View() == r.0 && ok == r.1 && log == old(log) + r.2
    {
      hide Perform, ActionName, Ask;
      var online := devices[i].online;
      var id := devices[i].id;
      var answered := AskDriver(id, a, param, respond);
      if !answered {
        devices := devices[i := devices[i].(power := Fault, lastError := "io no response: " + ActionName(a))];
        Emit(Changed(id, "fault", devices[i].power));
        return false;
      }
      var powered := a != PowerOff && a != Standby && a != EStop;
      if !online && !powered && a != Query {
        devices := devices[i := devices[i].(lastError := "device offline")];
        return false;
      }
      PerformAt(i, a, param);
      return true;
    }

    /** Carries out an accepted action. */
    method PerformAt(i: nat, a: Action, param: string)
      requires i < |devices|
      modifies this
      ensures var r := Perform(old(View()), i, a, param); View() == r.0 && log == old(log) + r.1
    {
      var id := devices[i].id;
      var dev := devices[i].(lastCmdAt := clock);
      match a {
        case PowerOn => dev := dev.(power := On, lastError := "");
        case PowerOff => dev := dev.(power := Off);
        case Standby => dev := dev.(power := StandingBy);
        case Reboot => dev := dev.(power := On);
        case EStop =>
          dev := dev.(power := Off);
          AbortSequence();
        case SetInput => dev := dev.(lastError := "input:" + param);
        case _ =>
      }
      devices := devices[i := dev];
      if a == EStop {
        PowerOffOthers(id);
        Emit(Changed(id, "estop", devices[i].power));
        return;
      }
      Emit(Changed(id, ActionName(a), devices[i].power));
    }

    method PowerOffOthers(id: string)
      modifies this`devices
      ensures devices == OthersOff(old(devices), id)
    {
      var k: nat := 0;
      while k < |devices|
        invariant k <= |devices| == |old(devices)|
        invariant forall j :: 0 <= j < k ==> devices[j] == OthersOff(old(devices), id)[j]
        invariant forall j :: k <= j < |devices| ==> devices[j] == old(devices)[j]
      {
        if devices[k].id != id {
          devices := devices[k := devices[k].(power := Off)];
        }
        k := k + 1;
      }
    }

    /** Applies an action to a device by id; an unknown one is passed over. */
    method ApplyById(id: string, a: Action, param: string, respond: Respond) returns (ok: bool)
      modifies this
      ensures var r := ApplyTo(old(View()), id, a, param, respond);
        View() == r.0 && ok == r.1 && log == old(log) + r.2
    {
      hide ApplyAction;
      var i := FindDevice(id);
      if i < |devices| {
        ok := ApplyAt(i, a, param, respond);
      } else {
        ok := false;
      }
    }

    method ExecAction(id: string, a: Action, param: string, delay: int, respond: Respond) returns (ok: bool)
      modifies this
      ensures var r := Exec(old(View()), id, a, param, delay, respond);
        View() == r.0 && ok == r.1 && log == old(log) + r.2
    {
      hide ApplyTo;
      if 0 < delay {
        pending := pending + [Pending(queued, clock, clock + delay, id, a, param)];
        queued := queued + 1;
        return true;
      }
      ok := ApplyById(id, a, param, respond);
    }

    method BatchAction(a: Action, group: int, gap: int) returns (count: nat)
      modifies this`pending, this`queued
      ensures View() == Apply(old(View()), BatchOp(a, group, gap)).0
      ensures count == |Targets(devices, group, |devices|)|
    {
      var targets: seq<string> := [];
      var k: nat := 0;
      while k < |devices|
        invariant k <= |devices| && targets == Targets(devices, group, k)
      {
        if group < 0 || devices[k].group == group {
          targets := targets + [devices[k].id];
        }
        k := k + 1;
      }
      QueueTargets(targets, a, gap);
      return |targets|;
    }

    method QueueTargets(targets: seq<string>, a: Action, gap: int)
      modifies this`pending, this`queued
      ensures View() == QueueAll(old(View()), targets, a, gap)
    {
      hide QueueAll, Times;
      var due := clock;
      var k: nat := 0;
      assert targets[..0] == [];
      QueueNone(View(), a, gap);
      while k < |targets|
        invariant k <= |targets| && due == clock + Times(k, gap)
        invariant View() == QueueAll(old(View()), targets[..k], a, gap)
      {
        QueueNext(old(View()), targets, k, a, gap);
        pending := pending + [Pending(queued, clock, due, targets[k], a, "")];
        queued := queued + 1;
        due := due + gap;
        k := k + 1;
      }
      assert targets[..k] == targets;
    }

    /** Moves the clock. When it advances: consumes what is due, then steps the sequence. */
    method UpdateClock(now: int, respond: Respond)
      modifies this
      ensures View() == Update(old(View()), now, respond).0 && log == old(log) + Update(old(View()), now, respond).1
    {
      hide StepSequence, ConsumeAll, DueBy, LaterThan;
      if !active {
        return;
      }
      var delta := now - clock;
      var before := clock;
      clock := now;
      if delta <= 0 {
        return;
      }
      Drain(before, respond);
      RunSequence(delta, respond);
    }

    method Drain(before: int, respond: Respond)
      modifies this
      ensures var at := old(View()).(pending := LaterThan(old(pending), old(clock)));
        var r := ConsumeAll(at, DueBy(old(pending), old(clock)), before, respond);
        View() == r.0 && log == old(log) + r.1
    {
      hide ApplyTo, DueBy, LaterThan, ConsumeAll;
      ghost var all := pending;
      ghost var at := View().(pending := LaterThan(all, clock));
      ghost var n: nat := 0;
      var i: nat := 0;
      NothingLooked(at, clock, before, respond);
      assert all[..0] == [] && all[0..] == all;
      while i < |pending|
        invariant n <= |all| && i == |LaterThan(all[..n], at.clock)|
        invariant pending == LaterThan(all[..n], at.clock) + all[n..]
        invariant View() == ConsumeAll(at, DueBy(all[..n], at.clock), before, respond).0.(pending := pending)
        invariant log == old(log) + ConsumeAll(at, DueBy(all[..n], at.clock), before, respond).1
        invariant clock == at.clock
        decreases |all| - n
      {
        DueSnoc(all, n, at.clock);
        EraseAt(LaterThan(all[..n], at.clock), all, n);
        if pending[i].due <= clock {
          var p := pending[i];
          ghost var due := DueBy(all[..n], at.clock);
          pending := pending[..i] + pending[i + 1..];
          ConsumeSnoc(at, due, p, before, respond);
          ghost var (prior, told) := ConsumeAll(at, due, before, respond);
          ConcatAssoc(old(log), told, [Consumed(p, clock, before)] + ApplyTo(prior, p.device, p.action, p.param, respond).2);
          ConsumeOne(p, before, respond, ConsumeAll(at, due, before, respond).0);
        } else {
          i := i + 1;
        }
        n := n + 1;
      }
      assert all[..n] == all;
      ConsumeKeepsQueue(at, DueBy(all, at.clock), before, respond);
    }

    /** Consumes an action already taken off the queue. */
    method ConsumeOne(p: Pending, before: int, respond: Respond, ghost prior: Engine)
      requires View() == prior.(pending := pending)
      modifies this
      ensures var r := ApplyTo(prior, p.device, p.action, p.param, respond);
        View() == r.0.(pending := old(pending)) && log == old(log) + ([Consumed(p, old(clock), before)] + r.2)
      ensures clock == old(clock)
    {
      hide ApplyTo;
      ActionIgnoresQueue(prior, pending, p.device, p.action, p.param, respond);
      Emit(Consumed(p, clock, before));
      var ok := ApplyById(p.device, p.action, p.param, respond);
    }

    /** The sequencer's part of an update. */
    method RunSequence(delta: int, respond: Respond)
      modifies this
      ensures View() == StepSequence(old(View()), delta, respond).0
      ensures log == old(log) + StepSequence(old(View()), delta, respond).1
    {
      hide ApplyTo;
      if run.running {
        var steps := if run.name in sequences then sequences[run.name] else [];
        if |steps| <= run.index {
          run := run.(running := false);
        } else if run.remaining <= 0 {
          var step := steps[run.index];
          Emit(StepRun(run.index, clock));
          var ok := ApplyById(step.device, step.action, step.param, respond);
          run := run.(remaining := step.delay);
          if run.remaining <= 0 {
            run := run.(index := run.index + 1);
            run := run.(remaining := 0);
          }
        } else {
          run := run.(remaining := run.remaining - delta);
          if run.remaining <= 0 {
            run := run.(index := run.index + 1);
            run := run.(remaining := 0);
          }
        }
      }
    }
  }

  lemma NothingLooked(at: Engine, clock: int, before: int, respond: Respond)
    ensures LaterThan([], clock) == [] && DueBy([], clock) == [] && ConsumeAll(at, [], before, respond) == (at, [])
  {
  }
}
