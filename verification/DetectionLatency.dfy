/** The check handler and the timing wheel together: how long a resource that only fails can go
    without an incident.

    The system is one observed resource inside a wheel that also serves other resources. Workers
    take jobs from the queue and finish them later; finishing a job of the observed resource runs
    the check step and re-arms the wheel through the adapter. */
module DetectionLatency {
  import opened Wrappers
  import opened Incidents
  import opened CheckStep
  import TW = TimingWheel

  /** `pending` are the enqueue times of the resource's unfinished jobs. */
  datatype System = System(
    wheel: TW.Wheel, st: State, pending: seq<int>, lastTick: int, clock: int)

  datatype Event =
    | Tick(order: seq<TW.Id>, at: int)
    | Finish(job: nat, x: Check)
    | Other(op: TW.Op, at: int)
  {
    function Time(): int {
      if Finish? then x.now else at
    }
  }

  /** The observed resource, its settings, the largest distance `d` between ticks and the longest
      time `w` from enqueueing a check to finishing it. */
  datatype Setup = Setup(id: TW.Id, cfg: Settings, d: nat, w: nat)

  function Rearm(wheel: TW.Wheel, id: TW.Id, effects: seq<Effect>, now: int): TW.Wheel {
    if effects == [] then wheel
    else
      var rest := Rearm(wheel, id, effects[..|effects| - 1], now);
      match effects[|effects| - 1]
      case Scheduled(s) => TW.AdapterSchedule(rest, id, s, now)
      case _ => rest
  }

  function Next(p: Setup, s: System, e: Event): System {
    match e
    case Tick(order, at) =>
      var jobs := TW.NewJobs(s.wheel, TW.Tick(order, at));
      s.(wheel := TW.DispatchAll(s.wheel, order, at),
         pending := if p.id in jobs then s.pending + [at] else s.pending,
         lastTick := at, clock := at)
    case Finish(job, x) =>
      var out := Step(p.cfg, s.st, x);
      s.(wheel := Rearm(s.wheel, p.id, out.effects, x.now), st := out.state, clock := x.now,
         pending := if job < |s.pending| then s.pending[..job] + s.pending[job + 1..] else s.pending)
    case Other(op, at) => s.(wheel := TW.Apply(s.wheel, op), clock := at)
  }

  /** Time has moved on to `t`: the clock does not run back, the last tick is at most `d` ago and
      no unfinished check is older than `w`. */
  predicate OnTime(p: Setup, s: System, t: int) {
    s.clock <= t <= s.lastTick + p.d && forall k :: 0 <= k < |s.pending| ==> t <= s.pending[k] + p.w
  }

  /** A check that runs, finds the resource down, does not reach the flap threshold and meets no
      repository failure. */
  predicate FailingCheck(p: Setup, s: System, x: Check) {
    && Runs(s.st, x) && x.probe == Some(RDown) && x.persistOk && x.create.listOk && x.create.insertOk
    && var n := Evaluate(p.cfg, x.transitions); n.Some? && n.value < p.cfg.Threshold()
  }

  /** The queue has room at ticks, every check of the resource fails, and nothing but its own
      checks reschedules it. */
  ghost predicate Allowed(p: Setup, s: System, e: Event) {
    && OnTime(p, s, e.Time())
    && match e
       case Tick(order, at) =>
         && TW.Lists(order, TW.DueIds(s.wheel, at))
         && |s.wheel.queue| + |TW.DueIds(s.wheel, at)| <= s.wheel.maxWorkers
       case Finish(job, x) => job < |s.pending| && FailingCheck(p, s, x)
       case Other(op, _) =>
         op.Consume? || ((op.Schedule? || op.Unschedule? || op.Pause? || op.Resume?) && op.id != p.id)
  }

  function Execute(p: Setup, s: System, es: seq<Event>): System {
    if es == [] then s else Next(p, Execute(p, s, es[..|es| - 1]), es[|es| - 1])
  }

  ghost predicate AllowedRun(p: Setup, s: System, es: seq<Event>) {
    es == [] ||
    (AllowedRun(p, s, es[..|es| - 1]) && Allowed(p, Execute(p, s, es[..|es| - 1]), es[|es| - 1]))
  }

  /** The longest wait from one failing check to the next while confirming. */
  function Wait(p: Setup, s: System): int {
    p.cfg.RetryInterval() + s.wheel.tickInterval + p.d + p.w
  }

  /** When the check after the k-th failure must have finished, counting from the first at t0. */
  function Deadline(t0: int, k: int, wait: int): int {
    t0 + k * wait
  }

  /** How the system moves: every event sets the clock; a tick is remembered and adds the check it
      enqueues; finishing a check takes exactly that one off the pending ones. */
  lemma NextMoves(p: Setup, s: System, e: Event)
    requires e.Finish? ==> e.job < |s.pending|
    ensures
      var s' := Next(p, s, e);
      && s'.clock == e.Time() && s'.lastTick == (if e.Tick? then e.at else s.lastTick)
      && (e.Tick? ==> s'.st == s.st && s'.wheel == TW.Apply(s.wheel, TW.Tick(e.order, e.at)) &&
                      multiset(s'.pending) == multiset(s.pending) +
                        if p.id in TW.NewJobs(s.wheel, TW.Tick(e.order, e.at)) then multiset{e.at} else multiset{})
      && (e.Finish? ==> s'.st == Step(p.cfg, s.st, e.x).state &&
                        multiset(s'.pending) == multiset(s.pending) - multiset{s.pending[e.job]})
      && (e.Other? ==> s'.st == s.st && s'.pending == s.pending && s'.wheel == TW.Apply(s.wheel, e.op))
  {
    if e.Finish? {
      assert s.pending == s.pending[..e.job] + [s.pending[e.job]] + s.pending[e.job + 1..];
    }
  }

  ghost predicate NextCheckBy(p: Setup, s: System, t: int) {
    || (exists k :: 0 <= k < |s.pending| && s.pending[k] + p.w <= t)
    || (p.id in s.wheel.schedules && s.wheel.schedules[p.id].nextDue + p.d + p.w <= t)
  }

  ghost predicate OpenSince(s: seq<Incident>, t: int) {
    s != [] && Open(s[|s| - 1]) && s[|s| - 1].startedAt <= t
  }

  ghost predicate NoneOpen(s: seq<Incident>) {
    s == [] || !Open(s[|s| - 1])
  }

  /** The invariant from the first failing check on. */
  ghost predicate Confirming(p: Setup, s: System, t0: int, wait: nat) {
    && p.id != ""
    && |s.wheel.queue| <= s.wheel.maxWorkers && s.lastTick <= s.clock
    && s.wheel.tickInterval >= 0 && wait == Wait(p, s)
    && s.st.row.status == Down && s.st.row.failureCount >= 1
    && (s.st.row.failureCount < p.cfg.Confirmations() ==>
         && p.id in s.wheel.schedules && !TW.IsPaused(s.wheel, p.id)
         && s.wheel.schedules[p.id].interval > 0 && s.lastTick <= s.wheel.schedules[p.id].nextDue
         && NoneOpen(s.st.incidents)
         && NextCheckBy(p, s, Deadline(t0, s.st.row.failureCount, wait)))
    && (s.st.row.failureCount >= p.cfg.Confirmations() ==>
         OpenSince(s.st.incidents, Deadline(t0, p.cfg.Confirmations() - 1, wait)))
  }

  lemma DeadlineMonotone(t0: int, j: int, k: int, wait: nat)
    requires j <= k
    ensures Deadline(t0, j, wait) <= Deadline(t0, k, wait)
    ensures Deadline(t0, j + 1, wait) == Deadline(t0, j, wait) + wait
  {
    assert (k - j) * wait >= 0;
  }

  /** While confirming, time cannot pass the deadline of the next check. */
  lemma TimeWithinDeadline(p: Setup, s: System, t0: int, wait: nat, t: int)
    requires Confirming(p, s, t0, wait) && OnTime(p, s, t)
    requires s.st.row.failureCount < p.cfg.Confirmations()
    ensures t <= Deadline(t0, s.st.row.failureCount, wait)
  {}

  lemma TickKeeps(p: Setup, s: System, t0: int, wait: nat, order: seq<TW.Id>, at: int)
    requires Confirming(p, s, t0, wait) && Allowed(p, s, Tick(order, at))
    ensures Confirming(p, Next(p, s, Tick(order, at)), t0, wait)
  {
    var e, k := Tick(order, at), s.st.row.failureCount;
    var s' := Next(p, s, e);
    TW.TickFrameHolds(s.wheel, order, at, p.id);
    if k < p.cfg.Confirmations() {
      if TW.Due(s.wheel, p.id, at) {
        TW.RoomServesAll(s.wheel, order, at, p.id);
        assert s'.pending[|s.pending|] == at;
        assert TW.Lists(order, TW.DueIds(s.wheel, at));
        if exists j :: 0 <= j < |s.pending| && s.pending[j] + p.w <= Deadline(t0, k, wait) {
          var j :| 0 <= j < |s.pending| && s.pending[j] + p.w <= Deadline(t0, k, wait);
          assert s'.pending[j] == s.pending[j];
        }
      }
    }
  }

  lemma RearmLast(wheel: TW.Wheel, id: TW.Id, seconds: int, now: int)
    ensures Rearm(wheel, id, [Scheduled(seconds), Recalculated], now) == TW.AdapterSchedule(wheel, id, seconds, now)
  {
    var fx := [Scheduled(seconds), Recalculated];
    assert fx[..1] == [Scheduled(seconds)] && fx[..1][..0] == [];
    assert Rearm(wheel, id, fx[..1], now) == TW.AdapterSchedule(wheel, id, seconds, now);
  }

  lemma {:induction false} RearmFrame(wheel: TW.Wheel, id: TW.Id, effects: seq<Effect>, now: int)
    ensures
      var v := Rearm(wheel, id, effects, now);
      v.queue == wheel.queue && v.maxWorkers == wheel.maxWorkers && v.tickInterval == wheel.tickInterval
  {
    if effects == [] {
    } else {
      RearmFrame(wheel, id, effects[..|effects| - 1], now);
    }
  }

  lemma FailingStep(cfg: Settings, st: State, x: Check)
    requires Runs(st, x) && x.probe == Some(RDown) && x.persistOk && st.row.status != Flapping
    requires var n := Evaluate(cfg, x.transitions); n.Some? && n.value < cfg.Threshold()
    ensures
      var out := Step(cfg, st, x);
      && out.state.row.failureCount == st.row.failureCount + 1 && out.state.row.status == Down
      && (out.state.row.failureCount < cfg.Confirmations() ==>
           out.effects == [Scheduled(cfg.RetryInterval()), Recalculated] && out.state.incidents == st.incidents)
      && (out.state.row.failureCount >= cfg.Confirmations() ==>
           out.state.incidents ==
             Reminded(Created(st.incidents, x.now, x.create), x.now, cfg.reminderMinutes, x.remind))
  {}

  lemma CreatedIsOpen(s: seq<Incident>, now: int, f: CreateFaults, minutes: int, m: RemindFaults, t: int)
    requires f.listOk && f.insertOk && now <= t
    requires NoneOpen(s)
    ensures OpenSince(Reminded(Created(s, now, f), now, minutes, m), t)
  {}

  /** The system after a failing check below the threshold. */
  lemma RetryRearms(p: Setup, s: System, job: nat, x: Check)
    requires Runs(s.st, x) && FailingCheck(p, s, x) && s.st.row.status != Flapping
    requires p.id != "" && s.st.row.failureCount + 1 < p.cfg.Confirmations()
    ensures
      var s' := Next(p, s, Finish(job, x));
      && s'.wheel == TW.Scheduled(s.wheel, p.id, p.cfg.RetryInterval(), x.now)
      && s'.lastTick == s.lastTick && s'.clock == x.now && s'.st.incidents == s.st.incidents
      && s'.st.row.status == Down && s'.st.row.failureCount == s.st.row.failureCount + 1
  {
    FailingStep(p.cfg, s.st, x);
    RearmLast(s.wheel, p.id, p.cfg.RetryInterval(), x.now);
  }

  /** A failing check below the threshold re-arms the wheel with the retry interval. */
  lemma RetryKeeps(p: Setup, s: System, t0: int, wait: nat, job: nat, x: Check)
    requires Confirming(p, s, t0, wait) && Allowed(p, s, Finish(job, x))
    requires s.st.row.failureCount + 1 < p.cfg.Confirmations()
    ensures Confirming(p, Next(p, s, Finish(job, x)), t0, wait)
  {
    RetryRearms(p, s, job, x);
    TimeWithinDeadline(p, s, t0, wait, x.now);
    DeadlineMonotone(t0, s.st.row.failureCount, s.st.row.failureCount, wait);
  }

  /** The check that reaches the threshold opens the incident before the deadline. */
  lemma ThresholdOpens(p: Setup, s: System, t0: int, wait: nat, job: nat, x: Check)
    requires Confirming(p, s, t0, wait) && Allowed(p, s, Finish(job, x))
    requires s.st.row.failureCount + 1 >= p.cfg.Confirmations()
    ensures Confirming(p, Next(p, s, Finish(job, x)), t0, wait)
  {
    var k, n := s.st.row.failureCount, p.cfg.Confirmations();
    FailingStep(p.cfg, s.st, x);
    RearmFrame(s.wheel, p.id, Step(p.cfg, s.st, x).effects, x.now);
    if k < n {
      TimeWithinDeadline(p, s, t0, wait, x.now);
      CreatedIsOpen(s.st.incidents, x.now, x.create, p.cfg.reminderMinutes, x.remind, Deadline(t0, n - 1, wait));
    } else {
      OpenStaysOpen(s.st.incidents, x, p.cfg.reminderMinutes, Deadline(t0, n - 1, wait));
    }
  }

  lemma OpenStaysOpen(s: seq<Incident>, x: Check, minutes: int, t: int)
    requires OpenSince(s, t)
    ensures OpenSince(Reminded(Created(s, x.now, x.create), x.now, minutes, x.remind), t)
  {}

  lemma OtherKeeps(p: Setup, s: System, t0: int, wait: nat, op: TW.Op, at: int)
    requires Confirming(p, s, t0, wait) && Allowed(p, s, Other(op, at))
    ensures Confirming(p, Next(p, s, Other(op, at)), t0, wait)
  {
    var s' := Next(p, s, Other(op, at));
    assert p.id in s.wheel.schedules ==>
      p.id in s'.wheel.schedules && s'.wheel.schedules[p.id] == s.wheel.schedules[p.id];
  }

  lemma {:induction false} RunKeeps(p: Setup, s: System, t0: int, wait: nat, es: seq<Event>)
    requires Confirming(p, s, t0, wait) && AllowedRun(p, s, es)
    ensures Confirming(p, Execute(p, s, es), t0, wait)
  {
    if es == [] {
    } else {
      var mid, e := Execute(p, s, es[..|es| - 1]), es[|es| - 1];
      RunKeeps(p, s, t0, wait, es[..|es| - 1]);
      match e {
        case Tick(order, at) => TickKeeps(p, mid, t0, wait, order, at);
        case Finish(job, x) =>
          if mid.st.row.failureCount + 1 < p.cfg.Confirmations() {
            RetryKeeps(p, mid, t0, wait, job, x);
          } else {
            ThresholdOpens(p, mid, t0, wait, job, x);
          }
        case Other(op, at) => OtherKeeps(p, mid, t0, wait, op, at);
      }
    }
  }

  /** Before the first failing check: not flapping, nothing counted, nothing open. */
  ghost predicate Healthy(p: Setup, s: System) {
    && p.id != "" && s.wheel.tickInterval >= 0
    && |s.wheel.queue| <= s.wheel.maxWorkers && s.lastTick <= s.clock
    && s.st.row.status != Flapping && s.st.row.failureCount == 0
    && NoneOpen(s.st.incidents)
  }

  lemma FirstFailure(p: Setup, s: System, job: nat, x: Check)
    requires Healthy(p, s) && Allowed(p, s, Finish(job, x))
    ensures Confirming(p, Next(p, s, Finish(job, x)), x.now, Wait(p, s))
  {
    var n, wait := p.cfg.Confirmations(), Wait(p, s);
    FailingStep(p.cfg, s.st, x);
    RearmFrame(s.wheel, p.id, Step(p.cfg, s.st, x).effects, x.now);
    assert Deadline(x.now, 1, wait) == x.now + wait;
    DeadlineMonotone(x.now, 0, n - 1, wait);
    if 1 < n {
      RearmLast(s.wheel, p.id, p.cfg.RetryInterval(), x.now);
    } else {
      CreatedIsOpen(s.st.incidents, x.now, x.create, p.cfg.reminderMinutes, x.remind, Deadline(x.now, n - 1, wait));
    }
  }

  lemma DetectedFrom(p: Setup, s: System, t0: int, wait: nat, es: seq<Event>, t: int)
    requires Confirming(p, s, t0, wait) && AllowedRun(p, s, es) && OnTime(p, Execute(p, s, es), t)
    requires t > Deadline(t0, p.cfg.Confirmations() - 1, wait)
    ensures OpenSince(Execute(p, s, es).st.incidents, Deadline(t0, p.cfg.Confirmations() - 1, wait))
  {
    RunKeeps(p, s, t0, wait, es);
    var k := Execute(p, s, es).st.row.failureCount;
    if k < p.cfg.Confirmations() {
      TimeWithinDeadline(p, Execute(p, s, es), t0, wait, t);
      DeadlineMonotone(t0, k, p.cfg.Confirmations() - 1, wait);
    }
  }

  /** Detection latency: a resource fails its first check at t0 and then only fails. Under the
      assumptions of `Allowed`, with N confirmations, an incident that started no later than
      t0 + (N - 1) * (retry interval + tick interval + d + w) is open at every later time. */
  lemma DetectedInTime(p: Setup, s: System, job: nat, x: Check, es: seq<Event>, t: int)
    requires Healthy(p, s) && Allowed(p, s, Finish(job, x))
    requires AllowedRun(p, Next(p, s, Finish(job, x)), es)
    requires OnTime(p, Execute(p, Next(p, s, Finish(job, x)), es), t)
    requires t > x.now + (p.cfg.Confirmations() - 1) * Wait(p, s)
    ensures OpenSince(Execute(p, Next(p, s, Finish(job, x)), es).st.incidents,
                      x.now + (p.cfg.Confirmations() - 1) * Wait(p, s))
  {
    FirstFailure(p, s, job, x);
    DetectedFrom(p, Next(p, s, Finish(job, x)), x.now, Wait(p, s), es, t);
  }
}
