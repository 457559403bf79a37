/** One monitoring check as one atomic step: `ProcessTask` and `handleFlapping`
    (internal/worker/handler_monitoring.go), with the flap detector they consult
    (internal/monitoring/flap_detector.go).

    The step reads the resource row, works on an in-memory copy and writes the copy back;
    when the write fails the stored row is unchanged. `Step` is the step on values,
    `MonitoringTaskHandler` the imperative code, proved equal to it. */
module CheckStep {
  import opened Wrappers
  import opened Incidents

  datatype Status = Pending | Up | Down | Error | Flapping

  /** Per-resource settings and the global flap defaults, fixed during a run. */
  datatype Settings = Settings(
    confirmationChecks: int, confirmationInterval: int, interval: int, reminderMinutes: int,
    flapEnabled: bool, flapThreshold: int, flapWindow: int, flapMaxMinutes: int,
    globalEnabled: bool, globalThreshold: int, globalWindow: int, globalMaxMinutes: int)
  {
    /** `normalizeConfirmationChecks`. */
    function Confirmations(): nat {
      if confirmationChecks <= 0 then 1 else confirmationChecks
    }

    function RetryInterval(): (r: int)
      ensures r > 0
    {
      if confirmationInterval <= 0 then 30 else confirmationInterval
    }

    predicate Enabled() {
      flapEnabled || (flapThreshold == 0 && flapWindow == 0 && flapMaxMinutes == 0 && globalEnabled)
    }

    function Threshold(): int {
      if flapThreshold <= 0 then globalThreshold else flapThreshold
    }

    function Window(): int {
      if flapWindow <= 0 then globalWindow else flapWindow
    }

    function MaxMinutes(): int {
      if flapMaxMinutes <= 0 then globalMaxMinutes else flapMaxMinutes
    }
  }

  /** The columns a check writes back. */
  datatype Row = Row(
    status: Status, failureCount: int, flapStartedAt: Option<int>, lastTransition: Option<int>)

  datatype State = State(present: bool, active: bool, row: Row, incidents: seq<Incident>)

  datatype Result = RUp | RDown | RError

  function StatusOf(r: Result): Status {
    match r case RUp => Up case RDown => Down case RError => Error
  }

  /** Everything a check reads from outside: the clock, whether the row loads, the probe's
      result, the maintenance calendar, the number of recent transitions and the outcome of
      each repository call. `None` means the call failed. */
  datatype Check = Check(
    now: int, loadOk: bool, probe: Option<Result>, maintenance: bool, transitions: Option<nat>,
    persistOk: bool, create: CreateFaults, resolve: ResolveFaults, remind: RemindFaults)

  datatype Effect =
    | CreateCalled | ResolveCalled | ReminderChecked
    | FlapNotice | StableNotice
    | Scheduled(seconds: int) | Recalculated

  datatype Outcome = Outcome(state: State, effects: seq<Effect>)

  // ---------- Flap detector ----------

  function Evaluate(cfg: Settings, transitions: Option<nat>): Option<nat> {
    if !cfg.Enabled() then Some(0) else transitions
  }

  predicate ShouldForceIncident(cfg: Settings, flapStartedAt: Option<int>, now: int) {
    flapStartedAt.Some? && cfg.MaxMinutes() > 0 && now - flapStartedAt.value >= 60 * cfg.MaxMinutes()
  }

  /** What `handleFlapping` decides: fail the check, store a suppressed row (`entered` on the
      first one), or let the check continue with an adjusted row. */
  datatype Verdict =
    | Failed
    | Suppress(row: Row, entered: bool)
    | Continue(row: Row, stabilized: bool)

  function LeaveFlapping(cfg: Settings, row: Row, r: Result, now: int): Row {
    row.(flapStartedAt := None, status := StatusOf(r), lastTransition := Some(now),
         failureCount := if r.RDown? then cfg.Confirmations() - 1 else row.failureCount)
  }

  function HandleFlapping(cfg: Settings, row: Row, r: Result, x: Check): Verdict {
    var n := Evaluate(cfg, x.transitions);
    if r.RError? then Continue(row, false)
    else if n.None? then Failed
    else if n.value >= cfg.Threshold() then
      if row.status != Flapping then
        Suppress(row.(status := Flapping, flapStartedAt := Some(x.now), failureCount := 0), true)
      else if ShouldForceIncident(cfg, row.flapStartedAt, x.now) then
        Continue(LeaveFlapping(cfg, row, r, x.now), false)
      else Suppress(row.(status := Flapping, failureCount := 0), false)
    else if row.status == Flapping then
      var left := LeaveFlapping(cfg, row, r, x.now);
      Continue(if r.RUp? then left.(failureCount := 0) else left, true)
    else Continue(row, false)
  }

  // ---------- The step ----------

  /** Whether the check reaches the status logic at all. */
  predicate Runs(st: State, x: Check) {
    st.present && x.loadOk && st.active && x.probe.Some? && !x.maintenance
  }

  function Touched(row: Row, r: Result, now: int): Row {
    if row.status != StatusOf(r) then row.(lastTransition := Some(now)) else row
  }

  function StepUp(cfg: Settings, st: State, row: Row, x: Check): Outcome {
    var wasDown := st.row.status == Down;
    var st1 := if wasDown then st.(incidents := Resolved(st.incidents, x.now, x.resolve)) else st;
    var fx := if wasDown then [ResolveCalled] else [];
    if !x.persistOk then Outcome(st1, fx)
    else Outcome(st1.(row := row.(failureCount := 0, status := Up)),
                 fx + [Scheduled(cfg.interval), Recalculated])
  }

  function StepDown(cfg: Settings, st: State, row: Row, x: Check): Outcome {
    var row1 := row.(failureCount := row.failureCount + 1, status := Down);
    if !x.persistOk then Outcome(st, [Scheduled(cfg.RetryInterval()), Recalculated])
    else if row1.failureCount < cfg.Confirmations() then
      Outcome(st.(row := row1), [Scheduled(cfg.RetryInterval()), Recalculated])
    else
      var rows := Created(st.incidents, x.now, x.create);
      Outcome(st.(row := row1, incidents := Reminded(rows, x.now, cfg.reminderMinutes, x.remind)),
              [CreateCalled, ReminderChecked, Scheduled(cfg.interval), Recalculated])
  }

  function StepError(st: State, row: Row, x: Check): Outcome {
    if !x.persistOk then Outcome(st, []) else Outcome(st.(row := row.(status := Error)), [Recalculated])
  }

  function Continued(cfg: Settings, st: State, row: Row, r: Result, x: Check): Outcome {
    match r
    case RUp => StepUp(cfg, st, row, x)
    case RDown => StepDown(cfg, st, row, x)
    case RError => StepError(st, row, x)
  }

  /** What a verdict on flapping leads to. */
  function Concluded(cfg: Settings, st: State, v: Verdict, r: Result, x: Check): Outcome {
    match v
    case Failed => Outcome(st, [])
    case Suppress(row, entered) =>
      if !x.persistOk then Outcome(st, [])
      else Outcome(st.(row := row), (if entered then [FlapNotice] else []) + [Scheduled(cfg.interval)])
    case Continue(row, stabilized) =>
      var out := Continued(cfg, st, row, r, x);
      Outcome(out.state, (if stabilized then [StableNotice] else []) + out.effects)
  }

  /** The step once there is a result to act on. */
  function Judged(cfg: Settings, st: State, r: Result, x: Check): Outcome {
    Concluded(cfg, st, HandleFlapping(cfg, Touched(st.row, r, x.now), r, x), r, x)
  }

  function Step(cfg: Settings, st: State, x: Check): Outcome {
    if !Runs(st, x) then Outcome(st, []) else Judged(cfg, st, x.probe.value, x)
  }

  // ---------- The imperative handler ----------

  /** The in-memory copy of a row that the handler mutates. */
  class Resource {
    var status: Status
    var failureCount: int
    var flapStartedAt: Option<int>
    var lastTransition: Option<int>

    constructor (r: Row)
      ensures Value() == r
    {
      status, failureCount := r.status, r.failureCount;
      flapStartedAt, lastTransition := r.flapStartedAt, r.lastTransition;
    }

    function Value(): Row
      reads this
    {
      Row(status, failureCount, flapStartedAt, lastTransition)
    }
  }

  class Mutex {
    constructor () {}
  }

  class MonitoringTaskHandler {
    const cfg: Settings
    const service: IncidentService
    var present: bool
    var active: bool
    var stored: Row
    var effects: seq<Effect>
    var resourceLocks: map<string, Mutex>

    constructor (cfg: Settings)
      ensures this.cfg == cfg && fresh(service) && resourceLocks == map[]
      ensures Value() == Initial() && effects == []
    {
      this.cfg := cfg;
      service := new IncidentService();
      present, active := true, true;
      stored := Row(Pending, 0, None, None);
      effects := [];
      resourceLocks := map[];
    }

    ghost function Value(): State
      reads this, service
    {
      State(present, active, stored, service.incidents)
    }

    /** Different resources never share a lock. */
    ghost predicate LocksValid()
      reads this
    {
      forall a, b :: a in resourceLocks && b in resourceLocks && resourceLocks[a] == resourceLocks[b] ==> a == b
    }

    method LockForResource(id: string) returns (lock: Mutex)
      requires LocksValid()
      modifies this`resourceLocks
      ensures LocksValid()
      ensures id in resourceLocks && resourceLocks[id] == lock
      ensures forall k :: k in old(resourceLocks) ==> k in resourceLocks && resourceLocks[k] == old(resourceLocks)[k]
      ensures resourceLocks.Keys == old(resourceLocks).Keys + {id}
    {
      if id in resourceLocks {
        return resourceLocks[id];
      }
      lock := new Mutex();
      resourceLocks := resourceLocks[id := lock];
    }

    method UpdateMonitoringState(resource: Resource, ok: bool)
      modifies this`stored
      ensures stored == if ok then resource.Value() else old(stored)
    {
      if ok {
        stored := resource.Value();
      }
    }

    /** What has happened when `handleFlapping` returns with verdict v, from state st and effects fx. */
    ghost predicate Returned(
        v: Verdict, st: State, fx: seq<Effect>, resource: Resource, x: Check, handled: bool, failed: bool)
      reads this, resource, service
    {
      && present == st.present && active == st.active && service.incidents == st.incidents
      && (handled <==> v.Suppress?)
      && match v
         case Failed => failed && effects == fx && stored == st.row
         case Suppress(row, entered) =>
           && failed == !x.persistOk
           && (failed ==> stored == st.row && effects == fx)
           && (!failed ==> stored == row)
           && (!failed ==> effects == fx + (if entered then [FlapNotice] else []) + [Scheduled(cfg.interval)])
         case Continue(row, stabilized) =>
           && !failed && resource.Value() == row && stored == st.row
           && effects == fx + (if stabilized then [StableNotice] else [])
    }

    /** Returns whether the check was handled here and whether it failed. */
    method HandleFlappingTask(resource: Resource, r: Result, x: Check) returns (handled: bool, failed: bool)
      modifies this`stored, this`effects, resource
      ensures Returned(HandleFlapping(cfg, old(resource.Value()), r, x), old(Value()), old(effects),
                       resource, x, handled, failed)
    {
      handled, failed := false, false;
      var previousStatus := resource.status;
      if r.RError? {
        return;
      }
      var transitions := Evaluate(cfg, x.transitions);
      if transitions.None? {
        return false, true;
      }
      if transitions.value >= cfg.Threshold() {
        if previousStatus == Flapping {
          if ShouldForceIncident(cfg, resource.flapStartedAt, x.now) {
            resource.flapStartedAt := None;
            resource.status := StatusOf(r);
            resource.lastTransition := Some(x.now);
            if r.RDown? {
              resource.failureCount := cfg.Confirmations() - 1;
            }
            return;
          }
          resource.status := Flapping;
          resource.failureCount := 0;
          UpdateMonitoringState(resource, x.persistOk);
          if !x.persistOk {
            return true, true;
          }
          effects := effects + [Scheduled(cfg.interval)];
          return true, false;
        }
        resource.status := Flapping;
        resource.flapStartedAt := Some(x.now);
        resource.failureCount := 0;
        UpdateMonitoringState(resource, x.persistOk);
        if !x.persistOk {
          return true, true;
        }
        effects := effects + [FlapNotice];
        effects := effects + [Scheduled(cfg.interval)];
        return true, false;
      }
      if previousStatus == Flapping {
        resource.flapStartedAt := None;
        resource.status := StatusOf(r);
        resource.lastTransition := Some(x.now);
        if r.RDown? {
          resource.failureCount := cfg.Confirmations() - 1;
        } else {
          resource.failureCount := 0;
        }
        effects := effects + [StableNotice];
      }
    }

    /** A monitoring job is the step on values. */
    method ProcessTask(x: Check)
      modifies this`stored, this`effects, service
      ensures Value() == Step(cfg, old(Value()), x).state
      ensures effects == old(effects) + Step(cfg, old(Value()), x).effects
    {
      if !present || !x.loadOk || !active || x.probe.None? || x.maintenance {
        return;
      }
      ProcessProbe(x.probe.value, x);
    }

    /** The job once there is a result to act on. */
    method ProcessProbe(r: Result, x: Check)
      modifies this`stored, this`effects, service
      ensures
        var out := Judged(cfg, old(Value()), r, x);
        Value() == out.state && effects == old(effects) + out.effects
    {
      var resource := new Resource(stored);
      var previousStatus := resource.status;
      if resource.status != StatusOf(r) {
        resource.lastTransition := Some(x.now);
      }
      ghost var v := HandleFlapping(cfg, resource.Value(), r, x);
      assert resource.Value() == Touched(stored, r, x.now);
      var handled, failed := HandleFlappingTask(resource, r, x);
      Conclude(resource, previousStatus, r, x, handled, failed, v, old(Value()), old(effects));
    }

    /** The rest of the job after `handleFlapping`. */
    method Conclude(resource: Resource, previousStatus: Status, r: Result, x: Check, handled: bool, failed: bool,
                    ghost v: Verdict, ghost st: State, ghost fx: seq<Effect>)
      requires previousStatus == st.row.status && Returned(v, st, fx, resource, x, handled, failed)
      modifies this`stored, this`effects, resource, service
      ensures
        var out := Concluded(cfg, st, v, r, x);
        Value() == out.state && effects == fx + out.effects
    {
      if failed || handled {
        return;
      }
      ProcessResult(resource, previousStatus, r, x);
    }

    /** The switch over the result. */
    method ProcessResult(resource: Resource, previousStatus: Status, r: Result, x: Check)
      requires previousStatus == stored.status
      modifies this`stored, this`effects, resource, service
      ensures
        var out := Continued(cfg, old(Value()), old(resource.Value()), r, x);
        Value() == out.state && effects == old(effects) + out.effects
    {
      match r {
        case RUp => ProcessUp(resource, previousStatus, x);
        case RDown => ProcessDown(resource, x);
        case RError =>
          resource.status := Error;
          UpdateMonitoringState(resource, x.persistOk);
          if x.persistOk {
            effects := effects + [Recalculated];
          }
      }
    }

    method ProcessUp(resource: Resource, previousStatus: Status, x: Check)
      requires previousStatus == stored.status
      modifies this`stored, this`effects, resource, service
      ensures
        var out := StepUp(cfg, old(Value()), old(resource.Value()), x);
        Value() == out.state && effects == old(effects) + out.effects
    {
      if previousStatus == Down {
        var _ := service.ResolveIncident(x.now, x.resolve);
        effects := effects + [ResolveCalled];
      }
      resource.failureCount := 0;
      resource.status := Up;
      UpdateMonitoringState(resource, x.persistOk);
      if x.persistOk {
        effects := effects + [Scheduled(cfg.interval), Recalculated];
      }
    }

    method ProcessDown(resource: Resource, x: Check)
      modifies this`stored, this`effects, resource, service
      ensures
        var out := StepDown(cfg, old(Value()), old(resource.Value()), x);
        Value() == out.state && effects == old(effects) + out.effects
    {
      resource.failureCount := resource.failureCount + 1;
      resource.status := Down;
      UpdateMonitoringState(resource, x.persistOk);
      if !x.persistOk || resource.failureCount < cfg.Confirmations() {
        effects := effects + [Scheduled(cfg.RetryInterval()), Recalculated];
        return;
      }
      var _ := service.CreateIncident(x.now, x.create);
      service.SendReminderIfDue(x.now, cfg.reminderMinutes, x.remind);
      effects := effects + [CreateCalled, ReminderChecked, Scheduled(cfg.interval), Recalculated];
    }
  }

  /** A new resource: pending, nothing recorded. */
  function Initial(): State {
    State(true, true, Row(Pending, 0, None, None), [])
  }
}
