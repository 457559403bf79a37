/** The in-process scheduler (internal/scheduler/timingwheel.go) and the adapter through which
    the check handler re-arms a resource (internal/scheduler/adapter.go).

    Every operation, a tick included, is one atomic step with one clock reading. The bounded
    check queue is a sequence. A tick visits the due ids in an arbitrary order, because the
    source ranges over a map. */
module TimingWheel {
  import opened Wrappers

  type Id = string

  datatype Entry = Entry(interval: int, nextDue: int)

  /** A schedule row loaded at start. */
  datatype Item = Item(id: Id, interval: int, paused: bool)

  datatype Mode = Stopped | Running

  datatype Wheel = Wheel(
    mode: Mode, schedules: map<Id, Entry>, paused: map<Id, bool>, queue: seq<Id>,
    tickInterval: int, maxWorkers: nat)

  predicate IsPaused(w: Wheel, id: Id) {
    id in w.paused && w.paused[id]
  }

  predicate Due(w: Wheel, id: Id, now: int) {
    id in w.schedules && !IsPaused(w, id) && now > w.schedules[id].nextDue
  }

  function DueIds(w: Wheel, now: int): set<Id> {
    set id | id in w.schedules && Due(w, id, now)
  }

  // ---------- Operations on values ----------

  function Load(schedules: map<Id, Entry>, items: seq<Item>, now: int): map<Id, Entry> {
    if items == [] then schedules
    else
      var rest := Load(schedules, items[..|items| - 1], now);
      var item := items[|items| - 1];
      if !item.paused && item.interval > 0
      then rest[item.id := Entry(item.interval, now + item.interval)] else rest
  }

  function Started(w: Wheel, items: seq<Item>, now: int): Wheel {
    if w.mode != Stopped then w
    else w.(mode := Running, schedules := Load(map[], items, now), paused := map[], queue := [])
  }

  function Scheduled(w: Wheel, id: Id, interval: int, now: int): Wheel {
    if interval <= 0 then w
    else w.(schedules := w.schedules[id := Entry(interval, now + interval + w.tickInterval)],
            paused := w.paused[id := false])
  }

  function Unscheduled(w: Wheel, id: Id): Wheel {
    w.(schedules := w.schedules - {id}, paused := w.paused - {id})
  }

  function SetPaused(w: Wheel, id: Id, value: bool): Wheel {
    if id !in w.schedules then w else w.(paused := w.paused[id := value])
  }

  function Dispatched(w: Wheel, id: Id, now: int): Wheel {
    if id !in w.schedules || |w.queue| >= w.maxWorkers then w
    else w.(queue := w.queue + [id],
            schedules := w.schedules[id := w.schedules[id].(nextDue := now + w.schedules[id].interval)])
  }

  function DispatchAll(w: Wheel, order: seq<Id>, now: int): Wheel {
    if order == [] then w
    else Dispatched(DispatchAll(w, order[..|order| - 1], now), order[|order| - 1], now)
  }

  /** `order` lists the given ids, each once. */
  ghost predicate Lists(order: seq<Id>, ids: set<Id>) {
    && (forall id :: id in ids <==> id in order)
    && (forall i, j :: 0 <= i < j < |order| ==> order[i] != order[j])
  }

  function Cleaned(w: Wheel): Wheel {
    w.(mode := Stopped, schedules := map[], paused := map[])
  }

  function Consumed(w: Wheel): Wheel {
    if w.queue == [] then w else w.(queue := w.queue[1..])
  }

  /** `RepositorySchedulerAdapter.ScheduleWithInterval`. */
  function AdapterSchedule(w: Wheel, id: Id, interval: int, now: int): Wheel {
    if id == "" || interval <= 0 then w else Scheduled(w, id, interval, now)
  }

  // ---------- The imperative scheduler ----------

  class TimingWheelScheduler {
    var mode: Mode
    var schedules: map<Id, Entry>
    var paused: map<Id, bool>
    var checkQueue: seq<Id>
    const tickInterval: int
    const maxWorkers: nat

    constructor (tickInterval: int, maxWorkers: nat)
      ensures Value() == Wheel(Stopped, map[], map[], [], tickInterval, maxWorkers)
    {
      this.tickInterval, this.maxWorkers := tickInterval, maxWorkers;
      mode, schedules, paused, checkQueue := Stopped, map[], map[], [];
    }

    function Value(): Wheel
      reads this
    {
      Wheel(mode, schedules, paused, checkQueue, tickInterval, maxWorkers)
    }

    method Start(items: seq<Item>, now: int) returns (ok: bool)
      modifies this
      ensures Value() == Started(old(Value()), items, now)
      ensures ok <==> old(mode) == Stopped
    {
      if mode != Stopped {
        return false;
      }
      checkQueue, schedules, paused, mode := [], map[], map[], Running;
      for k := 0 to |items|
        invariant schedules == Load(map[], items[..k], now)
        invariant mode == Running && checkQueue == [] && paused == map[]
      {
        assert items[..k + 1][..k] == items[..k];
        var item := items[k];
        if !item.paused && item.interval > 0 {
          schedules := schedules[item.id := Entry(item.interval, now + item.interval)];
        }
      }
      assert items[..|items|] == items;
      ok := true;
    }

    method Schedule(id: Id, interval: int, now: int) returns (ok: bool)
      modifies this
      ensures Value() == Scheduled(old(Value()), id, interval, now)
      ensures ok <==> interval > 0
    {
      if interval <= 0 {
        return false;
      }
      schedules := schedules[id := Entry(interval, now + interval + tickInterval)];
      paused := paused[id := false];
      ok := true;
    }

    method Unschedule(id: Id)
      modifies this
      ensures Value() == Unscheduled(old(Value()), id)
    {
      schedules := schedules - {id};
      paused := paused - {id};
    }

    method Pause(id: Id)
      modifies this
      ensures Value() == SetPaused(old(Value()), id, true)
    {
      if id in schedules {
        paused := paused[id := true];
      }
    }

    method Resume(id: Id)
      modifies this
      ensures Value() == SetPaused(old(Value()), id, false)
    {
      if id in schedules {
        paused := paused[id := false];
      }
    }

    /** The due ids, in whatever order the map yields them. */
    method CollectDue(now: int) returns (dueIds: seq<Id>)
      ensures Lists(dueIds, DueIds(Value(), now))
    {
      dueIds := [];
      var rest := schedules.Keys;
      while rest != {}
        invariant rest <= schedules.Keys
        invariant Lists(dueIds, DueIds(Value(), now) - rest)
        decreases rest
      {
        var id :| id in rest;
        rest := rest - {id};
        if !IsPaused(Value(), id) && now > schedules[id].nextDue {
          dueIds := dueIds + [id];
        }
      }
    }

    method Tick(now: int) returns (order: seq<Id>)
      modifies this
      ensures Lists(order, DueIds(old(Value()), now))
      ensures Value() == DispatchAll(old(Value()), order, now)
    {
      order := CollectDue(now);
      for k := 0 to |order|
        invariant Value() == DispatchAll(old(Value()), order[..k], now)
      {
        assert order[..k + 1][..k] == order[..k];
        var id := order[k];
        if id in schedules && |checkQueue| < maxWorkers {
          checkQueue := checkQueue + [id];
          schedules := schedules[id := schedules[id].(nextDue := now + schedules[id].interval)];
        }
      }
      assert order[..|order|] == order;
    }

    method Cleanup()
      modifies this
      ensures Value() == Cleaned(old(Value()))
    {
      mode, schedules, paused := Stopped, map[], map[];
    }
  }

  class RepositorySchedulerAdapter {
    const scheduler: TimingWheelScheduler

    constructor (scheduler: TimingWheelScheduler)
      ensures this.scheduler == scheduler
    {
      this.scheduler := scheduler;
    }

    method ScheduleWithInterval(id: Id, interval: int, now: int) returns (ok: bool)
      modifies scheduler
      ensures scheduler.Value() == AdapterSchedule(old(scheduler.Value()), id, interval, now)
      ensures ok <==> id != "" && interval > 0
    {
      if id == "" || interval <= 0 {
        return false;
      }
      ok := scheduler.Schedule(id, interval, now);
    }
  }

  // ---------- What one tick does ----------

  /** After visiting `order`: the ids in it that got a queue slot are re-armed, the others keep
      their entry and stay due; a refusal means the queue is full. */
  lemma {:induction false} DispatchAllEffect(w: Wheel, order: seq<Id>, now: int, id: Id)
    requires |w.queue| <= w.maxWorkers
    requires forall i, j :: 0 <= i < j < |order| ==> order[i] != order[j]
    requires forall i :: 0 <= i < |order| ==> order[i] in w.schedules
    ensures
      var v := DispatchAll(w, order, now);
      && v.schedules.Keys == w.schedules.Keys && v == w.(queue := v.queue, schedules := v.schedules)
      && w.queue <= v.queue && |v.queue| <= v.maxWorkers
      && (id in w.schedules ==>
           || (id in order && id in v.queue[|w.queue|..] &&
               v.schedules[id] == Entry(w.schedules[id].interval, now + w.schedules[id].interval))
           || (id !in v.queue[|w.queue|..] && v.schedules[id] == w.schedules[id] &&
               (id in order ==> |v.queue| == v.maxWorkers)))
  {
    if order == [] {
    } else {
      var init, last := order[..|order| - 1], order[|order| - 1];
      DispatchAllEffect(w, init, now, id);
      var u, v := DispatchAll(w, init, now), DispatchAll(w, order, now);
      if last in w.schedules && |u.queue| < u.maxWorkers {
        assert v.queue[|w.queue|..] == u.queue[|w.queue|..] + [last];
        if id == last {
          assert id !in init;
          DispatchAllEffect(w, init, now, last);
        }
      }
    }
  }

  // ---------- Runs ----------

  datatype Op =
    | Start(items: seq<Item>, at: int)
    | Schedule(id: Id, interval: int, at: int)
    | Unschedule(id: Id)
    | Pause(id: Id)
    | Resume(id: Id)
    | Tick(order: seq<Id>, at: int)
    | Consume
    | Stop

  ghost predicate Enabled(w: Wheel, op: Op) {
    match op
    case Start(_, _) => w.mode == Stopped
    case Tick(order, at) => w.mode == Running && Lists(order, DueIds(w, at))
    case Stop => w.mode == Running
    case _ => true
  }

  function Apply(w: Wheel, op: Op): Wheel {
    match op
    case Start(items, at) => Started(w, items, at)
    case Schedule(id, interval, at) => Scheduled(w, id, interval, at)
    case Unschedule(id) => Unscheduled(w, id)
    case Pause(id) => SetPaused(w, id, true)
    case Resume(id) => SetPaused(w, id, false)
    case Tick(order, at) => DispatchAll(w, order, at)
    case Consume => Consumed(w)
    case Stop => Cleaned(w)
  }

  /** The jobs an operation puts into the queue. */
  function NewJobs(w: Wheel, op: Op): seq<Id> {
    if op.Tick? && |w.queue| <= |Apply(w, op).queue| then Apply(w, op).queue[|w.queue|..] else []
  }

  /** When an id was last armed (scheduled or loaded) or dispatched, and every dispatch of the
      run with the time it is measured from. */
  datatype Dispatch = Dispatch(id: Id, at: int, interval: int, since: Option<int>)
  datatype Run = Run(
    wheel: Wheel, touched: map<Id, int>, dispatches: seq<Dispatch>, enqueued: seq<Id>, consumed: seq<Id>)

  function Touch(w: Wheel, touched: map<Id, int>, op: Op): map<Id, int> {
    match op
    case Start(items, at) => map id | id in Started(w, items, at).schedules :: at
    case Schedule(id, interval, at) => if interval > 0 then touched[id := at] else touched
    case Tick(_, at) =>
      var jobs := NewJobs(w, op);
      map id | id in touched.Keys + (set j | j in jobs) :: if id in jobs then at else touched[id]
    case _ => touched
  }

  function Log(w: Wheel, touched: map<Id, int>, jobs: seq<Id>, at: int): (r: seq<Dispatch>)
    ensures |r| == |jobs|
  {
    seq(|jobs|, k requires 0 <= k < |jobs| =>
      Dispatch(jobs[k], at,
               if jobs[k] in w.schedules then w.schedules[jobs[k]].interval else 0,
               if jobs[k] in touched then Some(touched[jobs[k]]) else None))
  }

  function Advance(r: Run, op: Op): Run {
    var w, jobs := r.wheel, NewJobs(r.wheel, op);
    Run(Apply(w, op), Touch(w, r.touched, op),
        if op.Tick? then r.dispatches + Log(w, r.touched, jobs, op.at) else r.dispatches,
        if op.Start? then [] else r.enqueued + jobs,
        if op.Start? then []
        else if op.Consume? && w.queue != [] then r.consumed + [w.queue[0]] else r.consumed)
  }

  function Fresh(tickInterval: int, maxWorkers: nat): Run {
    Run(Wheel(Stopped, map[], map[], [], tickInterval, maxWorkers), map[], [], [], [])
  }

  function Execute(r: Run, ops: seq<Op>): Run {
    if ops == [] then r else Advance(Execute(r, ops[..|ops| - 1]), ops[|ops| - 1])
  }

  ghost predicate Legal(r: Run, ops: seq<Op>) {
    ops == [] ||
    (Legal(r, ops[..|ops| - 1]) && Enabled(Execute(r, ops[..|ops| - 1]).wheel, ops[|ops| - 1]))
  }

  /** A dispatch strictly later than one interval after the id was last armed or dispatched. */
  predicate OnPace(d: Dispatch) {
    d.since.Some? && d.at > d.since.value + d.interval
  }

  ghost predicate Armed(w: Wheel, touched: map<Id, int>) {
    forall id :: id in w.schedules ==>
      id in touched && w.schedules[id].nextDue >= touched[id] + w.schedules[id].interval
  }

  ghost predicate Sound(r: Run) {
    && r.wheel.tickInterval >= 0
    && Armed(r.wheel, r.touched)
    && (forall id :: IsPaused(r.wheel, id) ==> id in r.wheel.schedules)
    && (forall k :: 0 <= k < |r.dispatches| ==> OnPace(r.dispatches[k]))
    && r.enqueued == r.consumed + r.wheel.queue
    && |r.wheel.queue| <= r.wheel.maxWorkers
  }

  lemma ListedAreScheduled(w: Wheel, order: seq<Id>, now: int)
    requires Lists(order, DueIds(w, now))
    ensures forall i :: 0 <= i < |order| ==> order[i] in w.schedules && Due(w, order[i], now)
  {
    forall i | 0 <= i < |order|
      ensures order[i] in w.schedules && Due(w, order[i], now)
    {
      assert order[i] in order;
    }
  }

  /** What a tick at `now` with new jobs `jobs` does to one scheduled id. */
  ghost predicate Served(w: Wheel, v: Wheel, jobs: seq<Id>, id: Id, now: int)
    requires id in w.schedules && id in v.schedules
  {
    || (Due(w, id, now) && id in jobs &&
        v.schedules[id] == Entry(w.schedules[id].interval, now + w.schedules[id].interval))
    || (id !in jobs && v.schedules[id] == w.schedules[id] && (Due(w, id, now) ==> |v.queue| == v.maxWorkers))
  }

  ghost predicate TickFrame(w: Wheel, v: Wheel, jobs: seq<Id>) {
    && v.schedules.Keys == w.schedules.Keys && v == w.(queue := v.queue, schedules := v.schedules)
    && v.queue == w.queue + jobs && |v.queue| <= v.maxWorkers
  }

  lemma TickFrameHolds(w: Wheel, order: seq<Id>, now: int, id: Id)
    requires |w.queue| <= w.maxWorkers && Lists(order, DueIds(w, now))
    ensures TickFrame(w, DispatchAll(w, order, now), NewJobs(w, Tick(order, now)))
    ensures id in w.schedules ==> Served(w, DispatchAll(w, order, now), NewJobs(w, Tick(order, now)), id, now)
  {
    ListedAreScheduled(w, order, now);
    DispatchAllEffect(w, order, now, id);
    assert id in order <==> id in DueIds(w, now);
  }

  lemma TickFacts(w: Wheel, order: seq<Id>, now: int)
    requires |w.queue| <= w.maxWorkers && Lists(order, DueIds(w, now))
    ensures TickFrame(w, DispatchAll(w, order, now), NewJobs(w, Tick(order, now)))
    ensures forall id :: id in w.schedules ==>
      Served(w, DispatchAll(w, order, now), NewJobs(w, Tick(order, now)), id, now)
  {
    TickFrameHolds(w, order, now, "");
    forall id | id in w.schedules
      ensures Served(w, DispatchAll(w, order, now), NewJobs(w, Tick(order, now)), id, now)
    {
      TickFrameHolds(w, order, now, id);
    }
  }

  lemma {:induction false} JobsWereDue(w: Wheel, order: seq<Id>, now: int)
    requires forall i :: 0 <= i < |order| ==> order[i] in w.schedules
    requires |w.queue| <= w.maxWorkers
    ensures
      var v := DispatchAll(w, order, now);
      w.queue <= v.queue && forall k :: |w.queue| <= k < |v.queue| ==> v.queue[k] in order
  {
    if order == [] {
    } else {
      JobsWereDue(w, order[..|order| - 1], now);
    }
  }

  lemma LoadedEntries(items: seq<Item>, now: int)
    ensures forall id :: id in Load(map[], items, now) ==>
      Load(map[], items, now)[id].nextDue == now + Load(map[], items, now)[id].interval
  {}

  lemma AdvanceSound(r: Run, op: Op)
    requires Sound(r) && Enabled(r.wheel, op)
    ensures Sound(Advance(r, op))
  {
    match op {
      case Start(items, at) => LoadedEntries(items, at);
      case Tick(order, at) => AdvanceTick(r, order, at);
      case Consume =>
        if r.wheel.queue != [] {
          assert r.wheel.queue == [r.wheel.queue[0]] + r.wheel.queue[1..];
        }
      case _ =>
    }
  }

  lemma TickKeepsArmed(w: Wheel, touched: map<Id, int>, order: seq<Id>, at: int)
    requires Armed(w, touched) && |w.queue| <= w.maxWorkers && Lists(order, DueIds(w, at))
    ensures Armed(DispatchAll(w, order, at), Touch(w, touched, Tick(order, at)))
  {
    TickFacts(w, order, at);
  }

  lemma TickOnPace(w: Wheel, touched: map<Id, int>, order: seq<Id>, at: int, k: nat)
    requires Armed(w, touched) && |w.queue| <= w.maxWorkers && Lists(order, DueIds(w, at))
    requires k < |NewJobs(w, Tick(order, at))|
    ensures OnPace(Log(w, touched, NewJobs(w, Tick(order, at)), at)[k])
  {
    ListedAreScheduled(w, order, at);
    JobsWereDue(w, order, at);
    var v := DispatchAll(w, order, at);
    assert v.queue[|w.queue| + k] in order;
  }

  lemma TickDispatchesOnPace(r: Run, order: seq<Id>, at: int)
    requires Sound(r) && Enabled(r.wheel, Tick(order, at))
    ensures forall k :: 0 <= k < |Advance(r, Tick(order, at)).dispatches| ==>
      OnPace(Advance(r, Tick(order, at)).dispatches[k])
  {
    var jobs := NewJobs(r.wheel, Tick(order, at));
    var log := Log(r.wheel, r.touched, jobs, at);
    forall k | 0 <= k < |log|
      ensures OnPace(log[k])
    {
      TickOnPace(r.wheel, r.touched, order, at, k);
    }
  }

  lemma AdvanceTick(r: Run, order: seq<Id>, at: int)
    requires Sound(r) && Enabled(r.wheel, Tick(order, at))
    ensures Sound(Advance(r, Tick(order, at)))
  {
    var w, v, jobs := r.wheel, DispatchAll(r.wheel, order, at), NewJobs(r.wheel, Tick(order, at));
    TickFrameHolds(w, order, at, "");
    TickKeepsArmed(w, r.touched, order, at);
    TickDispatchesOnPace(r, order, at);
    assert r.consumed + (w.queue + jobs) == (r.consumed + w.queue) + jobs;
    assert forall id :: IsPaused(v, id) == IsPaused(w, id);
  }

  /** In every run from a fresh scheduler: each dispatch comes strictly more than its interval
      after the id was last dispatched, scheduled or loaded; paused ids are scheduled ids; and
      since the last start, the jobs enqueued are those consumed followed by those queued, in
      order, with at most `maxWorkers` queued. */
  lemma {:induction false} PacedWithoutLoss(tickInterval: nat, maxWorkers: nat, ops: seq<Op>)
    requires Legal(Fresh(tickInterval, maxWorkers), ops)
    ensures Sound(Execute(Fresh(tickInterval, maxWorkers), ops))
  {
    if ops == [] {
    } else {
      PacedWithoutLoss(tickInterval, maxWorkers, ops[..|ops| - 1]);
      AdvanceSound(Execute(Fresh(tickInterval, maxWorkers), ops[..|ops| - 1]), ops[|ops| - 1]);
    }
  }

  /** Operations that take a resource out of its current schedule. */
  predicate Disturbs(op: Op, id: Id) {
    op.Start? || op.Stop? || ((op.Schedule? || op.Unschedule? || op.Pause?) && op.id == id)
  }

  ghost predicate StillDue(r: Run, later: Run, id: Id, t: int) {
    Due(later.wheel, id, t) && id in r.wheel.schedules && later.wheel.schedules[id] == r.wheel.schedules[id]
  }

  ghost predicate DispatchedSince(r: Run, later: Run, id: Id) {
    exists k :: |r.dispatches| <= k < |later.dispatches| && later.dispatches[k].id == id
  }

  lemma DueTick(r: Run, order: seq<Id>, at: int, id: Id, t: int)
    requires Sound(r) && Enabled(r.wheel, Tick(order, at)) && Due(r.wheel, id, t)
    ensures
      var later := Advance(r, Tick(order, at));
      StillDue(r, later, id, t) || DispatchedSince(r, later, id)
  {
    TickFrameHolds(r.wheel, order, at, id);
    var jobs := NewJobs(r.wheel, Tick(order, at));
    if id in jobs {
      var j :| 0 <= j < |jobs| && jobs[j] == id;
      var later := Advance(r, Tick(order, at));
      assert later.dispatches == r.dispatches + Log(r.wheel, r.touched, jobs, at);
      assert later.dispatches[|r.dispatches| + j].id == id;
    }
  }

  lemma DueStep(r: Run, op: Op, id: Id, t: int)
    requires Sound(r) && Enabled(r.wheel, op) && Due(r.wheel, id, t) && !Disturbs(op, id)
    ensures StillDue(r, Advance(r, op), id, t) || DispatchedSince(r, Advance(r, op), id)
  {
    if op.Tick? {
      DueTick(r, op.order, op.at, id, t);
    }
  }

  lemma DispatchedLater(r: Run, mid: Run, later: Run, id: Id)
    requires r.dispatches <= mid.dispatches <= later.dispatches
    requires DispatchedSince(r, mid, id) || DispatchedSince(mid, later, id)
    ensures DispatchedSince(r, later, id)
  {
    if DispatchedSince(r, mid, id) {
      var k :| |r.dispatches| <= k < |mid.dispatches| && mid.dispatches[k].id == id;
      assert later.dispatches[k].id == id;
    }
  }

  /** A due resource stays due, with the same entry, until it is enqueued, paused, rescheduled
      or removed, however long the queue refuses it. */
  lemma {:induction false} DueUntilEnqueued(r: Run, ops: seq<Op>, id: Id, t: int)
    requires Sound(r) && Legal(r, ops) && Due(r.wheel, id, t)
    requires forall k :: 0 <= k < |ops| ==> !Disturbs(ops[k], id)
    ensures Sound(Execute(r, ops)) && r.dispatches <= Execute(r, ops).dispatches
    ensures StillDue(r, Execute(r, ops), id, t) || DispatchedSince(r, Execute(r, ops), id)
  {
    if ops == [] {
    } else {
      var mid, op := Execute(r, ops[..|ops| - 1]), ops[|ops| - 1];
      DueUntilEnqueued(r, ops[..|ops| - 1], id, t);
      AdvanceSound(mid, op);
      assert mid.dispatches <= Advance(mid, op).dispatches;
      if StillDue(r, mid, id, t) {
        DueStep(mid, op, id, t);
      }
      if DispatchedSince(r, mid, id) || DispatchedSince(mid, Advance(mid, op), id) {
        DispatchedLater(r, mid, Advance(mid, op), id);
      }
    }
  }

  /** A tick refuses a due resource only by filling the queue: with room for every due id, all
      of them are enqueued and re-armed. */
  lemma RoomServesAll(w: Wheel, order: seq<Id>, now: int, id: Id)
    requires |w.queue| <= w.maxWorkers && Lists(order, DueIds(w, now))
    requires |w.queue| + |DueIds(w, now)| <= w.maxWorkers && Due(w, id, now)
    ensures id in NewJobs(w, Tick(order, now))
    ensures id in DispatchAll(w, order, now).schedules
    ensures DispatchAll(w, order, now).schedules[id].nextDue == now + w.schedules[id].interval
  {
    ListsLength(order, DueIds(w, now));
    ListedAreScheduled(w, order, now);
    ServedCount(w, order, now);
    assert id in DueIds(w, now);
    assert NewJobs(w, Tick(order, now)) == order;
    TickFacts(w, order, now);
  }

  lemma {:induction false} ListsLength(order: seq<Id>, ids: set<Id>)
    requires Lists(order, ids)
    ensures |order| == |ids|
  {
    if order == [] {
      assert ids == {};
    } else {
      var last, init := order[|order| - 1], order[..|order| - 1];
      assert forall id :: id in order <==> id in init || id == last;
      ListsLength(init, ids - {last});
    }
  }

  lemma {:induction false} ServedCount(w: Wheel, order: seq<Id>, now: int)
    requires |w.queue| + |order| <= w.maxWorkers
    requires forall i :: 0 <= i < |order| ==> order[i] in w.schedules
    ensures DispatchAll(w, order, now).queue == w.queue + order
    ensures DispatchAll(w, order, now).schedules.Keys == w.schedules.Keys
    ensures DispatchAll(w, order, now).maxWorkers == w.maxWorkers
  {
    if order == [] {
    } else {
      ServedCount(w, order[..|order| - 1], now);
      assert order == order[..|order| - 1] + [order[|order| - 1]];
    }
  }

  // ---------- What each operation means for dispatching ----------

  predicate Loadable(items: seq<Item>, id: Id, k: int) {
    0 <= k < |items| && items[k].id == id && !items[k].paused && items[k].interval > 0
  }

  /** The last listed item that can be loaded for an id. */
  ghost predicate Decides(items: seq<Item>, id: Id, k: int) {
    Loadable(items, id, k) && forall j :: k < j < |items| ==> !Loadable(items, id, j)
  }

  lemma LoadableStep(items: seq<Item>, id: Id, k: int)
    requires items != []
    ensures Loadable(items, id, k) <==>
      Loadable(items[..|items| - 1], id, k) || (k == |items| - 1 && Loadable(items, id, k))
    ensures Decides(items, id, k) && k < |items| - 1 ==> Decides(items[..|items| - 1], id, k)
  {
    var init := items[..|items| - 1];
    assert forall j :: 0 <= j < |init| ==> init[j] == items[j];
    assert forall j :: 0 <= j < |init| && Loadable(init, id, j) ==> Loadable(items, id, j);
  }

  lemma {:induction false} LoadedEntry(items: seq<Item>, now: int, id: Id, k: int)
    requires Decides(items, id, k)
    ensures id in Load(map[], items, now)
    ensures Load(map[], items, now)[id] == Entry(items[k].interval, now + items[k].interval)
  {
    var n := |items| - 1;
    if k < n {
      LoadableStep(items, id, k);
      LoadedEntry(items[..n], now, id, k);
      assert !Loadable(items, id, n);
    }
  }

  lemma {:induction false} LoadedOnlyIf(items: seq<Item>, now: int, id: Id)
    requires id in Load(map[], items, now)
    ensures exists k :: Decides(items, id, k)
  {
    if items == [] {
    } else {
      var n := |items| - 1;
      if Loadable(items, id, n) {
        assert Decides(items, id, n);
      } else {
        LoadedOnlyIf(items[..n], now, id);
        var k :| Decides(items[..n], id, k);
        assert forall j :: k < j < n ==> (Loadable(items, id, j) ==> Loadable(items[..n], id, j));
        assert Decides(items, id, k);
      }
    }
  }

  lemma {:induction false} LoadedIf(items: seq<Item>, now: int, id: Id, k: int)
    requires Loadable(items, id, k)
    ensures id in Load(map[], items, now)
  {
    var n := |items| - 1;
    if k < n {
      LoadableStep(items, id, k);
      LoadedIf(items[..n], now, id, k);
    }
  }

  /** Starting a stopped scheduler schedules an id exactly when some listed item with that id is not
      paused and has a positive interval; the last such item decides, and the first check is due one
      interval later. Nothing is paused or queued. A running scheduler is left as it is. */
  lemma StartLoads(w: Wheel, items: seq<Item>, now: int, id: Id)
    ensures
      var v := Apply(w, Start(items, now));
      if w.mode == Running then v == w
      else
        && v.mode == Running && v.queue == [] && !IsPaused(v, id)
        && (id in v.schedules <==> exists k :: Loadable(items, id, k))
        && (forall k :: Decides(items, id, k) ==>
             v.schedules[id] == Entry(items[k].interval, now + items[k].interval))
  {
    forall k | Decides(items, id, k)
      ensures id in Load(map[], items, now)
      ensures Load(map[], items, now)[id] == Entry(items[k].interval, now + items[k].interval)
    {
      LoadedEntry(items, now, id, k);
    }
    if id in Load(map[], items, now) {
      LoadedOnlyIf(items, now, id);
      var k :| Decides(items, id, k);
      assert Loadable(items, id, k);
    }
    if k :| Loadable(items, id, k) {
      LoadedIf(items, now, id, k);
    }
  }

  /** Scheduling arms exactly one id, unpaused, an interval and a tick ahead. */
  lemma ScheduleArms(w: Wheel, id: Id, interval: int, now: int)
    ensures
      var v := Apply(w, Schedule(id, interval, now));
      if interval <= 0 then v == w
      else
        && !IsPaused(v, id) && v.schedules.Keys == w.schedules.Keys + {id}
        && v.schedules[id] == Entry(interval, now + interval + w.tickInterval)
  {}

  /** Operations on one id leave every other as it was. */
  lemma OthersUntouched(w: Wheel, op: Op, id: Id)
    requires (op.Schedule? || op.Unschedule? || op.Pause? || op.Resume?) && op.id != id
    ensures
      var v := Apply(w, op);
      && (id in v.schedules <==> id in w.schedules) && IsPaused(v, id) == IsPaused(w, id)
      && (id in w.schedules ==> v.schedules[id] == w.schedules[id])
      && v.queue == w.queue && v.mode == w.mode
  {}

  /** Resuming gives a paused id its place back, with the due time it had. */
  lemma ResumeRestores(w: Wheel, id: Id, now: int)
    requires id in w.schedules
    ensures
      var v := Apply(Apply(w, Pause(id)), Resume(id));
      v.schedules == w.schedules && (Due(v, id, now) <==> now > w.schedules[id].nextDue)
  {}

  /** Stopping forgets every schedule and makes the next start possible; jobs already queued stay. */
  lemma StopClears(w: Wheel, items: seq<Item>, now: int)
    ensures
      var v := Apply(w, Stop);
      && v.schedules == map[] && v.paused == map[] && v.queue == w.queue
      && Enabled(v, Start(items, now)) && (forall order, at :: !Enabled(v, Tick(order, at)))
  {}

  /** The adapter passes on exactly the calls with an id and a positive interval. */
  lemma AdapterGuards(w: Wheel, id: Id, interval: int, now: int)
    ensures AdapterSchedule(w, id, interval, now) ==
      if id != "" && interval > 0 then Apply(w, Schedule(id, interval, now)) else w
  {}

  predicate Blocked(w: Wheel, id: Id) {
    id !in w.schedules || IsPaused(w, id)
  }

  predicate Unblocks(op: Op, id: Id) {
    op.Start? || ((op.Schedule? || op.Resume?) && op.id == id)
  }

  lemma JobsAreDue(w: Wheel, order: seq<Id>, at: int, k: nat)
    requires |w.queue| <= w.maxWorkers && Lists(order, DueIds(w, at)) && k < |NewJobs(w, Tick(order, at))|
    ensures Due(w, NewJobs(w, Tick(order, at))[k], at)
  {
    ListedAreScheduled(w, order, at);
    JobsWereDue(w, order, at);
    assert DispatchAll(w, order, at).queue[|w.queue| + k] in order;
  }

  lemma BlockedTick(r: Run, order: seq<Id>, at: int, id: Id)
    requires Sound(r) && Enabled(r.wheel, Tick(order, at)) && Blocked(r.wheel, id)
    ensures Blocked(DispatchAll(r.wheel, order, at), id) && id !in NewJobs(r.wheel, Tick(order, at))
  {
    TickFrameHolds(r.wheel, order, at, id);
    var jobs := NewJobs(r.wheel, Tick(order, at));
    forall k | 0 <= k < |jobs|
      ensures jobs[k] != id
    {
      JobsAreDue(r.wheel, order, at, k);
    }
  }

  lemma BlockedStep(r: Run, op: Op, id: Id)
    requires Sound(r) && Enabled(r.wheel, op) && Blocked(r.wheel, id) && !Unblocks(op, id)
    ensures Blocked(Advance(r, op).wheel, id) && !DispatchedSince(r, Advance(r, op), id)
    ensures r.dispatches <= Advance(r, op).dispatches
  {
    if op.Tick? {
      BlockedTick(r, op.order, op.at, id);
    }
  }

  lemma {:induction false} BlockedRun(r: Run, ops: seq<Op>, id: Id)
    requires Sound(r) && Legal(r, ops) && Blocked(r.wheel, id)
    requires forall k :: 0 <= k < |ops| ==> !Unblocks(ops[k], id)
    ensures
      var later := Execute(r, ops);
      Sound(later) && Blocked(later.wheel, id) && r.dispatches <= later.dispatches && !DispatchedSince(r, later, id)
  {
    if ops == [] {
    } else {
      var mid, op := Execute(r, ops[..|ops| - 1]), ops[|ops| - 1];
      BlockedRun(r, ops[..|ops| - 1], id);
      AdvanceSound(mid, op);
      BlockedStep(mid, op, id);
      var later := Advance(mid, op);
      forall k | |r.dispatches| <= k < |later.dispatches|
        ensures later.dispatches[k].id != id
      {
        if k < |mid.dispatches| {
          assert later.dispatches[k] == mid.dispatches[k];
        }
      }
    }
  }

  /** A paused or removed id, or any id once the scheduler has stopped, is not dispatched in any run
      until it is resumed or scheduled, or the scheduler is started again. */
  lemma NotDispatchedWhileBlocked(r: Run, op: Op, ops: seq<Op>, id: Id)
    requires Sound(r) && Legal(Advance(r, op), ops) && Enabled(r.wheel, op)
    requires op == Pause(id) || op == Unschedule(id) || op == Stop
    requires forall k :: 0 <= k < |ops| ==> !Unblocks(ops[k], id)
    ensures !DispatchedSince(r, Execute(Advance(r, op), ops), id)
  {
    AdvanceSound(r, op);
    BlockedRun(Advance(r, op), ops, id);
  }

  /** The other side: a scheduled id that is not disturbed is dispatched, at the latest, by the first tick
      after its due time that has room. */
  lemma DueIsDispatched(r: Run, ops: seq<Op>, order: seq<Id>, at: int, id: Id)
    requires Sound(r) && id in r.wheel.schedules && !IsPaused(r.wheel, id) && at > r.wheel.schedules[id].nextDue
    requires Legal(r, ops) && Enabled(Execute(r, ops).wheel, Tick(order, at))
    requires forall k :: 0 <= k < |ops| ==> !Disturbs(ops[k], id)
    requires
      var w := Execute(r, ops).wheel;
      |w.queue| + |DueIds(w, at)| <= w.maxWorkers
    ensures DispatchedSince(r, Advance(Execute(r, ops), Tick(order, at)), id)
  {
    var mid, tick := Execute(r, ops), Tick(order, at);
    DueUntilEnqueued(r, ops, id, at);
    if StillDue(r, mid, id, at) {
      RoomServesAll(mid.wheel, order, at, id);
      JobIsDispatched(mid, order, at, id);
    }
    DispatchedLater(r, mid, Advance(mid, tick), id);
  }

  lemma JobIsDispatched(r: Run, order: seq<Id>, at: int, id: Id)
    requires id in NewJobs(r.wheel, Tick(order, at))
    ensures DispatchedSince(r, Advance(r, Tick(order, at)), id)
  {
    var jobs, later := NewJobs(r.wheel, Tick(order, at)), Advance(r, Tick(order, at));
    var j :| 0 <= j < |jobs| && jobs[j] == id;
    assert later.dispatches == r.dispatches + Log(r.wheel, r.touched, jobs, at);
    assert later.dispatches[|r.dispatches| + j].id == id;
  }

  /** From a start: an active monitor that was listed is dispatched by the first tick with room more than
      one interval later, unless it is disturbed before. */
  lemma LoadedIsDispatched(r: Run, items: seq<Item>, now: int, k: nat, ops: seq<Op>, order: seq<Id>, at: int)
    requires Sound(r) && r.wheel.mode == Stopped && k < |items|
    requires Decides(items, items[k].id, k)
    requires Legal(Advance(r, Start(items, now)), ops) && Enabled(r.wheel, Start(items, now))
    requires Enabled(Execute(Advance(r, Start(items, now)), ops).wheel, Tick(order, at))
    requires at > now + items[k].interval && forall j :: 0 <= j < |ops| ==> !Disturbs(ops[j], items[k].id)
    requires
      var w := Execute(Advance(r, Start(items, now)), ops).wheel;
      |w.queue| + |DueIds(w, at)| <= w.maxWorkers
    ensures DispatchedSince(r, Advance(Execute(Advance(r, Start(items, now)), ops), Tick(order, at)), items[k].id)
  {
    var s := Advance(r, Start(items, now));
    AdvanceSound(r, Start(items, now));
    StartLoads(r.wheel, items, now, items[k].id);
    DueIsDispatched(s, ops, order, at, items[k].id);
    assert s.dispatches == r.dispatches;
  }
}
