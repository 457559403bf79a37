/** What every run of one resource keeps. A run is any sequence of checks, heartbeat events,
    activation changes and deletion, serialized by the per-resource lock, starting from a new
    resource. Repository failures may strike anywhere unless a theorem says otherwise. */
module Lifecycle {
  import opened Wrappers
  import opened Incidents
  import opened CheckStep

  datatype Op =
    | Checked(x: Check)
    | HeartbeatMissed(now: int, create: CreateFaults)
    | HeartbeatRecovered(now: int, statusOk: bool, resolve: ResolveFaults)
    | Deleted(now: int, resolve: ResolveFaults, deleteOk: bool)
    | SetActive(active: bool)

  function Apply(cfg: Settings, st: State, op: Op): State {
    match op
    case Checked(x) => Step(cfg, st, x).state
    case HeartbeatMissed(now, f) => st.(incidents := Created(st.incidents, now, f))
    case HeartbeatRecovered(now, statusOk, f) =>
      if !statusOk then st
      else st.(row := st.row.(status := Up), incidents := Recovered(st.incidents, now, f))
    case Deleted(now, f, deleteOk) =>
      st.(present := st.present && !deleteOk, incidents := Closed(st.incidents, now, f))
    case SetActive(active) => st.(active := active)
  }

  /** The state after a run. */
  function After(cfg: Settings, ops: seq<Op>): State {
    if ops == [] then Initial()
    else Apply(cfg, After(cfg, ops[..|ops| - 1]), ops[|ops| - 1])
  }

  function At(cfg: Settings, ops: seq<Op>, i: nat): State
    requires i <= |ops|
  {
    After(cfg, ops[..i])
  }

  lemma AtStep(cfg: Settings, ops: seq<Op>, i: nat)
    requires i < |ops|
    ensures At(cfg, ops, i + 1) == Apply(cfg, At(cfg, ops, i), ops[i])
  {
    assert ops[..i + 1][..i] == ops[..i];
  }

  // ---------- At most one open incident ----------

  lemma StepIncidents(cfg: Settings, st: State, x: Check)
    ensures
      var s := Step(cfg, st, x).state.incidents;
      || s == st.incidents || s == Resolved(st.incidents, x.now, x.resolve)
      || s == Reminded(Created(st.incidents, x.now, x.create), x.now, cfg.reminderMinutes, x.remind)
  {}

  lemma StepKeepsSingleOpen(cfg: Settings, st: State, x: Check)
    requires SingleOpen(st.incidents)
    ensures SingleOpen(Step(cfg, st, x).state.incidents)
  {
    StepIncidents(cfg, st, x);
    ResolveKeepsSingleOpen(st.incidents, x.now, x.resolve);
    CreateKeepsSingleOpen(st.incidents, x.now, x.create);
    RemindKeepsSingleOpen(Created(st.incidents, x.now, x.create), x.now, cfg.reminderMinutes, x.remind);
  }

  /** In every reachable state at most one incident is unresolved, and it is the newest. */
  lemma {:induction false} SingleOpenAlways(cfg: Settings, ops: seq<Op>)
    ensures SingleOpen(After(cfg, ops).incidents)
  {
    if ops == [] {
    } else {
      var st := After(cfg, ops[..|ops| - 1]);
      SingleOpenAlways(cfg, ops[..|ops| - 1]);
      match ops[|ops| - 1] {
        case Checked(x) => StepKeepsSingleOpen(cfg, st, x);
        case HeartbeatMissed(now, f) => CreateKeepsSingleOpen(st.incidents, now, f);
        case HeartbeatRecovered(now, _, f) => ResolveKeepsSingleOpen(st.incidents, now, f);
        case Deleted(now, f, _) => ResolveKeepsSingleOpen(st.incidents, now, f);
        case SetActive(_) =>
      }
    }
  }

  // ---------- Confirmation: when an incident is attempted ----------

  /** A recorded up/down result: whether it was down, whether flap suppression swallowed it,
      and whether it is the check that left Flapping. */
  datatype Mark = Mark(down: bool, suppressed: bool, leftFlapping: bool)

  /** The mark an operation adds: none for errors, maintenance, idle resources and checks
      whose row could not be stored. */
  function MarkOf(cfg: Settings, st: State, op: Op): seq<Mark> {
    if !op.Checked? || !Runs(st, op.x) || !op.x.persistOk || op.x.probe.value.RError? then []
    else
      var r := op.x.probe.value;
      match HandleFlapping(cfg, Touched(st.row, r, op.x.now), r, op.x)
      case Failed => []
      case Suppress(_, _) => [Mark(r.RDown?, true, false)]
      case Continue(_, _) => [Mark(r.RDown?, false, st.row.status == Flapping)]
  }

  function History(cfg: Settings, ops: seq<Op>): seq<Mark> {
    if ops == [] then []
    else
      var before := ops[..|ops| - 1];
      History(cfg, before) + MarkOf(cfg, After(cfg, before), ops[|ops| - 1])
  }

  predicate PlainDown(m: Mark) {
    m.down && !m.suppressed
  }

  ghost predicate LastDown(h: seq<Mark>, n: nat) {
    n <= |h| && forall i :: |h| - n <= i < |h| ==> PlainDown(h[i])
  }

  ghost predicate DownSinceFlapping(h: seq<Mark>) {
    exists k :: 0 <= k < |h| && h[k].leftFlapping && forall i :: k <= i < |h| ==> PlainDown(h[i])
  }

  /** The last n recorded results are all down, or all are since the one that left Flapping. */
  ghost predicate Confirmed(h: seq<Mark>, n: nat) {
    LastDown(h, n) || DownSinceFlapping(h)
  }

  function Streak(h: seq<Mark>, n: nat): int {
    if h == [] || !PlainDown(h[|h| - 1]) then 0
    else if h[|h| - 1].leftFlapping then n
    else Streak(h[..|h| - 1], n) + 1
  }

  lemma DownSinceFlappingStep(h: seq<Mark>)
    requires h != []
    ensures DownSinceFlapping(h) <==>
      PlainDown(h[|h| - 1]) && (h[|h| - 1].leftFlapping || DownSinceFlapping(h[..|h| - 1]))
  {
    var init := h[..|h| - 1];
    if DownSinceFlapping(h) && !h[|h| - 1].leftFlapping {
      var k :| 0 <= k < |h| && h[k].leftFlapping && forall i :: k <= i < |h| ==> PlainDown(h[i]);
      assert init[k].leftFlapping;
    }
    if PlainDown(h[|h| - 1]) && DownSinceFlapping(init) {
      var k :| 0 <= k < |init| && init[k].leftFlapping && forall i :: k <= i < |init| ==> PlainDown(init[i]);
      assert h[k].leftFlapping && forall i :: k <= i < |init| ==> h[i] == init[i];
    }
  }

  lemma {:induction false} StreakMeaning(h: seq<Mark>, n: nat, j: nat)
    requires 1 <= j <= n
    ensures Streak(h, n) >= j <==> LastDown(h, j) || DownSinceFlapping(h)
  {
    if h == [] {
    } else {
      var init := h[..|h| - 1];
      DownSinceFlappingStep(h);
      if j > 1 {
        StreakMeaning(init, n, j - 1);
        assert LastDown(h, j) <==> PlainDown(h[|h| - 1]) && LastDown(init, j - 1) by {
          assert forall i :: 0 <= i < |init| ==> h[i] == init[i];
        }
      }
      StreakNonNegative(init, n);
    }
  }

  lemma StreakNonNegative(h: seq<Mark>, n: nat)
    ensures Streak(h, n) >= 0
  {}

  lemma CountStep(cfg: Settings, st: State, op: Op, h: seq<Mark>)
    requires st.row.failureCount == Streak(h, cfg.Confirmations())
    ensures Apply(cfg, st, op).row.failureCount == Streak(h + MarkOf(cfg, st, op), cfg.Confirmations())
  {
    var m := MarkOf(cfg, st, op);
    if m == [] {
      assert h + m == h;
    } else {
      assert (h + m)[..|h + m| - 1] == h;
    }
  }

  /** The stored failure count is the streak of the recorded history, in every run. */
  lemma {:induction false} CountIsStreak(cfg: Settings, ops: seq<Op>)
    ensures After(cfg, ops).row.failureCount == Streak(History(cfg, ops), cfg.Confirmations())
  {
    if ops == [] {
    } else {
      var before := ops[..|ops| - 1];
      CountIsStreak(cfg, before);
      CountStep(cfg, After(cfg, before), ops[|ops| - 1], History(cfg, before));
    }
  }

  lemma CreateCalledAtCount(cfg: Settings, st: State, x: Check)
    ensures CreateCalled in Step(cfg, st, x).effects <==>
      MarkOf(cfg, st, Checked(x)) != [] && Step(cfg, st, x).state.row.failureCount >= cfg.Confirmations()
  {}

  /** Confirmation, exactly: in every run a check calls `CreateIncident` if and only if its
      result is recorded and the history ending with it is confirmed. */
  lemma CreateCalledIffConfirmed(cfg: Settings, ops: seq<Op>, x: Check)
    ensures CreateCalled in Step(cfg, After(cfg, ops), x).effects <==>
      && MarkOf(cfg, After(cfg, ops), Checked(x)) != []
      && Confirmed(History(cfg, ops + [Checked(x)]), cfg.Confirmations())
  {
    var ops' := ops + [Checked(x)];
    assert ops'[..|ops'| - 1] == ops;
    CreateCalledAtCount(cfg, After(cfg, ops), x);
    CountIsStreak(cfg, ops');
    StreakMeaning(History(cfg, ops'), cfg.Confirmations(), cfg.Confirmations());
  }

  const GOOD_CREATE := CreateFaults(true, true, true, true)
  const GOOD_RESOLVE := ResolveFaults(true, true)
  const GOOD_REMIND := RemindFaults(true, true, true)

  function Probe(now: int, r: Result, persistOk: bool): Check {
    Check(now, true, Some(r), false, Some(0), persistOk, GOOD_CREATE, GOOD_RESOLVE, GOOD_REMIND)
  }

  function Defaults(n: int): Settings {
    Settings(n, 30, 300, 0, false, 0, 0, 0, true, 4, 600, 30)
  }

  /** "Recorded" cannot be dropped: an Up result whose row could not be stored does not reset
      the count, so the next Down is already treated as the second in a row. */
  lemma UnstoredUpIsForgotten()
    ensures
      var cfg := Defaults(2);
      var ops := [Checked(Probe(0, RDown, true)), Checked(Probe(60, RUp, false))];
      CreateCalled in Step(cfg, After(cfg, ops), Probe(120, RDown, true)).effects
  {
    var cfg := Defaults(2);
    var down, up := Checked(Probe(0, RDown, true)), Checked(Probe(60, RUp, false));
    assert [down, up][..1] == [down] && [down][..0] == [];
    assert After(cfg, [down]) == Apply(cfg, Initial(), down);
    assert After(cfg, [down, up]) == Apply(cfg, After(cfg, [down]), up);
  }

  // ---------- Plain runs: open exactly when confirmed down ----------

  /** An operation of a plain run: activation changes, checks that do not reach the status
      logic, and up/down checks with working repositories and too few transitions to flap. */
  predicate PlainOp(cfg: Settings, op: Op) {
    op.SetActive? ||
    (op.Checked? &&
     (!op.x.loadOk || op.x.probe.None? || op.x.maintenance ||
      (!op.x.probe.value.RError? && op.x.persistOk &&
       op.x.create.listOk && op.x.create.insertOk && op.x.resolve == GOOD_RESOLVE &&
       var t := Evaluate(cfg, op.x.transitions); t.Some? && t.value < cfg.Threshold())))
  }

  ghost predicate PlainState(cfg: Settings, st: State) {
    && (st.row.status == Pending || st.row.status == Up || st.row.status == Down)
    && st.row.failureCount >= 0
    && (st.row.status != Down ==> st.row.failureCount == 0)
    && SingleOpen(st.incidents)
    && (HasOpen(st.incidents) <==> st.row.status == Down && st.row.failureCount >= cfg.Confirmations())
  }

  lemma PlainStep(cfg: Settings, st: State, x: Check)
    requires PlainState(cfg, st) && PlainOp(cfg, Checked(x))
    ensures PlainState(cfg, Step(cfg, st, x).state)
  {
    StepKeepsSingleOpen(cfg, st, x);
    ResolveKeepsSingleOpen(st.incidents, x.now, x.resolve);
    CreateKeepsSingleOpen(st.incidents, x.now, x.create);
    RemindKeepsSingleOpen(Created(st.incidents, x.now, x.create), x.now, cfg.reminderMinutes, x.remind);
  }

  /** On plain runs an incident is open exactly when the status is Down and the failure count
      has reached the confirmation count. */
  lemma {:induction false} PlainRunsExact(cfg: Settings, ops: seq<Op>)
    requires forall i :: 0 <= i < |ops| ==> PlainOp(cfg, ops[i])
    ensures PlainState(cfg, After(cfg, ops))
  {
    if ops == [] {
    } else {
      PlainRunsExact(cfg, ops[..|ops| - 1]);
      if ops[|ops| - 1].Checked? {
        PlainStep(cfg, After(cfg, ops[..|ops| - 1]), ops[|ops| - 1].x);
      }
    }
  }

  /** The run without the checks that did not reach the status logic when they came: resource
      inactive, missing or under maintenance, or no probe result. */
  function WithoutIdleChecks(cfg: Settings, ops: seq<Op>): seq<Op> {
    if ops == [] then []
    else
      var before, op := ops[..|ops| - 1], ops[|ops| - 1];
      WithoutIdleChecks(cfg, before) + (if op.Checked? && !Runs(After(cfg, before), op.x) then [] else [op])
  }

  /** Checks of an inactive resource or during maintenance leave no trace: erasing all of them from
      any run leads to the same state and the same recorded history. */
  lemma {:induction false} IdleChecksLeaveNoTrace(cfg: Settings, ops: seq<Op>)
    ensures After(cfg, WithoutIdleChecks(cfg, ops)) == After(cfg, ops)
    ensures History(cfg, WithoutIdleChecks(cfg, ops)) == History(cfg, ops)
  {
    if ops == [] {
    } else {
      var before, op := ops[..|ops| - 1], ops[|ops| - 1];
      IdleChecksLeaveNoTrace(cfg, before);
      var kept, all := WithoutIdleChecks(cfg, before), WithoutIdleChecks(cfg, ops);
      if op.Checked? && !Runs(After(cfg, before), op.x) {
        assert all == kept;
      } else {
        assert all[..|all| - 1] == kept;
      }
    }
  }

  // ---------- Up does not imply resolved ----------

  /** Outside plain runs, exactly when a check that ends Up leaves an incident open: one was
      open, and the previous status was not Down or a repository call of the resolve failed. */
  lemma UpLeavesOpenIff(cfg: Settings, ops: seq<Op>, x: Check)
    requires MarkOf(cfg, After(cfg, ops), Checked(x)) != [] && x.probe == Some(RUp)
    requires Step(cfg, After(cfg, ops), x).state.row.status == Up
    ensures
      var st := After(cfg, ops);
      HasOpen(Step(cfg, st, x).state.incidents) <==>
        HasOpen(st.incidents) && !(st.row.status == Down && x.resolve == GOOD_RESOLVE)
  {
    SingleOpenAlways(cfg, ops);
    ResolveKeepsSingleOpen(After(cfg, ops).incidents, x.now, x.resolve);
  }

  lemma DownKeepsOpen(cfg: Settings, st: State, row: Row, x: Check)
    requires SingleOpen(st.incidents) && HasOpen(st.incidents)
    ensures HasOpen(StepDown(cfg, st, row, x).state.incidents)
  {
    CreateKeepsSingleOpen(st.incidents, x.now, x.create);
    RemindKeepsSingleOpen(Created(st.incidents, x.now, x.create), x.now, cfg.reminderMinutes, x.remind);
  }

  lemma UpClosesIff(cfg: Settings, st: State, row: Row, x: Check)
    requires SingleOpen(st.incidents) && HasOpen(st.incidents)
    ensures !HasOpen(StepUp(cfg, st, row, x).state.incidents) <==> st.row.status == Down && x.resolve == GOOD_RESOLVE
  {
    ResolveKeepsSingleOpen(st.incidents, x.now, x.resolve);
  }

  /** A check closes an open incident only when it goes straight from Down to an Up result. */
  lemma ChecksCloseOnlyFromDown(cfg: Settings, st: State, x: Check)
    requires SingleOpen(st.incidents) && HasOpen(st.incidents)
    ensures !HasOpen(Step(cfg, st, x).state.incidents) <==>
      && Runs(st, x) && x.probe == Some(RUp) && st.row.status == Down && x.resolve == GOOD_RESOLVE
      && HandleFlapping(cfg, Touched(st.row, RUp, x.now), RUp, x).Continue?
  {
    if Runs(st, x) {
      var r := x.probe.value;
      var v := HandleFlapping(cfg, Touched(st.row, r, x.now), r, x);
      if v.Continue? {
        DownKeepsOpen(cfg, st, v.row, x);
        UpClosesIff(cfg, st, v.row, x);
      }
    }
  }

  /** Over whole runs: an incident open at step i and not open at step j was closed by a
      deletion, a heartbeat recovery, or a check that found the status exactly Down and the
      resource up. Detours through Error or Flapping leave it open for good. */
  lemma {:induction false} OpenUntilDirectRecovery(cfg: Settings, ops: seq<Op>, i: nat, j: nat) returns (k: nat)
    requires i <= j <= |ops|
    requires HasOpen(At(cfg, ops, i).incidents) && !HasOpen(At(cfg, ops, j).incidents)
    ensures i <= k < j
    ensures ops[k].Deleted? || ops[k].HeartbeatRecovered? ||
      (ops[k].Checked? && At(cfg, ops, k).row.status == Down && ops[k].x.probe == Some(RUp))
    decreases j - i
  {
    AtStep(cfg, ops, i);
    var st := At(cfg, ops, i);
    SingleOpenAlways(cfg, ops[..i]);
    if HasOpen(At(cfg, ops, i + 1).incidents) {
      k := OpenUntilDirectRecovery(cfg, ops, i + 1, j);
    } else {
      k := i;
      match ops[i] {
        case Checked(x) => ChecksCloseOnlyFromDown(cfg, st, x);
        case HeartbeatMissed(now, f) => CreateKeepsSingleOpen(st.incidents, now, f);
        case _ =>
      }
    }
  }

  /** Such detours happen: Down, Error, Up with every repository call succeeding. */
  lemma DetourLeavesIncidentOpen()
    ensures
      var cfg := Defaults(1);
      var st := After(cfg, [Checked(Probe(0, RDown, true)), Checked(Probe(60, RError, true)),
                            Checked(Probe(120, RUp, true))]);
      st.row.status == Up && HasOpen(st.incidents)
  {
    var cfg := Defaults(1);
    var a, b, c := Checked(Probe(0, RDown, true)), Checked(Probe(60, RError, true)), Checked(Probe(120, RUp, true));
    assert [a, b, c][..2] == [a, b] && [a, b][..1] == [a] && [a][..0] == [];
    assert After(cfg, [a]) == Apply(cfg, Initial(), a);
    assert After(cfg, [a, b]) == Apply(cfg, After(cfg, [a]), b);
    var st := After(cfg, [a, b, c]);
    assert st == Apply(cfg, After(cfg, [a, b]), c);
    assert Open(st.incidents[0]);
  }

  // ---------- Bounded suppression ----------

  ghost predicate FlapState(st: State) {
    st.row.status == Flapping ==> st.row.failureCount == 0 && st.row.flapStartedAt.Some?
  }

  lemma {:induction false} FlappingIsSet(cfg: Settings, ops: seq<Op>)
    ensures FlapState(After(cfg, ops))
  {
    if ops == [] {
    } else {
      FlappingIsSet(cfg, ops[..|ops| - 1]);
    }
  }

  /** The age of the current flap episode at a check that finds the resource Flapping. */
  predicate Overdue(cfg: Settings, st: State, now: int) {
    st.row.flapStartedAt.Some? && now - st.row.flapStartedAt.value >= 60 * cfg.MaxMinutes()
  }

  /** A recorded check leaves the resource Flapping exactly when it is suppressed, and then with
      count 0 and an episode younger than the maximum duration; a recorded Down check that finds the
      episode at or past it is never suppressed and attempts an incident at once. */
  lemma SuppressionBounded(cfg: Settings, ops: seq<Op>, x: Check)
    requires cfg.MaxMinutes() > 0
    ensures
      var st := After(cfg, ops);
      var m, out := MarkOf(cfg, st, Checked(x)), Step(cfg, st, x);
      m != [] ==>
        && (m[0].suppressed <==> out.state.row.status == Flapping)
        && (m[0].suppressed ==> out.state.row.failureCount == 0 && out.state.row.flapStartedAt.Some?)
        && (m[0].suppressed ==> !Overdue(cfg, out.state, x.now))
        && (m[0].down && st.row.status == Flapping && Overdue(cfg, st, x.now) ==>
             out.state.row.status == Down && CreateCalled in out.effects)
  {
    FlappingIsSet(cfg, ops);
  }

  function EffectsAt(cfg: Settings, ops: seq<Op>, i: nat): seq<Effect>
    requires i < |ops|
  {
    if ops[i].Checked? then Step(cfg, At(cfg, ops, i), ops[i].x).effects else []
  }

  lemma {:induction false} FlappingEnds(cfg: Settings, ops: seq<Op>, i: nat, j: nat) returns (k: nat)
    requires i < j <= |ops|
    requires At(cfg, ops, i).row.status == Flapping && At(cfg, ops, j).row.status != Flapping
    ensures i <= k < j
    ensures At(cfg, ops, k).row.status == Flapping && At(cfg, ops, k + 1).row.status != Flapping
    decreases j - i
  {
    if At(cfg, ops, i + 1).row.status != Flapping {
      k := i;
    } else {
      k := FlappingEnds(cfg, ops, i + 1, j);
    }
  }

  lemma FlapNoticeEnters(cfg: Settings, st: State, x: Check)
    requires FlapNotice in Step(cfg, st, x).effects
    ensures st.row.status != Flapping && Step(cfg, st, x).state.row.status == Flapping
  {}

  /** Operation i found the resource not Flapping and left it so. */
  predicate EntersAt(cfg: Settings, ops: seq<Op>, i: nat)
    requires i < |ops|
  {
    At(cfg, ops, i).row.status != Flapping && At(cfg, ops, i + 1).row.status == Flapping
  }

  lemma FlapNoticeAt(cfg: Settings, ops: seq<Op>, i: nat)
    requires i < |ops| && FlapNotice in EffectsAt(cfg, ops, i)
    ensures EntersAt(cfg, ops, i)
  {
    AtStep(cfg, ops, i);
    FlapNoticeEnters(cfg, At(cfg, ops, i), ops[i].x);
  }

  lemma EntriesSeparated(cfg: Settings, ops: seq<Op>, i: nat, j: nat) returns (k: nat)
    requires i < j < |ops| && EntersAt(cfg, ops, i) && EntersAt(cfg, ops, j)
    ensures i < k < j
    ensures At(cfg, ops, k).row.status == Flapping && At(cfg, ops, k + 1).row.status != Flapping
  {
    k := FlappingEnds(cfg, ops, i + 1, j);
  }

  /** Two flapping notices are always separated by an operation that left Flapping. */
  lemma FlapNoticesSeparated(cfg: Settings, ops: seq<Op>, i: nat, j: nat) returns (k: nat)
    requires i < j < |ops|
    requires FlapNotice in EffectsAt(cfg, ops, i) && FlapNotice in EffectsAt(cfg, ops, j)
    ensures i < k < j
    ensures At(cfg, ops, k).row.status == Flapping && At(cfg, ops, k + 1).row.status != Flapping
  {
    FlapNoticeAt(cfg, ops, i);
    FlapNoticeAt(cfg, ops, j);
    k := EntriesSeparated(cfg, ops, i, j);
  }

  /** A suppressed check starts a new flap episode, with a fresh clock and a notice, exactly when the
      status it finds is not Flapping; otherwise the episode's clock runs on. */
  lemma SuppressedCheckRestartsIff(cfg: Settings, st: State, x: Check)
    requires MarkOf(cfg, st, Checked(x)) != [] && MarkOf(cfg, st, Checked(x))[0].suppressed
    ensures
      var out := Step(cfg, st, x);
      && (FlapNotice in out.effects <==> st.row.status != Flapping)
      && out.state.row.flapStartedAt == if st.row.status != Flapping then Some(x.now) else st.row.flapStartedAt
  {}

  lemma FlapClockRunsOn(cfg: Settings, st: State, op: Op)
    requires st.row.status == Flapping && Apply(cfg, st, op).row.status == Flapping
    ensures Apply(cfg, st, op).row.flapStartedAt == st.row.flapStartedAt
  {}

  /** While the resource stays Flapping, the episode's clock is the time of its notice. */
  lemma {:induction false} EpisodeClock(cfg: Settings, ops: seq<Op>, i: nat, j: nat)
    requires i < j <= |ops| && FlapNotice in EffectsAt(cfg, ops, i)
    requires forall k :: i < k <= j ==> At(cfg, ops, k).row.status == Flapping
    ensures At(cfg, ops, j).row.flapStartedAt == Some(ops[i].x.now)
    decreases j
  {
    if j == i + 1 {
      AtStep(cfg, ops, i);
      FlapNoticeStartsClock(cfg, At(cfg, ops, i), ops[i].x);
    } else {
      EpisodeClock(cfg, ops, i, j - 1);
      AtStep(cfg, ops, j - 1);
      FlapClockRunsOn(cfg, At(cfg, ops, j - 1), ops[j - 1]);
    }
  }

  lemma FlapNoticeStartsClock(cfg: Settings, st: State, x: Check)
    requires FlapNotice in Step(cfg, st, x).effects
    ensures Step(cfg, st, x).state.row.flapStartedAt == Some(x.now)
  {}

  /** The bound over runs: as long as the resource has not left Flapping since the notice, a check is
      suppressed only within the maximum duration of that notice. */
  lemma EpisodeBounded(cfg: Settings, ops: seq<Op>, i: nat, j: nat)
    requires cfg.MaxMinutes() > 0 && i < j < |ops| && FlapNotice in EffectsAt(cfg, ops, i)
    requires forall k :: i < k <= j ==> At(cfg, ops, k).row.status == Flapping
    requires MarkOf(cfg, At(cfg, ops, j), ops[j]) != [] && MarkOf(cfg, At(cfg, ops, j), ops[j])[0].suppressed
    ensures ops[j].x.now - ops[i].x.now < 60 * cfg.MaxMinutes()
  {
    EpisodeClock(cfg, ops, i, j);
    SuppressionBounded(cfg, ops[..j], ops[j].x);
    SuppressedCheckRestartsIff(cfg, At(cfg, ops, j), ops[j].x);
  }

  /** Operations that take a resource out of Flapping without a verdict on it: a stored error result, or
      a heartbeat recovery. */
  predicate Detour(st: State, op: Op) {
    || (op.Checked? && Runs(st, op.x) && op.x.probe == Some(RError) && op.x.persistOk)
    || (op.HeartbeatRecovered? && op.statusOk)
  }

  /** Exactly which operations leave Flapping: detours, and recorded results that are not suppressed. */
  lemma LeavesFlappingIff(cfg: Settings, st: State, op: Op)
    requires st.row.status == Flapping
    ensures Apply(cfg, st, op).row.status != Flapping <==>
      Detour(st, op) || (MarkOf(cfg, st, op) != [] && !MarkOf(cfg, st, op)[0].suppressed)
  {}

  /** Neither a detour nor a result let through. */
  ghost predicate Undisturbed(cfg: Settings, st: State, op: Op) {
    !Detour(st, op) && forall m :: m in MarkOf(cfg, st, op) ==> m.suppressed
  }

  lemma UndisturbedStays(cfg: Settings, st: State, op: Op)
    requires st.row.status == Flapping && Undisturbed(cfg, st, op)
    ensures Apply(cfg, st, op).row.status == Flapping
  {
    LeavesFlappingIff(cfg, st, op);
    var m := MarkOf(cfg, st, op);
    assert m != [] ==> m[0] in m;
  }

  ghost predicate UndisturbedAt(cfg: Settings, ops: seq<Op>, k: nat)
    requires k < |ops|
  {
    Undisturbed(cfg, At(cfg, ops, k), ops[k])
  }

  lemma UndisturbedStaysAt(cfg: Settings, ops: seq<Op>, k: nat)
    requires k < |ops| && At(cfg, ops, k).row.status == Flapping && UndisturbedAt(cfg, ops, k)
    ensures At(cfg, ops, k + 1).row.status == Flapping
  {
    AtStep(cfg, ops, k);
    UndisturbedStays(cfg, At(cfg, ops, k), ops[k]);
  }

  lemma {:induction false} StaysFlapping(cfg: Settings, ops: seq<Op>, i: nat, j: nat)
    requires i < j <= |ops| && At(cfg, ops, i + 1).row.status == Flapping
    requires forall k :: i < k < j ==> UndisturbedAt(cfg, ops, k)
    ensures At(cfg, ops, j).row.status == Flapping
    decreases j
  {
    if j > i + 1 {
      StaysFlapping(cfg, ops, i, j - 1);
      UndisturbedStaysAt(cfg, ops, j - 1);
    }
  }

  /** The bound in terms of what happens: with neither a detour nor a result let through since a flapping
      notice, suppression ends within the maximum duration of that notice. */
  lemma SuppressionBoundedWithoutDetours(cfg: Settings, ops: seq<Op>, i: nat, j: nat)
    requires cfg.MaxMinutes() > 0 && i < j < |ops| && FlapNotice in EffectsAt(cfg, ops, i)
    requires forall k :: i < k < j ==> UndisturbedAt(cfg, ops, k)
    requires MarkOf(cfg, At(cfg, ops, j), ops[j]) != [] && MarkOf(cfg, At(cfg, ops, j), ops[j])[0].suppressed
    ensures ops[j].x.now - ops[i].x.now < 60 * cfg.MaxMinutes()
  {
    FlapNoticeAt(cfg, ops, i);
    forall k | i < k <= j
      ensures At(cfg, ops, k).row.status == Flapping
    {
      StaysFlapping(cfg, ops, i, k);
    }
    EpisodeBounded(cfg, ops, i, j);
  }

  /** While the transitions are at the threshold, exactly which checks attempt an incident: Down results
      that find the resource Flapping past the maximum duration. An Up result at that moment ends the
      episode without one. */
  lemma FlappingAttemptsIff(cfg: Settings, st: State, x: Check)
    requires cfg.Enabled() && cfg.MaxMinutes() > 0 && MarkOf(cfg, st, Checked(x)) != []
    requires x.transitions.Some? && x.transitions.value >= cfg.Threshold()
    ensures CreateCalled in Step(cfg, st, x).effects <==>
      x.probe == Some(RDown) && st.row.status == Flapping && Overdue(cfg, st, x.now)
  {}

  /** With detection disabled, a result is suppressed exactly when the effective threshold is not
      positive, because zero transitions then already reach it, unless the check ends an overdue
      flap episode. */
  lemma DisabledDetectionSuppressesIff(cfg: Settings, row: Row, r: Result, x: Check)
    requires !cfg.Enabled()
    ensures HandleFlapping(cfg, row, r, x).Suppress? <==>
      && !r.RError? && cfg.Threshold() <= 0
      && !(row.status == Flapping && ShouldForceIncident(cfg, row.flapStartedAt, x.now))
  {}

  /** No run ever suppresses a result. */
  ghost predicate NeverSuppresses(cfg: Settings) {
    forall ops: seq<Op>, k :: 0 <= k < |History(cfg, ops)| ==> !History(cfg, ops)[k].suppressed
  }

  lemma {:induction false} PositiveThresholdNeverSuppresses(cfg: Settings, ops: seq<Op>)
    requires !cfg.Enabled() && cfg.Threshold() >= 1
    ensures forall k :: 0 <= k < |History(cfg, ops)| ==> !History(cfg, ops)[k].suppressed
  {
    if ops == [] {
    } else {
      PositiveThresholdNeverSuppresses(cfg, ops[..|ops| - 1]);
    }
  }

  /** Over runs: disabling flap detection turns suppression off if and only if the effective threshold
      is positive. The resource's own threshold is validated to be at least 2, so the failing inputs are
      those with a non-positive global threshold and no threshold of the resource's own. */
  lemma DisablingWorksIff(cfg: Settings)
    requires !cfg.Enabled()
    ensures NeverSuppresses(cfg) <==> cfg.Threshold() >= 1
  {
    if cfg.Threshold() >= 1 {
      forall ops: seq<Op>, k | 0 <= k < |History(cfg, ops)|
        ensures !History(cfg, ops)[k].suppressed
      {
        PositiveThresholdNeverSuppresses(cfg, ops);
      }
    } else {
      var op := Checked(Probe(0, RDown, true));
      assert [op][..0] == [];
      assert MarkOf(cfg, Initial(), op) == [Mark(true, true, false)];
      assert History(cfg, [op]) == [] + [Mark(true, true, false)];
      assert History(cfg, [op])[0].suppressed;
    }
  }

  // ---------- Reminders ----------

  /** Reminder rounds of one incident are at least `minutes` minutes apart, the first one that
      long after the incident started. */
  ghost predicate Spaced(i: Incident, minutes: int) {
    && (forall k :: 0 < k < |i.reminders| ==> i.reminders[k] - i.reminders[k - 1] >= 60 * minutes)
    && (i.reminders != [] ==> i.reminders[0] - i.startedAt >= 60 * minutes)
    && (i.lastAlert.Some? ==>
         i.lastAlert.value == if i.reminders == [] then i.startedAt else i.reminders[|i.reminders| - 1])
  }

  ghost predicate AllSpaced(s: seq<Incident>, minutes: int) {
    forall k :: 0 <= k < |s| ==> Spaced(s[k], minutes)
  }

  lemma RemindedRowSpaced(i: Incident, now: int, minutes: int)
    requires Spaced(i, minutes) && minutes > 0 && ReminderDue(i, now, minutes)
    ensures Spaced(RemindedRow(i, now, true), minutes)
  {}

  lemma RemindKeepsSpaced(s: seq<Incident>, now: int, minutes: int, f: RemindFaults)
    requires AllSpaced(s, minutes) && f.anchored
    ensures AllSpaced(Reminded(s, now, minutes, f), minutes)
  {
    var a := PickActive(s, Newest(|s|, 10));
    if minutes > 0 && a.Some? && ReminderDue(s[a.value], now, minutes) {
      RemindedRowSpaced(s[a.value], now, minutes);
    }
  }

  lemma ResolveAtKeepsSpaced(s: seq<Incident>, id: Option<nat>, now: int, minutes: int)
    requires AllSpaced(s, minutes) && (id.Some? ==> id.value < |s|)
    ensures AllSpaced(ResolveAt(s, id, now), minutes)
  {}

  lemma CreatedKeepsSpaced(s: seq<Incident>, now: int, f: CreateFaults, minutes: int)
    requires AllSpaced(s, minutes)
    ensures AllSpaced(Created(s, now, f), minutes)
  {}

  lemma ApplyKeepsSpaced(cfg: Settings, st: State, op: Op)
    requires AllSpaced(st.incidents, cfg.reminderMinutes)
    requires op.Checked? ==> op.x.remind.anchored
    ensures AllSpaced(Apply(cfg, st, op).incidents, cfg.reminderMinutes)
  {
    var s, m := st.incidents, cfg.reminderMinutes;
    match op {
      case Checked(x) =>
        StepIncidents(cfg, st, x);
        ResolveAtKeepsSpaced(s, PickActive(s, Newest(|s|, 10)), x.now, m);
        CreatedKeepsSpaced(s, x.now, x.create, m);
        RemindKeepsSpaced(Created(s, x.now, x.create), x.now, m, x.remind);
      case HeartbeatMissed(now, f) => CreatedKeepsSpaced(s, now, f, m);
      case HeartbeatRecovered(now, _, _) => ResolveAtKeepsSpaced(s, FirstOpen(s, Newest(|s|, 10)), now, m);
      case Deleted(now, _, _) => ResolveAtKeepsSpaced(s, FirstOpen(s, Newest(|s|, |s|)), now, m);
      case SetActive(_) =>
    }
  }

  /** In every run whose reminder anchors are stored, reminder rounds keep their distance. */
  lemma {:induction false} RemindersSpaced(cfg: Settings, ops: seq<Op>)
    requires forall i :: 0 <= i < |ops| && ops[i].Checked? ==> ops[i].x.remind.anchored
    ensures AllSpaced(After(cfg, ops).incidents, cfg.reminderMinutes)
  {
    if ops == [] {
    } else {
      RemindersSpaced(cfg, ops[..|ops| - 1]);
      ApplyKeepsSpaced(cfg, After(cfg, ops[..|ops| - 1]), ops[|ops| - 1]);
    }
  }

  /** Storing the anchor is what spaces reminders: within the interval after a reminder round the
      next check sends another one exactly when the anchor was not stored. */
  lemma ReminderRepeatsIff(i: Incident, now: int, later: int, minutes: int, anchored: bool)
    requires minutes > 0 && ReminderDue(i, now, minutes) && now <= later < now + 60 * minutes
    ensures ReminderDue(RemindedRow(i, now, anchored), later, minutes) <==> !anchored
  {}

  /** A failing check whose reminder anchor, if it sends a reminder, cannot be stored. */
  function UnanchoredDown(now: int): Check {
    Probe(now, RDown, true).(remind := RemindFaults(true, true, false))
  }

  function UnanchoredRun(times: seq<int>): seq<Op> {
    [Checked(UnanchoredDown(0))] + seq(|times|, k requires 0 <= k < |times| => Checked(UnanchoredDown(times[k])))
  }

  /** Down and confirmed, with one open incident that has had these reminders. */
  ghost predicate Reminding(cfg: Settings, st: State, sent: seq<int>) {
    && st.present && st.active && st.row.status == Down && st.row.failureCount >= cfg.Confirmations()
    && st.incidents == [Incident(0, None, Some(0), sent)]
  }

  lemma UnanchoredFirst(cfg: Settings)
    requires cfg.Confirmations() == 1 && cfg.Threshold() >= 1 && cfg.reminderMinutes > 0
    ensures Reminding(cfg, Step(cfg, Initial(), UnanchoredDown(0)).state, [])
  {
    assert Newest(1, 10) == [0];
  }

  lemma UnanchoredStart(cfg: Settings)
    requires cfg.Confirmations() == 1 && cfg.Threshold() >= 1 && cfg.reminderMinutes > 0
    ensures Reminding(cfg, After(cfg, UnanchoredRun([])), [])
  {
    var ops := UnanchoredRun([]);
    AtStep(cfg, ops, 0);
    assert ops[..1] == ops && ops[..0] == [];
    UnanchoredFirst(cfg);
  }

  lemma UnanchoredStep(cfg: Settings, st: State, now: int, sent: seq<int>, next: State, all: seq<int>)
    requires cfg.Threshold() >= 1 && cfg.reminderMinutes > 0 && now >= 60 * cfg.reminderMinutes
    requires Reminding(cfg, st, sent) && next == Step(cfg, st, UnanchoredDown(now)).state && all == sent + [now]
    ensures Reminding(cfg, next, all)
  {
    assert Newest(1, 10) == [0];
  }

  lemma UnanchoredSnoc(cfg: Settings, times: seq<int>)
    requires times != []
    ensures
      var n := |times| - 1;
      After(cfg, UnanchoredRun(times)) ==
        Step(cfg, After(cfg, UnanchoredRun(times[..n])), UnanchoredDown(times[n])).state
  {
    var ops, n := UnanchoredRun(times), |times| - 1;
    assert ops[..|ops| - 1] == UnanchoredRun(times[..n]);
  }

  lemma UnanchoredNext(cfg: Settings, times: seq<int>)
    requires cfg.Threshold() >= 1 && cfg.reminderMinutes > 0 && times != []
    requires times[|times| - 1] >= 60 * cfg.reminderMinutes
    requires Reminding(cfg, After(cfg, UnanchoredRun(times[..|times| - 1])), times[..|times| - 1])
    ensures Reminding(cfg, After(cfg, UnanchoredRun(times)), times)
  {
    var n := |times| - 1;
    UnanchoredSnoc(cfg, times);
    assert times == times[..n] + [times[n]];
    UnanchoredStep(cfg, After(cfg, UnanchoredRun(times[..n])), times[n], times[..n],
                   After(cfg, UnanchoredRun(times)), times);
  }

  lemma {:induction false} UnanchoredReminds(cfg: Settings, times: seq<int>)
    requires cfg.Confirmations() == 1 && cfg.Threshold() >= 1 && cfg.reminderMinutes > 0
    requires forall k :: 0 <= k < |times| ==> times[k] >= 60 * cfg.reminderMinutes
    ensures Reminding(cfg, After(cfg, UnanchoredRun(times)), times)
  {
    if times == [] {
      UnanchoredStart(cfg);
    } else {
      var n := |times| - 1;
      UnanchoredReminds(cfg, times[..n]);
      UnanchoredNext(cfg, times);
    }
  }

  /** Runs with refused anchors: once the first reminder is due every failing check sends one, at
      whatever times, so the spacing is lost as soon as two checks are closer than the interval. */
  lemma RefusedAnchorsRepeat(cfg: Settings, times: seq<int>)
    requires cfg.Confirmations() == 1 && cfg.Threshold() >= 1 && cfg.reminderMinutes > 0
    requires forall k :: 0 <= k < |times| ==> times[k] >= 60 * cfg.reminderMinutes
    ensures After(cfg, UnanchoredRun(times)).incidents == [Incident(0, None, Some(0), times)]
    ensures |times| >= 2 && times[1] - times[0] < 60 * cfg.reminderMinutes ==>
      !AllSpaced(After(cfg, UnanchoredRun(times)).incidents, cfg.reminderMinutes)
  {
    UnanchoredReminds(cfg, times);
    var i := Incident(0, None, Some(0), times);
    assert |times| >= 2 && times[1] - times[0] < 60 * cfg.reminderMinutes ==> !Spaced(i, cfg.reminderMinutes);
    assert [i][0] == i;
  }
}
