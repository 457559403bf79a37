/** What the settings of a resource and the global defaults decide: every own setting and every fallback
    in terms of an outcome that can be observed (internal/worker/handler_monitoring.go). */
module SettingsEffects {
  import opened Wrappers
  import opened Incidents
  import opened CheckStep
  import opened Lifecycle
  import opened FlapRuns

  /** A resource's own value if it has a positive one, otherwise the default. */
  function OwnOr(own: int, fallback: int): int {
    if own > 0 then own else fallback
  }

  /** Detection is on for the resource itself, or it has no flap settings at all and the default is on. */
  predicate Detects(cfg: Settings) {
    || cfg.flapEnabled
    || (cfg.flapThreshold == 0 && cfg.flapWindow == 0 && cfg.flapMaxMinutes == 0 && cfg.globalEnabled)
  }

  /** A check with an up or down result that counts n transitions and whose row is stored. */
  predicate Recorded(st: State, x: Check, n: nat) {
    Runs(st, x) && x.persistOk && (x.probe == Some(RUp) || x.probe == Some(RDown)) && x.transitions == Some(n)
  }

  /** The threshold: a resource that is not Flapping starts to, with a notice, exactly when the counted
      transitions, none if detection is off, reach its own threshold or else the default one. */
  lemma ThresholdDecides(cfg: Settings, st: State, x: Check, n: nat)
    requires Recorded(st, x, n) && st.row.status != Flapping
    ensures
      var out := Step(cfg, st, x);
      var flaps := (if Detects(cfg) then n else 0) >= OwnOr(cfg.flapThreshold, cfg.globalThreshold);
      && (out.state.row.status == Flapping <==> flaps)
      && (FlapNotice in out.effects <==> flaps)
  {}

  /** The maximum duration: a Down result at the threshold that finds the resource Flapping since t
      attempts an incident exactly when its own maximum, or else the default one, is set and over. Until
      then the result is suppressed. */
  lemma MaximumDecides(cfg: Settings, st: State, x: Check, n: nat, t: int)
    requires Recorded(st, x, n) && x.probe == Some(RDown) && Detects(cfg)
    requires st.row.status == Flapping && st.row.flapStartedAt == Some(t)
    requires n >= OwnOr(cfg.flapThreshold, cfg.globalThreshold)
    ensures
      var out, m := Step(cfg, st, x), OwnOr(cfg.flapMaxMinutes, cfg.globalMaxMinutes);
      && (CreateCalled in out.effects <==> m > 0 && x.now - t >= 60 * m)
      && (out.state.row.status == Flapping <==> !(m > 0 && x.now - t >= 60 * m))
  {}

  /** Below the threshold Flapping ends with a notice; a Down result then attempts an incident at once. */
  lemma BelowThresholdSettles(cfg: Settings, st: State, x: Check, n: nat)
    requires Recorded(st, x, n) && st.row.status == Flapping
    requires (if Detects(cfg) then n else 0) < OwnOr(cfg.flapThreshold, cfg.globalThreshold)
    ensures
      var out := Step(cfg, st, x);
      && StableNotice in out.effects && out.state.row.flapStartedAt == None
      && (x.probe == Some(RUp) ==> out.state.row.status == Up && out.state.row.failureCount == 0)
      && (x.probe == Some(RDown) ==> out.state.row.status == Down && CreateCalled in out.effects)
  {}

  // ---------- The window ----------

  lemma TwoOutcomes(t0: int, t1: int, start: int)
    requires t1 >= start
    ensures Changes(Since([Activity(t0, true), Activity(t1, false)], start)) == if t0 >= start then 1 else 0
  {
    var a, b := Activity(t0, true), Activity(t1, false);
    assert [a, b][..1] == [a] && [a][..0] == [];
    FewChanges(true, false, true);
    assert Since([a], start) == if t0 >= start then [true] else [];
  }

  lemma FirstCount(cfg: Settings, log: seq<Activity>, now: int)
    requires |log| == 1
    ensures Count(cfg, log, now) == 0
  {
    ChangesBound(Since(log, now - cfg.Window()));
    SinceBound(log, now - cfg.Window());
  }

  lemma SecondCount(cfg: Settings, t0: int, t1: int)
    requires t0 <= t1 && OwnOr(cfg.flapWindow, cfg.globalWindow) >= 0
    ensures Count(cfg, [Activity(t0, true), Activity(t1, false)], t1) ==
      if t1 - t0 <= OwnOr(cfg.flapWindow, cfg.globalWindow) then 1 else 0
  {
    TwoOutcomes(t0, t1, t1 - OwnOr(cfg.flapWindow, cfg.globalWindow));
  }

  lemma WindowCount(cfg: Settings, rs: seq<Sample>)
    requires |rs| == 2 && rs[0].r == RUp && rs[1].r == RDown && rs[0].at <= rs[1].at
    requires OwnOr(cfg.flapWindow, cfg.globalWindow) >= 0
    ensures CheckOf(cfg, rs, 0).transitions == Some(0)
    ensures CheckOf(cfg, rs, 1).transitions ==
      Some(if rs[1].at - rs[0].at <= OwnOr(cfg.flapWindow, cfg.globalWindow) then 1 else 0)
  {
    FirstCount(cfg, LogOf(rs[..1]), rs[0].at);
    assert LogOf(rs[..2]) == [Activity(rs[0].at, true), Activity(rs[1].at, false)];
    SecondCount(cfg, rs[0].at, rs[1].at);
  }

  /** The window: with one transition enough to flap, an Up and then a Down result make a resource
      Flapping exactly when they are no further apart than its own window or else the default one. */
  lemma WindowDecides(cfg: Settings, rs: seq<Sample>)
    requires |rs| == 2 && rs[0].r == RUp && rs[1].r == RDown && rs[0].at <= rs[1].at
    requires Detects(cfg) && OwnOr(cfg.flapThreshold, cfg.globalThreshold) == 1
    requires OwnOr(cfg.flapWindow, cfg.globalWindow) >= 0
    ensures Counted(cfg, RunOf(cfg, rs))
    ensures After(cfg, RunOf(cfg, rs)).row.status == Flapping <==>
      rs[1].at - rs[0].at <= OwnOr(cfg.flapWindow, cfg.globalWindow)
  {
    RunCounted(cfg, rs);
    WindowCount(cfg, rs);
    var ops := RunOf(cfg, rs);
    RunStep(cfg, rs, 0);
    ThresholdDecides(cfg, At(cfg, ops, 0), CheckOf(cfg, rs, 0), 0);
    RunStep(cfg, rs, 1);
    ThresholdDecides(cfg, At(cfg, ops, 1), CheckOf(cfg, rs, 1),
                     if rs[1].at - rs[0].at <= OwnOr(cfg.flapWindow, cfg.globalWindow) then 1 else 0);
    assert ops[..2] == ops;
  }

  // ---------- Confirmation and re-arming ----------

  /** Failing checks at the given times that count no transition. */
  function FailingRun(times: seq<int>): seq<Op> {
    seq(|times|, k requires 0 <= k < |times| => Checked(Probe(times[k], RDown, true)))
  }

  ghost predicate FailedSoFar(st: State, k: nat) {
    st.present && st.active && st.row.status != Flapping && st.row.failureCount == k
  }

  lemma FailingStep(cfg: Settings, st: State, now: int, k: nat)
    requires FailedSoFar(st, k) && OwnOr(cfg.flapThreshold, cfg.globalThreshold) >= 1
    ensures
      var out, n := Step(cfg, st, Probe(now, RDown, true)), OwnOr(cfg.confirmationChecks, 1);
      && FailedSoFar(out.state, k + 1)
      && (CreateCalled in out.effects <==> k + 1 >= n)
      && (forall s :: Scheduled(s) in out.effects <==>
           s == if k + 1 >= n then cfg.interval else OwnOr(cfg.confirmationInterval, 30))
  {}

  lemma {:induction false} FailingState(cfg: Settings, times: seq<int>, k: nat)
    requires k <= |times| && OwnOr(cfg.flapThreshold, cfg.globalThreshold) >= 1
    ensures FailedSoFar(At(cfg, FailingRun(times), k), k)
  {
    if k == 0 {
    } else {
      FailingState(cfg, times, k - 1);
      AtStep(cfg, FailingRun(times), k - 1);
      FailingStep(cfg, At(cfg, FailingRun(times), k - 1), times[k - 1], k - 1);
    }
  }

  /** Confirmation: a new resource that only fails has its incident attempted from the check on that its
      own confirmation count names, or the first if that is not positive. Before, the handler asks for
      the next check after the own retry interval or else 30 seconds; from then on after the interval. */
  lemma ConfirmationDecides(cfg: Settings, times: seq<int>, k: nat)
    requires k < |times| && OwnOr(cfg.flapThreshold, cfg.globalThreshold) >= 1
    ensures
      var fx, n := EffectsAt(cfg, FailingRun(times), k), OwnOr(cfg.confirmationChecks, 1);
      && (CreateCalled in fx <==> k + 1 >= n)
      && (forall s :: Scheduled(s) in fx <==>
           s == if k + 1 >= n then cfg.interval else OwnOr(cfg.confirmationInterval, 30))
  {
    FailingState(cfg, times, k);
    FailingStep(cfg, At(cfg, FailingRun(times), k), times[k], k);
  }

  /** Whenever a check asks for the next one, it is after the interval or the retry interval; it asks
      exactly when it is suppressed and stored, goes up and is stored, or is down and not suppressed. */
  lemma RearmedIff(cfg: Settings, st: State, x: Check)
    ensures
      var fx := Step(cfg, st, x).effects;
      (exists s :: Scheduled(s) in fx) <==>
        && Runs(st, x) && (x.probe == Some(RUp) || x.probe == Some(RDown))
        && var v := HandleFlapping(cfg, Touched(st.row, x.probe.value, x.now), x.probe.value, x);
           (v.Suppress? && x.persistOk) || (v.Continue? && (x.probe == Some(RDown) || x.persistOk))
  {
    var fx := Step(cfg, st, x).effects;
    if Runs(st, x) {
      var v := HandleFlapping(cfg, Touched(st.row, x.probe.value, x.now), x.probe.value, x);
      if v.Suppress? && x.persistOk {
        assert Scheduled(cfg.interval) in fx;
      }
      if v.Continue? {
        assert fx != [] && x.probe == Some(RUp) && x.persistOk ==> Scheduled(cfg.interval) in fx;
        assert x.probe == Some(RDown) ==> Scheduled(cfg.interval) in fx || Scheduled(cfg.RetryInterval()) in fx;
      }
    }
  }

  /** The component is recalculated exactly after checks that are not suppressed and do not fail: every
      Down result, and Up and error results whose row is stored. */
  lemma RecalculatedIff(cfg: Settings, st: State, x: Check)
    ensures Recalculated in Step(cfg, st, x).effects <==>
      && Runs(st, x) && HandleFlapping(cfg, Touched(st.row, x.probe.value, x.now), x.probe.value, x).Continue?
      && (x.probe == Some(RDown) || x.persistOk)
  {}

  // ---------- What a check stores and calls ----------

  /** The check gets past flap detection. */
  predicate LetOn(cfg: Settings, st: State, x: Check) {
    Runs(st, x) && HandleFlapping(cfg, Touched(st.row, x.probe.value, x.now), x.probe.value, x).Continue?
  }

  /** A result that is let through and stored is the new status, and outside Flapping no episode is left
      running by it. */
  lemma ResultIsStored(cfg: Settings, st: State, x: Check)
    requires LetOn(cfg, st, x) && x.persistOk
    ensures
      var row := Step(cfg, st, x).state.row;
      && row.status == (match x.probe.value case RUp => Up case RDown => Down case RError => Error)
      && (st.row.status == Flapping && x.probe != Some(RError) ==> row.flapStartedAt == None)
      && (st.row.status != Flapping ==> row.flapStartedAt == st.row.flapStartedAt)
  {}

  /** The time of the last transition moves exactly when a stored result differs from the status found. */
  lemma TransitionStamp(cfg: Settings, st: State, x: Check)
    ensures
      var out := Step(cfg, st, x);
      var stored :=
        && Runs(st, x) && x.persistOk
        && !(Detects(cfg) && x.probe != Some(RError) && x.transitions.None?);
      var same := stored && match x.probe.value
        case RUp => st.row.status == Up
        case RDown => st.row.status == Down
        case RError => st.row.status == Error;
      out.state.row.lastTransition == if stored && !same then Some(x.now) else st.row.lastTransition
  {}

  /** Which services a check calls: the resolve exactly for an Up result let through from Down, whether or
      not the row can be stored afterwards; the reminder exactly together with the attempt to create. */
  lemma CallsIff(cfg: Settings, st: State, x: Check)
    ensures
      var fx := Step(cfg, st, x).effects;
      && (ResolveCalled in fx <==> LetOn(cfg, st, x) && x.probe == Some(RUp) && st.row.status == Down)
      && (ReminderChecked in fx <==> CreateCalled in fx)
  {}

  /** A check that does not run, or cannot count its transitions, changes nothing and calls nobody. */
  lemma NothingHappens(cfg: Settings, st: State, x: Check)
    requires
      || !st.present || !x.loadOk || !st.active || x.probe.None? || x.maintenance
      || (Detects(cfg) && x.probe != Some(RError) && x.transitions.None?)
    ensures Step(cfg, st, x) == Outcome(st, [])
  {}

  /** Exactly which checks send the notice that a resource has settled: up and down results that find it
      Flapping and count too few transitions, whether or not the row can be stored. */
  lemma StableNoticeIff(cfg: Settings, st: State, x: Check)
    ensures StableNotice in Step(cfg, st, x).effects <==>
      && Runs(st, x) && (x.probe == Some(RUp) || x.probe == Some(RDown)) && st.row.status == Flapping
      && (Detects(cfg) ==> x.transitions.Some?)
      && (if Detects(cfg) then x.transitions.value else 0) < OwnOr(cfg.flapThreshold, cfg.globalThreshold)
  {}
}
