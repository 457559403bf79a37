/** Runs whose number of recent transitions is the one the repository counts
    (`CountTransitionsInWindow` in internal/repository/store/monitoring_activity_repository_sqlc.go), and
    what flap suppression does to them. */
module FlapRuns {
  import opened Wrappers
  import opened Incidents
  import opened CheckStep
  import opened Lifecycle

  // ---------- Counting transitions ----------

  datatype Activity = Activity(at: int, success: bool)

  /** The activity a check logs before it looks at the flapping state: also during maintenance, and with
      success only for Up. */
  function ActivityOf(st: State, op: Op): seq<Activity> {
    if op.Checked? && st.present && op.x.loadOk && st.active && op.x.probe.Some?
    then [Activity(op.x.now, op.x.probe.value.RUp?)]
    else []
  }

  function Activities(cfg: Settings, ops: seq<Op>): seq<Activity> {
    if ops == [] then []
    else
      var before := ops[..|ops| - 1];
      Activities(cfg, before) + ActivityOf(After(cfg, before), ops[|ops| - 1])
  }

  /** The query: the successes logged since a moment, in order. */
  function Since(log: seq<Activity>, start: int): seq<bool> {
    if log == [] then []
    else
      var n := |log| - 1;
      Since(log[..n], start) + (if log[n].at >= start then [log[n].success] else [])
  }

  /** How often neighbours differ. */
  function Changes(s: seq<bool>): nat {
    if |s| < 2 then 0
    else Changes(s[..|s| - 1]) + (if s[|s| - 1] != s[|s| - 2] then 1 else 0)
  }

  method CountTransitionsInWindow(log: seq<Activity>, windowStart: int) returns (transitions: nat)
    ensures transitions == Changes(Since(log, windowStart))
    ensures transitions == 0 <==> !(LoggedSince(log, windowStart, true) && LoggedSince(log, windowStart, false))
  {
    var successes := Since(log, windowStart);
    transitions := 0;
    var i := 1;
    while i < |successes|
      invariant 1 <= i && (i <= |successes| || successes == [])
      invariant transitions == if successes == [] then 0 else Changes(successes[..i])
    {
      assert successes[..i + 1][..i] == successes[..i];
      if successes[i] != successes[i - 1] {
        transitions := transitions + 1;
      }
      i := i + 1;
    }
    assert successes != [] ==> successes[..i] == successes;
    ZeroCountIff(log, windowStart);
  }

  /** Some activity since the moment has this outcome. */
  ghost predicate LoggedSince(log: seq<Activity>, start: int, success: bool) {
    exists i :: 0 <= i < |log| && log[i].at >= start && log[i].success == success
  }

  lemma {:induction false} SinceMembers(log: seq<Activity>, start: int, success: bool)
    ensures success in Since(log, start) <==> LoggedSince(log, start, success)
  {
    if log == [] {
    } else {
      var n := |log| - 1;
      SinceMembers(log[..n], start, success);
      if LoggedSince(log[..n], start, success) {
        var i :| 0 <= i < n && log[..n][i].at >= start && log[..n][i].success == success;
        assert log[i] == log[..n][i];
      }
      if LoggedSince(log, start, success) && !(log[n].at >= start && log[n].success == success) {
        var i :| 0 <= i < |log| && log[i].at >= start && log[i].success == success;
        assert log[..n][i] == log[i];
      }
    }
  }

  lemma {:induction false} NoChangesIff(s: seq<bool>)
    ensures Changes(s) == 0 <==> !(true in s && false in s)
  {
    if |s| < 2 {
    } else {
      var n := |s| - 1;
      NoChangesIff(s[..n]);
      assert s[n - 1] in s[..n];
      assert forall b :: b in s <==> b in s[..n] || b == s[n];
    }
  }

  /** There is no transition exactly when the window does not hold both outcomes. */
  lemma ZeroCountIff(log: seq<Activity>, start: int)
    ensures Changes(Since(log, start)) == 0 <==> !(LoggedSince(log, start, true) && LoggedSince(log, start, false))
  {
    NoChangesIff(Since(log, start));
    SinceMembers(log, start, true);
    SinceMembers(log, start, false);
  }

  function Count(cfg: Settings, log: seq<Activity>, now: int): nat {
    Changes(Since(log, now - cfg.Window()))
  }

  /** A run in chronological order in which every activity is stored and every check that gets that far
      reads the number of transitions in the window ending with it. */
  ghost predicate Counted(cfg: Settings, ops: seq<Op>) {
    Chronological(ops) && forall i :: 0 <= i < |ops| ==> CountedAt(cfg, ops, i)
  }

  ghost predicate Chronological(ops: seq<Op>) {
    forall i, j :: 0 <= i < j < |ops| && ops[i].Checked? && ops[j].Checked? ==> ops[i].x.now <= ops[j].x.now
  }

  ghost predicate CountedAt(cfg: Settings, ops: seq<Op>, i: nat)
    requires i < |ops|
  {
    ops[i].Checked? && Runs(At(cfg, ops, i), ops[i].x) ==>
      ops[i].x.transitions == Some(Count(cfg, Activities(cfg, ops[..i + 1]), ops[i].x.now))
  }

  lemma FewTransitionsLetThrough(cfg: Settings, st: State, x: Check)
    requires Runs(st, x) && x.probe == Some(RDown) && x.persistOk && x.transitions == Some(0) && cfg.Threshold() >= 1
    ensures MarkOf(cfg, st, Checked(x)) == [Mark(true, false, st.row.status == Flapping)]
    ensures st.row.status == Flapping ==> CreateCalled in Step(cfg, st, x).effects
  {}

  /** The failing check is not suppressed, and ends Flapping with an attempt. */
  ghost predicate LetThrough(cfg: Settings, st: State, x: Check) {
    && MarkOf(cfg, st, Checked(x)) == [Mark(true, false, st.row.status == Flapping)]
    && (st.row.status == Flapping ==> CreateCalled in Step(cfg, st, x).effects)
  }

  lemma OutageStep(cfg: Settings, st: State, x: Check, log: seq<Activity>)
    requires Runs(st, x) && x.probe == Some(RDown) && x.persistOk && cfg.Threshold() >= 1
    requires x.transitions == Some(Count(cfg, log, x.now)) && !LoggedSince(log, x.now - cfg.Window(), true)
    ensures LetThrough(cfg, st, x)
  {
    assert x.transitions == Some(0) by {
      ZeroCountIff(log, x.now - cfg.Window());
    }
    FewTransitionsLetThrough(cfg, st, x);
  }

  /** A lasting outage is never suppressed: when no check since the start of the window succeeded, a
      failing check is let through, and if the resource was Flapping it attempts an incident at once. */
  lemma OutageIsLetThrough(cfg: Settings, ops: seq<Op>, i: nat)
    requires Counted(cfg, ops) && cfg.Threshold() >= 1 && i < |ops| && ops[i].Checked?
    requires Runs(At(cfg, ops, i), ops[i].x) && ops[i].x.probe == Some(RDown) && ops[i].x.persistOk
    requires !LoggedSince(Activities(cfg, ops[..i + 1]), ops[i].x.now - cfg.Window(), true)
    ensures LetThrough(cfg, At(cfg, ops, i), ops[i].x)
  {
    assert CountedAt(cfg, ops, i);
    OutageStep(cfg, At(cfg, ops, i), ops[i].x, Activities(cfg, ops[..i + 1]));
  }

  // ---------- Runs from samples ----------

  /** A check at a time with a result, everything else working. */
  datatype Sample = Sample(at: int, r: Result)

  function LogOf(rs: seq<Sample>): seq<Activity> {
    seq(|rs|, i requires 0 <= i < |rs| => Activity(rs[i].at, rs[i].r.RUp?))
  }

  function CheckOf(cfg: Settings, rs: seq<Sample>, i: nat): Check
    requires i < |rs|
  {
    Probe(rs[i].at, rs[i].r, true).(transitions := Some(Count(cfg, LogOf(rs[..i + 1]), rs[i].at)))
  }

  function RunOf(cfg: Settings, rs: seq<Sample>): seq<Op> {
    seq(|rs|, i requires 0 <= i < |rs| => Checked(CheckOf(cfg, rs, i)))
  }

  lemma RunPrefix(cfg: Settings, rs: seq<Sample>, i: nat)
    requires i <= |rs|
    ensures RunOf(cfg, rs)[..i] == RunOf(cfg, rs[..i]) && LogOf(rs)[..i] == LogOf(rs[..i])
  {
    forall k | 0 <= k < i
      ensures CheckOf(cfg, rs[..i], k) == CheckOf(cfg, rs, k)
    {
      assert rs[..i][..k + 1] == rs[..k + 1];
    }
  }

  predicate Alive(st: State) {
    st.present && st.active
  }

  lemma StepKeepsAlive(cfg: Settings, st: State, x: Check)
    requires Alive(st)
    ensures Alive(Step(cfg, st, x).state)
  {}

  lemma LogStep(cfg: Settings, ops: seq<Op>, x: Check)
    requires Alive(After(cfg, ops)) && x.loadOk && x.probe.Some?
    ensures Alive(After(cfg, ops + [Checked(x)]))
    ensures Activities(cfg, ops + [Checked(x)]) == Activities(cfg, ops) + [Activity(x.now, x.probe.value.RUp?)]
  {
    assert (ops + [Checked(x)])[..|ops|] == ops;
    StepKeepsAlive(cfg, After(cfg, ops), x);
  }

  lemma RunSnoc(cfg: Settings, rs: seq<Sample>)
    requires rs != []
    ensures
      var n := |rs| - 1;
      && RunOf(cfg, rs) == RunOf(cfg, rs[..n]) + [Checked(CheckOf(cfg, rs, n))]
      && LogOf(rs) == LogOf(rs[..n]) + [Activity(rs[n].at, rs[n].r.RUp?)]
  {
    RunPrefix(cfg, rs, |rs| - 1);
  }

  lemma {:induction false} RunLogs(cfg: Settings, rs: seq<Sample>)
    ensures Alive(After(cfg, RunOf(cfg, rs))) && Activities(cfg, RunOf(cfg, rs)) == LogOf(rs)
  {
    if rs == [] {
    } else {
      var n := |rs| - 1;
      RunLogs(cfg, rs[..n]);
      RunSnoc(cfg, rs);
      LogStep(cfg, RunOf(cfg, rs[..n]), CheckOf(cfg, rs, n));
    }
  }

  ghost predicate Ordered(rs: seq<Sample>) {
    forall i, j :: 0 <= i < j < |rs| ==> rs[i].at <= rs[j].at
  }

  lemma ReadsItsCount(cfg: Settings, rs: seq<Sample>, i: nat)
    requires i < |rs|
    ensures CheckOf(cfg, rs, i).transitions ==
      Some(Count(cfg, Activities(cfg, RunOf(cfg, rs)[..i + 1]), CheckOf(cfg, rs, i).now))
  {
    RunPrefix(cfg, rs, i + 1);
    RunLogs(cfg, rs[..i + 1]);
  }

  lemma CountedBy(cfg: Settings, ops: seq<Op>, i: nat, x: Check)
    requires i < |ops| && ops[i] == Checked(x)
    requires x.transitions == Some(Count(cfg, Activities(cfg, ops[..i + 1]), x.now))
    ensures CountedAt(cfg, ops, i)
  {}

  lemma RunCountedAt(cfg: Settings, rs: seq<Sample>, i: nat)
    requires i < |rs|
    ensures CountedAt(cfg, RunOf(cfg, rs), i)
  {
    ReadsItsCount(cfg, rs, i);
    CountedBy(cfg, RunOf(cfg, rs), i, CheckOf(cfg, rs, i));
  }

  lemma RunCounted(cfg: Settings, rs: seq<Sample>)
    requires Ordered(rs)
    ensures Counted(cfg, RunOf(cfg, rs))
  {
    var ops := RunOf(cfg, rs);
    forall i | 0 <= i < |ops|
      ensures CountedAt(cfg, ops, i)
    {
      RunCountedAt(cfg, rs, i);
    }
    assert Chronological(ops);
  }

  /** The state before check i of such a run, and what the check does to it. */
  lemma RunStep(cfg: Settings, rs: seq<Sample>, i: nat)
    requires i < |rs|
    ensures
      var ops, st, x := RunOf(cfg, rs), At(cfg, RunOf(cfg, rs), i), CheckOf(cfg, rs, i);
      && Runs(st, x)
      && At(cfg, ops, i + 1) == Step(cfg, st, x).state
      && EffectsAt(cfg, ops, i) == Step(cfg, st, x).effects
  {
    RunPrefix(cfg, rs, i);
    RunLogs(cfg, rs[..i]);
    AtStep(cfg, RunOf(cfg, rs), i);
  }

  // ---------- Single steps ----------

  predicate Attempts(out: Outcome) {
    CreateCalled in out.effects
  }

  /** A stored up/down check that reads a given count. */
  predicate Reads(cfg: Settings, st: State, x: Check, n: nat) {
    cfg.Enabled() && Runs(st, x) && !x.probe.value.RError? && x.persistOk && x.transitions == Some(n)
  }

  /** Below the threshold, with failures that come one at a time. */
  lemma EarlyStep(cfg: Settings, st: State, x: Check, n: nat)
    requires Reads(cfg, st, x, n) && n < cfg.Threshold() && cfg.Confirmations() >= 2
    requires st.row.status != Flapping && (x.probe == Some(RDown) ==> st.row.failureCount == 0)
    ensures
      var out, down := Step(cfg, st, x), x.probe == Some(RDown);
      && !Attempts(out) && out.state.row.status != Flapping && out.state.row.failureCount == (if down then 1 else 0)
      && Scheduled(if down then cfg.RetryInterval() else cfg.interval) in out.effects
  {}

  lemma EnterStep(cfg: Settings, st: State, x: Check, n: nat)
    requires Reads(cfg, st, x, n) && n >= cfg.Threshold() && st.row.status != Flapping
    ensures
      var out := Step(cfg, st, x);
      && !Attempts(out) && Scheduled(cfg.interval) in out.effects
      && out.state.row.status == Flapping && out.state.row.flapStartedAt == Some(x.now)
  {}

  lemma StayStep(cfg: Settings, st: State, x: Check, n: nat)
    requires Reads(cfg, st, x, n) && n >= cfg.Threshold() && st.row.status == Flapping && !Overdue(cfg, st, x.now)
    ensures
      var out := Step(cfg, st, x);
      && !Attempts(out) && Scheduled(cfg.interval) in out.effects
      && out.state.row.status == Flapping && out.state.row.flapStartedAt == st.row.flapStartedAt
  {}

  /** The first check past the maximum duration: only a Down result attempts an incident. */
  lemma LeaveStep(cfg: Settings, st: State, x: Check, n: nat)
    requires Reads(cfg, st, x, n) && n >= cfg.Threshold() && cfg.MaxMinutes() > 0
    requires st.row.status == Flapping && Overdue(cfg, st, x.now)
    ensures
      var out := Step(cfg, st, x);
      && (Attempts(out) <==> x.probe == Some(RDown))
      && Scheduled(cfg.interval) in out.effects && out.state.row.status != Flapping
  {}

  lemma NoAttemptNoIncident(cfg: Settings, st: State, x: Check)
    requires st.incidents == [] && !Attempts(Step(cfg, st, x))
    ensures Step(cfg, st, x).state.incidents == []
  {}

  // ---------- Alternating results ----------

  /** Down, Up, Down, Up and so on. */
  predicate Alternates(rs: seq<Sample>) {
    forall i :: 0 <= i < |rs| ==> rs[i].r == if i % 2 == 0 then RDown else RUp
  }

  predicate GapAt(rs: seq<Sample>, first: nat, lo: int, hi: int, i: nat)
    requires i + 1 < |rs|
  {
    var gap := rs[i + 1].at - rs[i].at;
    0 <= gap <= hi && (i >= first ==> lo <= gap)
  }

  predicate Gaps(rs: seq<Sample>, first: nat, lo: int, hi: int) {
    forall i :: 0 <= i < |rs| - 1 ==> GapAt(rs, first, lo, hi, i)
  }

  /** Alternating results, often enough for every window to hold as many transitions as the threshold.
      From then on gaps lie between lo and hi, so that the q-th check after any other, and no earlier
      one, comes at least the maximum flap duration later. */
  ghost predicate Paced(cfg: Settings, rs: seq<Sample>, lo: int, hi: int, q: nat) {
    && cfg.Enabled() && cfg.Threshold() >= 1 && cfg.MaxMinutes() > 0
    && Alternates(rs) && Gaps(rs, cfg.Threshold(), lo, hi)
    && cfg.Threshold() * hi <= cfg.Window()
    && q >= 1 && 1 <= lo <= hi && (q - 1) * hi < 60 * cfg.MaxMinutes() <= q * lo
  }

  lemma {:induction false} GapSum(rs: seq<Sample>, first: nat, lo: int, hi: int, i: nat, j: nat)
    requires Gaps(rs, first, lo, hi) && i <= j < |rs|
    ensures 0 <= rs[j].at - rs[i].at <= (j - i) * hi
    ensures i >= first ==> (j - i) * lo <= rs[j].at - rs[i].at
    decreases j
  {
    if j == i {
    } else {
      GapSum(rs, first, lo, hi, i, j - 1);
      assert GapAt(rs, first, lo, hi, j - 1);
      assert (j - i) * hi == (j - 1 - i) * hi + hi && (j - i) * lo == (j - 1 - i) * lo + lo;
    }
  }

  lemma GapsOrder(rs: seq<Sample>, first: nat, lo: int, hi: int)
    requires Gaps(rs, first, lo, hi)
    ensures Ordered(rs)
  {
    forall i, j | 0 <= i < j < |rs|
      ensures rs[i].at <= rs[j].at
    {
      GapSum(rs, first, lo, hi, i, j);
    }
  }

  lemma MulMono(a: int, b: int, c: int)
    requires a <= b && c >= 0
    ensures a * c <= b * c
  {}

  /** When the episode that began with check e is past the maximum duration. */
  lemma OverdueIff(cfg: Settings, rs: seq<Sample>, lo: int, hi: int, q: nat, e: nat, i: nat)
    requires Paced(cfg, rs, lo, hi, q) && cfg.Threshold() <= e <= i < |rs|
    ensures rs[i].at - rs[e].at >= 60 * cfg.MaxMinutes() <==> i - e >= q
  {
    GapSum(rs, cfg.Threshold(), lo, hi, e, i);
    if i - e >= q {
      MulMono(q, i - e, lo);
    } else {
      MulMono(i - e, q - 1, hi);
    }
  }

  lemma {:induction false} ChangesBound(s: seq<bool>)
    ensures Changes(s) <= if s == [] then 0 else |s| - 1
  {
    if |s| < 2 {
    } else {
      ChangesBound(s[..|s| - 1]);
    }
  }

  lemma {:induction false} SinceBound(log: seq<Activity>, start: int)
    ensures |Since(log, start)| <= |log|
  {
    if log == [] {
    } else {
      SinceBound(log[..|log| - 1], start);
    }
  }

  /** Alternating activities of which the last m + 1 are in the window have at least m transitions. */
  lemma {:induction false} RecentChanges(log: seq<Activity>, start: int, m: nat)
    requires m < |log| && forall k :: |log| - m - 1 <= k < |log| ==> log[k].at >= start
    requires forall k :: 0 <= k < |log| ==> log[k].success == (k % 2 == 1)
    ensures
      var s := Since(log, start);
      s != [] && s[|s| - 1] == log[|log| - 1].success && Changes(s) >= m
  {
    var n := |log| - 1;
    var init := Since(log[..n], start);
    assert Since(log, start) == init + [log[n].success];
    if m == 0 {
    } else {
      RecentChanges(log[..n], start, m - 1);
      assert (init + [log[n].success])[..|init|] == init;
    }
  }

  /** The count of check i reaches the threshold exactly from check number `Threshold()` on. */
  lemma AlternatingCount(cfg: Settings, rs: seq<Sample>, lo: int, hi: int, q: nat, i: nat)
    requires Paced(cfg, rs, lo, hi, q) && i < |rs|
    ensures Count(cfg, LogOf(rs[..i + 1]), rs[i].at) >= cfg.Threshold() <==> i >= cfg.Threshold()
  {
    var log, start, t := LogOf(rs[..i + 1]), rs[i].at - cfg.Window(), cfg.Threshold();
    var s := Since(log, start);
    if i < t {
      SinceBound(log, start);
      ChangesBound(s);
    } else {
      forall k | |log| - t - 1 <= k < |log|
        ensures log[k].at >= start
      {
        GapSum(rs, t, lo, hi, k, i);
        MulMono(i - k, t, hi);
      }
      RecentChanges(log, start, t);
    }
  }

  /** Everything about check i of an alternating run that the single steps need. */
  lemma AlternatingStep(cfg: Settings, rs: seq<Sample>, lo: int, hi: int, q: nat, i: nat) returns (n: nat)
    requires Paced(cfg, rs, lo, hi, q) && i < |rs|
    ensures
      var ops, st, x := RunOf(cfg, rs), At(cfg, RunOf(cfg, rs), i), CheckOf(cfg, rs, i);
      && Reads(cfg, st, x, n) && (n >= cfg.Threshold() <==> i >= cfg.Threshold())
      && x.now == rs[i].at && x.probe == Some(if i % 2 == 0 then RDown else RUp)
      && At(cfg, ops, i + 1) == Step(cfg, st, x).state && EffectsAt(cfg, ops, i) == Step(cfg, st, x).effects
  {
    n := Count(cfg, LogOf(rs[..i + 1]), rs[i].at);
    RunStep(cfg, rs, i);
    AlternatingCount(cfg, rs, lo, hi, q, i);
  }

  predicate AttemptAt(cfg: Settings, ops: seq<Op>, i: nat)
    requires i < |ops|
  {
    CreateCalled in EffectsAt(cfg, ops, i)
  }

  /** When the handler asks for the check after check i. */
  function NextGap(cfg: Settings, i: nat): int {
    if i < cfg.Threshold() && i % 2 == 0 then cfg.RetryInterval() else cfg.interval
  }

  predicate ScheduledAt(cfg: Settings, ops: seq<Op>, i: nat)
    requires i < |ops|
  {
    Scheduled(NextGap(cfg, i)) in EffectsAt(cfg, ops, i)
  }

  // ---------- Alternation as a small machine ----------

  /** All that matters of an alternating run: the check its current episode started with, if any. */
  datatype View = Calm | Episode(e: nat)

  /** With threshold t and episodes of q checks. */
  function ViewStep(t: nat, q: nat, v: View, i: nat): View {
    if i < t then Calm
    else match v
    case Calm => Episode(i)
    case Episode(e) => if i < e + q then v else Calm
  }

  function ViewAt(t: nat, q: nat, i: nat): View {
    if i == 0 then Calm else ViewStep(t, q, ViewAt(t, q, i - 1), i - 1)
  }

  /** Check i, Down when even, ends an episode. */
  predicate ViewAttempts(t: nat, q: nat, v: View, i: nat) {
    i >= t && v.Episode? && i >= v.e + q && i % 2 == 0
  }

  ghost predicate Matches(cfg: Settings, rs: seq<Sample>, st: State, v: View, i: nat) {
    && (st.row.status == Flapping <==> v.Episode?)
    && (v.Episode? ==> cfg.Threshold() <= v.e < i && v.e < |rs| && st.row.flapStartedAt == Some(rs[v.e].at))
    && (i <= cfg.Threshold() ==> v.Calm? && st.row.failureCount == i % 2)
  }

  lemma MatchStep(cfg: Settings, rs: seq<Sample>, q: nat, st: State, x: Check, n: nat, v: View, i: nat)
    requires Reads(cfg, st, x, n) && cfg.Threshold() >= 1 && cfg.MaxMinutes() > 0 && cfg.Confirmations() >= 2
    requires i < |rs| && Matches(cfg, rs, st, v, i) && (n >= cfg.Threshold() <==> i >= cfg.Threshold())
    requires x.now == rs[i].at && x.probe == Some(if i % 2 == 0 then RDown else RUp)
    requires v.Episode? ==> (rs[i].at - rs[v.e].at >= 60 * cfg.MaxMinutes() <==> i >= v.e + q)
    ensures
      var out, t := Step(cfg, st, x), cfg.Threshold();
      && Matches(cfg, rs, out.state, ViewStep(t, q, v, i), i + 1)
      && (Attempts(out) <==> ViewAttempts(t, q, v, i)) && Scheduled(NextGap(cfg, i)) in out.effects
  {
    if i < cfg.Threshold() {
      EarlyStep(cfg, st, x, n);
    } else if v.Calm? {
      EnterStep(cfg, st, x, n);
    } else if i < v.e + q {
      StayStep(cfg, st, x, n);
    } else {
      LeaveStep(cfg, st, x, n);
    }
  }

  ghost predicate MatchesAt(cfg: Settings, rs: seq<Sample>, q: nat, i: nat)
    requires cfg.Threshold() >= 0 && i <= |rs|
  {
    Matches(cfg, rs, At(cfg, RunOf(cfg, rs), i), ViewAt(cfg.Threshold(), q, i), i)
  }

  lemma MatchesAtStart(cfg: Settings, rs: seq<Sample>, q: nat)
    requires cfg.Threshold() >= 0
    ensures MatchesAt(cfg, rs, q, 0)
  {}

  lemma MatchAt(cfg: Settings, rs: seq<Sample>, lo: int, hi: int, q: nat, i: nat, j: nat)
    requires Paced(cfg, rs, lo, hi, q) && cfg.Confirmations() >= 2 && i < |rs| && MatchesAt(cfg, rs, q, i) && j == i + 1
    ensures MatchesAt(cfg, rs, q, j)
    ensures AttemptAt(cfg, RunOf(cfg, rs), i) <==> ViewAttempts(cfg.Threshold(), q, ViewAt(cfg.Threshold(), q, i), i)
    ensures ScheduledAt(cfg, RunOf(cfg, rs), i)
  {
    var n := AlternatingStep(cfg, rs, lo, hi, q, i);
    var v := ViewAt(cfg.Threshold(), q, i);
    if v.Episode? {
      OverdueIff(cfg, rs, lo, hi, q, v.e, i);
    }
    MatchStep(cfg, rs, q, At(cfg, RunOf(cfg, rs), i), CheckOf(cfg, rs, i), n, v, i);
  }

  lemma {:induction false} RunMatches(cfg: Settings, rs: seq<Sample>, lo: int, hi: int, q: nat, i: nat)
    requires Paced(cfg, rs, lo, hi, q) && cfg.Confirmations() >= 2 && i <= |rs|
    ensures MatchesAt(cfg, rs, q, i)
  {
    if i == 0 {
      MatchesAtStart(cfg, rs, q);
    } else {
      RunMatches(cfg, rs, lo, hi, q, i - 1);
      MatchAt(cfg, rs, lo, hi, q, i - 1, i);
    }
  }

  lemma AttemptIff(cfg: Settings, rs: seq<Sample>, lo: int, hi: int, q: nat, i: nat)
    requires Paced(cfg, rs, lo, hi, q) && cfg.Confirmations() >= 2 && i < |rs|
    ensures AttemptAt(cfg, RunOf(cfg, rs), i) <==> ViewAttempts(cfg.Threshold(), q, ViewAt(cfg.Threshold(), q, i), i)
    ensures ScheduledAt(cfg, RunOf(cfg, rs), i)
  {
    RunMatches(cfg, rs, lo, hi, q, i);
    MatchAt(cfg, rs, lo, hi, q, i, i + 1);
  }

  /** With t even and q odd episodes start at even checks and end at odd ones. */
  lemma {:induction false} EvenStarts(t: nat, q: nat, i: nat)
    requires t % 2 == 0 && q % 2 == 1
    ensures
      var v := ViewAt(t, q, i);
      && (v.Episode? ==> v.e % 2 == 0 && v.e < i <= v.e + q)
      && (v.Calm? && i >= t ==> i % 2 == 0)
  {
    if i == 0 {
    } else {
      EvenStarts(t, q, i - 1);
    }
  }

  lemma NeverViewed(t: nat, q: nat, i: nat)
    requires t % 2 == 0 && q % 2 == 1
    ensures !ViewAttempts(t, q, ViewAt(t, q, i), i)
  {
    EvenStarts(t, q, i);
  }

  lemma {:induction false} EpisodeLasts(t: nat, q: nat, e: nat, j: nat)
    requires t <= e < j <= e + q && ViewAt(t, q, e) == Calm
    ensures ViewAt(t, q, j) == Episode(e)
    decreases j
  {
    if j == e + 1 {
    } else {
      EpisodeLasts(t, q, e, j - 1);
    }
  }

  lemma {:induction false} CalmUntil(t: nat, q: nat, i: nat)
    requires i <= t
    ensures ViewAt(t, q, i) == Calm
  {
    if i == 0 {
    } else {
      CalmUntil(t, q, i - 1);
    }
  }

  /** Otherwise the first or the second episode ends with an attempt. */
  lemma SomeEpisodeAttempts(t: nat, q: nat) returns (i: nat)
    requires q >= 1 && (t % 2 == 1 || q % 2 == 0)
    ensures i <= t + 2 * q + 1 && ViewAttempts(t, q, ViewAt(t, q, i), i)
  {
    CalmUntil(t, q, t);
    EpisodeLasts(t, q, t, t + q);
    i := t + q;
    if i % 2 == 1 {
      assert ViewAt(t, q, t + q + 1) == Calm;
      EpisodeLasts(t, q, t + q + 1, t + q + 1 + q);
      i := t + q + 1 + q;
    }
  }

  // ---------- Alternation, exactly ----------

  /** No incident as long as there is no attempt. */
  lemma {:induction false} NoAttemptsNoIncidents(cfg: Settings, rs: seq<Sample>, i: nat)
    requires i <= |rs| && forall k :: 0 <= k < i ==> !AttemptAt(cfg, RunOf(cfg, rs), k)
    ensures At(cfg, RunOf(cfg, rs), i).incidents == []
  {
    if i == 0 {
    } else {
      NoAttemptsNoIncidents(cfg, rs, i - 1);
      RunStep(cfg, rs, i - 1);
      assert !AttemptAt(cfg, RunOf(cfg, rs), i - 1);
      NoAttemptNoIncident(cfg, At(cfg, RunOf(cfg, rs), i - 1), CheckOf(cfg, rs, i - 1));
    }
  }

  ghost predicate QuietAt(cfg: Settings, ops: seq<Op>, i: nat)
    requires i < |ops|
  {
    !AttemptAt(cfg, ops, i) && ScheduledAt(cfg, ops, i)
  }

  lemma QuietCheck(cfg: Settings, rs: seq<Sample>, lo: int, hi: int, q: nat, i: nat)
    requires Paced(cfg, rs, lo, hi, q) && cfg.Confirmations() >= 2 && cfg.Threshold() % 2 == 0 && q % 2 == 1
    requires i < |rs|
    ensures QuietAt(cfg, RunOf(cfg, rs), i)
  {
    AttemptIff(cfg, rs, lo, hi, q, i);
    NeverViewed(cfg.Threshold(), q, i);
  }

  lemma QuietRun(cfg: Settings, rs: seq<Sample>, lo: int, hi: int, q: nat)
    requires Paced(cfg, rs, lo, hi, q) && cfg.Confirmations() >= 2 && cfg.Threshold() % 2 == 0 && q % 2 == 1
    ensures forall i :: 0 <= i < |rs| ==> QuietAt(cfg, RunOf(cfg, rs), i)
  {
    forall i | 0 <= i < |rs|
      ensures QuietAt(cfg, RunOf(cfg, rs), i)
    {
      QuietCheck(cfg, rs, lo, hi, q, i);
    }
  }

  lemma FirstFailureAttempts(cfg: Settings, st: State, x: Check, n: nat)
    requires Reads(cfg, st, x, n) && n < cfg.Threshold() && cfg.Confirmations() == 1
    requires st.row.status != Flapping && st.row.failureCount == 0 && x.probe == Some(RDown)
    ensures Attempts(Step(cfg, st, x))
  {}

  lemma AlternationAttempts(cfg: Settings, rs: seq<Sample>, lo: int, hi: int, q: nat) returns (i: nat)
    requires Paced(cfg, rs, lo, hi, q) && cfg.Threshold() + 2 * q + 1 < |rs|
    requires cfg.Confirmations() == 1 || cfg.Threshold() % 2 == 1 || q % 2 == 0
    ensures i < |rs| && AttemptAt(cfg, RunOf(cfg, rs), i)
  {
    if cfg.Confirmations() == 1 {
      i := 0;
      var n := AlternatingStep(cfg, rs, lo, hi, q, 0);
      FirstFailureAttempts(cfg, At(cfg, RunOf(cfg, rs), 0), CheckOf(cfg, rs, 0), n);
    } else {
      i := SomeEpisodeAttempts(cfg.Threshold(), q);
      AttemptIff(cfg, rs, lo, hi, q, i);
    }
  }

  /** In runs with counted transitions that alternate fast enough to flap, however the gaps vary within
      the bounds, no check ever attempts an incident if and only if a single failure is not confirmed, the
      threshold is even and the number of checks an episode lasts is odd: then every episode starts with a
      Down result and the first overdue check is always Up. Suppression of such a resource has no end,
      although each episode has. */
  lemma AlternationNeverAttemptsIff(cfg: Settings, rs: seq<Sample>, lo: int, hi: int, q: nat)
    requires Paced(cfg, rs, lo, hi, q) && cfg.Threshold() + 2 * q + 1 < |rs|
    ensures Counted(cfg, RunOf(cfg, rs))
    ensures (forall i :: 0 <= i < |RunOf(cfg, rs)| ==> !AttemptAt(cfg, RunOf(cfg, rs), i)) <==>
      cfg.Confirmations() >= 2 && cfg.Threshold() % 2 == 0 && q % 2 == 1
  {
    GapsOrder(rs, cfg.Threshold(), lo, hi);
    RunCounted(cfg, rs);
    if cfg.Confirmations() >= 2 && cfg.Threshold() % 2 == 0 && q % 2 == 1 {
      QuietRun(cfg, rs, lo, hi, q);
      assert forall i :: 0 <= i < |rs| && QuietAt(cfg, RunOf(cfg, rs), i) ==> !AttemptAt(cfg, RunOf(cfg, rs), i);
    } else {
      var i := AlternationAttempts(cfg, rs, lo, hi, q);
    }
  }

  // ---------- At the default settings ----------

  /** The default flap settings and confirmation count for a resource checked every two minutes. */
  function TwoMinuteMonitor(): Settings {
    Defaults(2).(interval := 120)
  }

  predicate FollowsAt(cfg: Settings, rs: seq<Sample>, late: nat, i: nat)
    requires i + 1 < |rs|
  {
    NextGap(cfg, i) <= rs[i + 1].at - rs[i].at <= NextGap(cfg, i) + late
  }

  /** Each check comes when the handler asked for it, or at most `late` seconds later. */
  predicate Follows(cfg: Settings, rs: seq<Sample>, late: nat) {
    forall i :: 0 <= i < |rs| - 1 ==> FollowsAt(cfg, rs, late, i)
  }

  lemma DefaultsPaced(rs: seq<Sample>)
    requires Alternates(rs) && Follows(TwoMinuteMonitor(), rs, 8)
    ensures Paced(TwoMinuteMonitor(), rs, 120, 128, 15)
    ensures TwoMinuteMonitor().Confirmations() == 2 && TwoMinuteMonitor().Threshold() == 4
  {
    forall i | 0 <= i < |rs| - 1
      ensures GapAt(rs, 4, 120, 128, i)
    {
      assert FollowsAt(TwoMinuteMonitor(), rs, 8, i);
    }
  }

  /** The failing runs are real: with default settings and counted transitions, a monitor that alternates
      between Down and Up never attempts an incident, for every number of checks, even if each comes up
      to eight seconds later than the handler asked for. */
  lemma DefaultsNeverAttempt(rs: seq<Sample>)
    requires Alternates(rs) && Follows(TwoMinuteMonitor(), rs, 8)
    ensures
      var cfg := TwoMinuteMonitor();
      var ops := RunOf(cfg, rs);
      && Counted(cfg, ops) && After(cfg, ops).incidents == []
      && (forall i :: 0 <= i < |rs| ==> QuietAt(cfg, ops, i))
  {
    var cfg := TwoMinuteMonitor();
    DefaultsPaced(rs);
    GapsOrder(rs, 4, 120, 128);
    RunCounted(cfg, rs);
    QuietRun(cfg, rs, 120, 128, 15);
    assert forall i :: 0 <= i < |rs| && QuietAt(cfg, RunOf(cfg, rs), i) ==> !AttemptAt(cfg, RunOf(cfg, rs), i);
    NoAttemptsNoIncidents(cfg, rs, |rs|);
    assert RunOf(cfg, rs)[..|rs|] == RunOf(cfg, rs);
  }

  /** Such runs exist at every length. */
  lemma {:induction false} DefaultRunsExist(n: nat) returns (rs: seq<Sample>)
    ensures |rs| == n && Alternates(rs) && Follows(TwoMinuteMonitor(), rs, 0)
  {
    if n == 0 {
      rs := [];
    } else {
      var before := DefaultRunsExist(n - 1);
      var r := if (n - 1) % 2 == 0 then RDown else RUp;
      var at := if n == 1 then 0 else before[n - 2].at + NextGap(TwoMinuteMonitor(), n - 2);
      rs := before + [Sample(at, r)];
      forall i | 0 <= i < n - 1
        ensures FollowsAt(TwoMinuteMonitor(), rs, 0, i)
      {
        if i < n - 2 {
          assert FollowsAt(TwoMinuteMonitor(), before, 0, i);
        }
      }
    }
  }

  // ---------- Up after Flapping ----------

  lemma SuppressStep(cfg: Settings, st: State, x: Check, n: nat)
    requires Reads(cfg, st, x, n) && n >= cfg.Threshold() && st.row.status == Down
    ensures Step(cfg, st, x).state.row.status == Flapping && Step(cfg, st, x).state.incidents == st.incidents
  {}

  /** With fewer transitions an Up result ends Flapping; having found Flapping and not Down, it resolves
      nothing. */
  lemma SettleStep(cfg: Settings, st: State, x: Check, n: nat)
    requires Reads(cfg, st, x, n) && n < cfg.Threshold() && st.row.status == Flapping && x.probe == Some(RUp)
    ensures Step(cfg, st, x).state.row.status == Up && Step(cfg, st, x).state.incidents == st.incidents
  {}

  lemma OpeningStep(cfg: Settings, st: State, x: Check, n: nat)
    requires Reads(cfg, st, x, n) && n < cfg.Threshold() && cfg.Confirmations() == 1 && cfg.reminderMinutes <= 0
    requires st.row.status == Up && st.row.failureCount == 0 && st.incidents == []
    requires x.probe == Some(RDown) && x.create == GOOD_CREATE
    ensures
      var out := Step(cfg, st, x).state;
      out.row.status == Down && |out.incidents| == 1 && Open(out.incidents[0])
  {}

  lemma FirstUpStep(cfg: Settings, x: Check, n: nat)
    requires Reads(cfg, Initial(), x, n) && n < cfg.Threshold() && x.probe == Some(RUp)
    ensures
      var out := Step(cfg, Initial(), x).state;
      out.row.status == Up && out.row.failureCount == 0 && out.incidents == []
  {}

  /** What the query returns when everything is in the window, */
  lemma {:induction false} SinceAll(log: seq<Activity>, start: int, s: seq<bool>)
    requires |s| == |log| && forall k :: 0 <= k < |log| ==> log[k].at >= start && s[k] == log[k].success
    ensures Since(log, start) == s
  {
    if log == [] {
    } else {
      SinceAll(log[..|log| - 1], start, s[..|s| - 1]);
    }
  }

  /** and when the first activity is too old. */
  lemma {:induction false} SkipsOld(a: Activity, log: seq<Activity>, start: int)
    requires a.at < start
    ensures Since([a] + log, start) == Since(log, start)
  {
    if log == [] {
      assert [a] + log == [a] && [a][..0] == [];
    } else {
      SkipsOld(a, log[..|log| - 1], start);
      assert ([a] + log)[..|log|] == [a] + log[..|log| - 1];
    }
  }

  function Differ(a: bool, b: bool): nat {
    if a != b then 1 else 0
  }

  lemma FewChanges(a: bool, b: bool, c: bool)
    ensures Changes([a]) == 0 && Changes([a, b]) == Differ(a, b) && Changes([a, b, c]) == Differ(a, b) + Differ(b, c)
  {
    assert [a, b][..1] == [a] && [a, b, c][..2] == [a, b];
  }

  /** Up, Down, Up, Up, of which the window holds three. */
  ghost predicate DetourSamples(cfg: Settings, rs: seq<Sample>) {
    && |rs| == 4 && rs[0].r == RUp && rs[1].r == RDown && rs[2].r == RUp && rs[3].r == RUp
    && rs[0].at <= rs[1].at <= rs[2].at <= rs[3].at
    && rs[2].at - cfg.Window() <= rs[0].at < rs[3].at - cfg.Window() <= rs[1].at
  }

  lemma CountOf(cfg: Settings, log: seq<Activity>, now: int, s: seq<bool>)
    requires |s| == |log| && forall k :: 0 <= k < |log| ==> log[k].at >= now - cfg.Window() && s[k] == log[k].success
    ensures Count(cfg, log, now) == Changes(s)
  {
    SinceAll(log, now - cfg.Window(), s);
  }

  lemma DetourEarlyCounts(cfg: Settings, rs: seq<Sample>)
    requires DetourSamples(cfg, rs)
    ensures Count(cfg, LogOf(rs[..1]), rs[0].at) == 0 && Count(cfg, LogOf(rs[..2]), rs[1].at) == 1
  {
    CountOf(cfg, LogOf(rs[..1]), rs[0].at, [true]);
    CountOf(cfg, LogOf(rs[..2]), rs[1].at, [true, false]);
    FewChanges(true, false, true);
  }

  lemma DetourThirdCount(cfg: Settings, rs: seq<Sample>)
    requires DetourSamples(cfg, rs)
    ensures Count(cfg, LogOf(rs[..3]), rs[2].at) == 2
  {
    CountOf(cfg, LogOf(rs[..3]), rs[2].at, [true, false, true]);
    FewChanges(true, false, true);
  }

  lemma DetourLastCount(cfg: Settings, rs: seq<Sample>)
    requires DetourSamples(cfg, rs)
    ensures Count(cfg, LogOf(rs[..4]), rs[3].at) == 1
  {
    var old_, recent := Activity(rs[0].at, true), LogOf(rs[1..4]);
    assert LogOf(rs[..4]) == [old_] + recent;
    SkipsOld(old_, recent, rs[3].at - cfg.Window());
    CountOf(cfg, recent, rs[3].at, [false, true, true]);
    FewChanges(false, true, true);
  }

  lemma DetourLateCounts(cfg: Settings, rs: seq<Sample>)
    requires DetourSamples(cfg, rs)
    ensures Count(cfg, LogOf(rs[..3]), rs[2].at) == 2 && Count(cfg, LogOf(rs[..4]), rs[3].at) == 1
  {
    DetourThirdCount(cfg, rs);
    DetourLastCount(cfg, rs);
  }

  ghost predicate DetourConfig(cfg: Settings) {
    cfg.Enabled() && cfg.Threshold() == 2 && cfg.Confirmations() == 1 && cfg.reminderMinutes <= 0
  }

  lemma DetourOpens(cfg: Settings, rs: seq<Sample>)
    requires DetourConfig(cfg) && DetourSamples(cfg, rs)
    ensures
      var st := At(cfg, RunOf(cfg, rs), 2);
      st.row.status == Down && HasOpen(st.incidents)
  {
    DetourEarlyCounts(cfg, rs);
    RunStep(cfg, rs, 0);
    assert At(cfg, RunOf(cfg, rs), 0) == Initial();
    FirstUpStep(cfg, CheckOf(cfg, rs, 0), 0);
    RunStep(cfg, rs, 1);
    OpeningStep(cfg, At(cfg, RunOf(cfg, rs), 1), CheckOf(cfg, rs, 1), 1);
  }

  lemma DetourFlaps(cfg: Settings, rs: seq<Sample>)
    requires DetourConfig(cfg) && DetourSamples(cfg, rs)
    ensures
      var st := At(cfg, RunOf(cfg, rs), 3);
      st.row.status == Flapping && HasOpen(st.incidents)
  {
    DetourOpens(cfg, rs);
    DetourLateCounts(cfg, rs);
    RunStep(cfg, rs, 2);
    SuppressStep(cfg, At(cfg, RunOf(cfg, rs), 2), CheckOf(cfg, rs, 2), 2);
  }

  lemma DetourEnds(cfg: Settings, rs: seq<Sample>)
    requires DetourConfig(cfg) && DetourSamples(cfg, rs)
    ensures
      var st := At(cfg, RunOf(cfg, rs), 4);
      st.row.status == Up && HasOpen(st.incidents)
  {
    DetourFlaps(cfg, rs);
    DetourLateCounts(cfg, rs);
    RunStep(cfg, rs, 3);
    SettleStep(cfg, At(cfg, RunOf(cfg, rs), 3), CheckOf(cfg, rs, 3), 1);
  }

  /** Detours through Flapping with counted transitions and every call succeeding: in every run of this
      kind the incident is still open after the last Up. */
  lemma FlappingLeavesIncidentOpen(cfg: Settings, rs: seq<Sample>)
    requires DetourConfig(cfg) && DetourSamples(cfg, rs)
    ensures
      var ops := RunOf(cfg, rs);
      Counted(cfg, ops) && After(cfg, ops).row.status == Up && HasOpen(After(cfg, ops).incidents)
  {
    RunCounted(cfg, rs);
    DetourEnds(cfg, rs);
    assert RunOf(cfg, rs)[..4] == RunOf(cfg, rs);
  }

  /** For example with a flap threshold of 2 in four minutes, two minutes apart. */
  lemma DetourExample()
    ensures
      var cfg := Settings(1, 30, 120, 0, true, 2, 240, 30, true, 4, 600, 30);
      DetourConfig(cfg) && DetourSamples(cfg, [Sample(0, RUp), Sample(120, RDown), Sample(240, RUp), Sample(360, RUp)])
  {}
}
