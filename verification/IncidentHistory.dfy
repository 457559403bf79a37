/** What becomes of each incident row: when it starts, when it is resolved and what is sent for it, per
    operation and over whole runs (internal/monitoring/incident_service.go, internal/service). */
module IncidentHistory {
  import opened Wrappers
  import opened Incidents
  import opened CheckStep
  import opened Lifecycle

  // ---------- One operation ----------

  /** Creating, exactly: unless a call fails or the newest row is unresolved, one row is added that
      starts now, is unresolved and has had no reminder. */
  lemma CreateExact(s: seq<Incident>, now: int, f: CreateFaults)
    ensures
      var newestOpen := s != [] && s[|s| - 1].resolvedAt.None?;
      Created(s, now, f) ==
        if f.listOk && f.insertOk && !newestOpen
        then s + [Incident(now, None, if f.lookupOk && f.alerted then Some(now) else None, [])] else s
  {}

  /** What a resolve at `now` does to one row. */
  predicate RowResolved(before: Incident, after: Incident, now: int, ok: bool) {
    && after.startedAt == before.startedAt && after.lastAlert == before.lastAlert && after.reminders == before.reminders
    && after.resolvedAt == if ok && before.resolvedAt.None? then Some(now) else before.resolvedAt
  }

  ghost predicate RowsResolved(s: seq<Incident>, s': seq<Incident>, now: int, ok: bool) {
    |s'| == |s| && forall i :: 0 <= i < |s| ==> RowResolved(s[i], s'[i], now, ok)
  }

  /** Resolving, exactly, for checks, heartbeats and deletion alike: without a failure the unresolved row
      gets the time of the resolve, and nothing else about any row changes. */
  lemma ResolveExact(s: seq<Incident>, now: int, f: ResolveFaults)
    requires SingleOpen(s)
    ensures RowsResolved(s, Resolved(s, now, f), now, f.listOk && f.updateOk)
    ensures RowsResolved(s, Recovered(s, now, f), now, f.listOk && f.updateOk)
    ensures RowsResolved(s, Closed(s, now, f), now, f.listOk && f.updateOk)
  {
    ResolveKeepsSingleOpen(s, now, f);
    OpenIsNewest(s);
  }

  function ClosedRow(i: Incident, now: int): Incident {
    Incident(i.startedAt, Some(now), i.lastAlert, i.reminders)
  }

  /** On any rows at all, one unresolved or many: a recovered heartbeat closes the newest unresolved row if
      it is among the ten newest rows, and a deletion closes it wherever it is. */
  lemma NewestOpenCloses(s: seq<Incident>, now: int, i: nat)
    requires i < |s| && s[i].resolvedAt.None? && forall j :: i < j < |s| ==> s[j].resolvedAt.Some?
    ensures Recovered(s, now, ResolveFaults(true, true)) ==
      if |s| - i <= 10 then s[i := ClosedRow(s[i], now)] else s
    ensures Closed(s, now, ResolveFaults(true, true)) == s[i := ClosedRow(s[i], now)]
  {
    assert Newest(|s|, |s|)[|s| - 1 - i] == i;
    if |s| - i <= 10 {
      assert Newest(|s|, 10)[|s| - 1 - i] == i;
    }
  }

  lemma {:induction false} PickedIsLatest(s: seq<Incident>, ids: seq<nat>, k: nat)
    requires ValidIds(s, ids) && k < |ids| && s[ids[k]].resolvedAt.None?
    requires forall j :: 0 <= j < k && s[ids[j]].resolvedAt.None? ==> s[ids[j]].startedAt < s[ids[k]].startedAt
    requires forall j :: k < j < |ids| && s[ids[j]].resolvedAt.None? ==> s[ids[j]].startedAt <= s[ids[k]].startedAt
    ensures PickActive(s, ids) == Some(ids[k])
  {
    if k < |ids| - 1 {
      PickedIsLatest(s, ids[..|ids| - 1], k);
    }
  }

  /** On any rows: a check that resolves closes, of the unresolved among the ten newest rows, the one that
      started last, the newer row on a tie. */
  lemma LatestStartCloses(s: seq<Incident>, now: int, i: nat)
    requires |s| - 10 <= i < |s| && s[i].resolvedAt.None?
    requires forall j :: i < j < |s| && s[j].resolvedAt.None? ==> s[j].startedAt < s[i].startedAt
    requires forall j :: |s| - 10 <= j < i && 0 <= j && s[j].resolvedAt.None? ==> s[j].startedAt <= s[i].startedAt
    ensures Resolved(s, now, ResolveFaults(true, true)) == s[i := ClosedRow(s[i], now)]
  {
    PickedIsLatest(s, Newest(|s|, 10), |s| - 1 - i);
  }

  /** A reminder of the newest row is due: it is unresolved and its last alert is at least the interval
      old. */
  predicate DueNow(s: seq<Incident>, now: int, minutes: int) {
    && s != [] && s[|s| - 1].resolvedAt.None? && s[|s| - 1].lastAlert.Some?
    && now - s[|s| - 1].lastAlert.value >= 60 * minutes
  }

  /** Reminding, exactly: without a failure a due reminder of the newest row is sent now and, if its
      anchor is stored, counts as the last alert from then on; nothing else changes. */
  lemma RemindExact(s: seq<Incident>, now: int, minutes: int, f: RemindFaults)
    requires SingleOpen(s)
    ensures
      Reminded(s, now, minutes, f) ==
        if minutes > 0 && f.listOk && f.stepReadOk && DueNow(s, now, minutes) then
          var i := s[|s| - 1];
          s[|s| - 1 := Incident(i.startedAt, None, if f.anchored then Some(now) else i.lastAlert, i.reminders + [now])]
        else s
  {
    OpenIsNewest(s);
  }

  // ---------- Runs ----------

  function TimeOf(op: Op): int
    requires !op.SetActive?
  {
    if op.Checked? then op.x.now else op.now
  }

  /** A row that an operation at `t` leaves alone, closes or reminds of. */
  predicate RowStep(before: Incident, after: Incident, t: int) {
    || after == before
    || (before.resolvedAt.None? && after == Incident(before.startedAt, Some(t), before.lastAlert, before.reminders))
    || (before.resolvedAt.None? && after.resolvedAt.None? && after.startedAt == before.startedAt &&
        after.reminders == before.reminders + [t])
  }

  ghost predicate RowsStep(s: seq<Incident>, s': seq<Incident>, t: int) {
    && |s| <= |s'| <= |s| + 1
    && (forall i :: 0 <= i < |s| ==> RowStep(s[i], s'[i], t))
    && (|s'| > |s| ==> s'[|s|].startedAt == t && s'[|s|].resolvedAt.None?)
  }

  lemma CreateRows(s: seq<Incident>, now: int, f: CreateFaults)
    ensures RowsStep(s, Created(s, now, f), now)
  {
    CreateExact(s, now, f);
  }

  lemma ResolveRows(s: seq<Incident>, s': seq<Incident>, now: int, ok: bool)
    requires RowsResolved(s, s', now, ok)
    ensures RowsStep(s, s', now)
  {
    forall i | 0 <= i < |s|
      ensures RowStep(s[i], s'[i], now)
    {
      assert RowResolved(s[i], s'[i], now, ok);
    }
  }

  lemma CreateAndRemindRows(s: seq<Incident>, now: int, f: CreateFaults, minutes: int, m: RemindFaults)
    requires SingleOpen(s)
    ensures RowsStep(s, Reminded(Created(s, now, f), now, minutes, m), now)
  {
    CreateKeepsSingleOpen(s, now, f);
    CreateExact(s, now, f);
    RemindExact(Created(s, now, f), now, minutes, m);
  }

  lemma ApplyRows(cfg: Settings, st: State, op: Op)
    requires SingleOpen(st.incidents) && !op.SetActive?
    ensures RowsStep(st.incidents, Apply(cfg, st, op).incidents, TimeOf(op))
  {
    var s := st.incidents;
    match op {
      case Checked(x) =>
        StepIncidents(cfg, st, x);
        ResolveExact(s, x.now, x.resolve);
        ResolveRows(s, Resolved(s, x.now, x.resolve), x.now, x.resolve.listOk && x.resolve.updateOk);
        CreateAndRemindRows(s, x.now, x.create, cfg.reminderMinutes, x.remind);
      case HeartbeatMissed(now, f) => CreateRows(s, now, f);
      case HeartbeatRecovered(now, _, f) =>
        ResolveExact(s, now, f);
        ResolveRows(s, Recovered(s, now, f), now, f.listOk && f.updateOk);
      case Deleted(now, f, _) =>
        ResolveExact(s, now, f);
        ResolveRows(s, Closed(s, now, f), now, f.listOk && f.updateOk);
    }
  }

  /** Row i began with operation `born`, and if it is resolved, operation `closed` found it unresolved
      and resolved it. */
  ghost predicate Accounted(cfg: Settings, ops: seq<Op>, row: Incident, i: nat, born: nat, closed: nat) {
    && born < |ops| && !ops[born].SetActive? && |At(cfg, ops, born).incidents| == i
    && row.startedAt == TimeOf(ops[born])
    && (row.resolvedAt.Some? ==>
         && born < closed < |ops| && !ops[closed].SetActive? && i < |At(cfg, ops, closed).incidents|
         && At(cfg, ops, closed).incidents[i].resolvedAt.None?
         && row.resolvedAt == Some(TimeOf(ops[closed])))
  }

  lemma AccountedLonger(cfg: Settings, ops: seq<Op>, n: nat, row: Incident, i: nat, born: nat, closed: nat)
    requires n <= |ops| && Accounted(cfg, ops[..n], row, i, born, closed)
    ensures Accounted(cfg, ops, row, i, born, closed)
  {
    assert ops[..n][..born] == ops[..born];
    if row.resolvedAt.Some? {
      assert ops[..n][..closed] == ops[..closed];
    }
  }

  /** Over every run: each incident carries the time of the operation that opened it and, once resolved,
      of the operation that found it unresolved and closed it. */
  lemma {:induction false} RowAccounted(cfg: Settings, ops: seq<Op>, i: nat) returns (born: nat, closed: nat)
    requires i < |After(cfg, ops).incidents|
    ensures Accounted(cfg, ops, After(cfg, ops).incidents[i], i, born, closed)
  {
    var n := |ops| - 1;
    var st, op := After(cfg, ops[..n]), ops[n];
    assert At(cfg, ops, n) == st;
    if op.SetActive? {
      born, closed := RowAccounted(cfg, ops[..n], i);
      AccountedLonger(cfg, ops, n, After(cfg, ops).incidents[i], i, born, closed);
    } else {
      SingleOpenAlways(cfg, ops[..n]);
      ApplyRows(cfg, st, op);
      if i < |st.incidents| {
        born, closed := RowAccounted(cfg, ops[..n], i);
        AccountedLonger(cfg, ops, n, st.incidents[i], i, born, closed);
        if After(cfg, ops).incidents[i].resolvedAt != st.incidents[i].resolvedAt {
          closed := n;
        }
      } else {
        born, closed := n, 0;
      }
    }
  }

  /** A resolved incident never changes again. */
  lemma {:induction false} ClosedForGood(cfg: Settings, ops: seq<Op>, j: nat, i: nat)
    requires j <= |ops| && i < |At(cfg, ops, j).incidents| && At(cfg, ops, j).incidents[i].resolvedAt.Some?
    ensures i < |After(cfg, ops).incidents| && After(cfg, ops).incidents[i] == At(cfg, ops, j).incidents[i]
  {
    if j == |ops| {
      assert ops[..j] == ops;
    } else {
      var n := |ops| - 1;
      assert ops[..n][..j] == ops[..j];
      ClosedForGood(cfg, ops[..n], j, i);
      if !ops[n].SetActive? {
        SingleOpenAlways(cfg, ops[..n]);
        ApplyRows(cfg, After(cfg, ops[..n]), ops[n]);
      }
    }
  }

  /** Time does not run back. */
  ghost predicate Forward(ops: seq<Op>) {
    forall a, b :: 0 <= a < b < |ops| && !ops[a].SetActive? && !ops[b].SetActive? ==> TimeOf(ops[a]) <= TimeOf(ops[b])
  }

  /** With a clock that does not run back no incident is resolved before it started. */
  lemma ResolvedAfterStart(cfg: Settings, ops: seq<Op>, i: nat)
    requires Forward(ops) && i < |After(cfg, ops).incidents| && After(cfg, ops).incidents[i].resolvedAt.Some?
    ensures After(cfg, ops).incidents[i].resolvedAt.value >= After(cfg, ops).incidents[i].startedAt
  {
    var born, closed := RowAccounted(cfg, ops, i);
  }

  // ---------- Heartbeats, deletion and pausing ----------

  lemma AfterOne(cfg: Settings, ops: seq<Op>, op: Op)
    ensures After(cfg, ops + [op]) == Apply(cfg, After(cfg, ops), op)
  {
    assert (ops + [op])[..|ops|] == ops;
  }

  /** Rows after an attempt to create an incident: the newest is unresolved if the stores answered, and an
      unresolved row is kept as it is. */
  ghost predicate Opened(s: seq<Incident>, s': seq<Incident>, ok: bool) {
    && s <= s'
    && (ok ==> s' != [] && s'[|s'| - 1].resolvedAt.None?)
    && (HasOpen(s) ==> s' == s)
  }

  lemma CreateOpens(s: seq<Incident>, now: int, f: CreateFaults)
    requires SingleOpen(s)
    ensures Opened(s, Created(s, now, f), f.listOk && f.insertOk)
  {
    CreateExact(s, now, f);
  }

  /** After every run a missed heartbeat touches incidents only: it leaves the newest one unresolved if its
      stores answer, and one that was unresolved already as it is. */
  lemma MissedOpens(cfg: Settings, ops: seq<Op>, now: int, f: CreateFaults)
    ensures
      var st, st' := After(cfg, ops), After(cfg, ops + [HeartbeatMissed(now, f)]);
      && st'.present == st.present && st'.active == st.active && st'.row == st.row
      && Opened(st.incidents, st'.incidents, f.listOk && f.insertOk)
  {
    AfterOne(cfg, ops, HeartbeatMissed(now, f));
    SingleOpenAlways(cfg, ops);
    CreateOpens(After(cfg, ops).incidents, now, f);
  }

  /** After every run a recovered heartbeat sets the status to up and resolves the unresolved incident, if
      the stores answer; when the status cannot be stored nothing changes. */
  lemma RecoveryCloses(cfg: Settings, ops: seq<Op>, now: int, statusOk: bool, f: ResolveFaults)
    ensures
      var st, st' := After(cfg, ops), After(cfg, ops + [HeartbeatRecovered(now, statusOk, f)]);
      && st'.present == st.present && st'.active == st.active
      && st'.row.status == (if statusOk then Up else st.row.status)
      && st'.row.failureCount == st.row.failureCount && st'.row.flapStartedAt == st.row.flapStartedAt
      && st'.row.lastTransition == st.row.lastTransition
      && RowsResolved(st.incidents, st'.incidents, now, statusOk && f.listOk && f.updateOk)
  {
    AfterOne(cfg, ops, HeartbeatRecovered(now, statusOk, f));
    SingleOpenAlways(cfg, ops);
    ResolveExact(After(cfg, ops).incidents, now, f);
  }

  /** After every run a deletion resolves the unresolved incident first, whether or not the deletion
      itself then succeeds. */
  lemma DeletionCloses(cfg: Settings, ops: seq<Op>, now: int, f: ResolveFaults, deleteOk: bool)
    ensures
      var st, st' := After(cfg, ops), After(cfg, ops + [Deleted(now, f, deleteOk)]);
      && st'.active == st.active && st'.row == st.row
      && RowsResolved(st.incidents, st'.incidents, now, f.listOk && f.updateOk)
  {
    AfterOne(cfg, ops, Deleted(now, f, deleteOk));
    SingleOpenAlways(cfg, ops);
    ResolveExact(After(cfg, ops).incidents, now, f);
  }

  /** An activation change touches nothing else. */
  lemma ActivationOnly(cfg: Settings, ops: seq<Op>, active: bool)
    ensures
      var st, st' := After(cfg, ops), After(cfg, ops + [SetActive(active)]);
      st'.present == st.present && st'.row == st.row && st'.incidents == st.incidents
  {
    AfterOne(cfg, ops, SetActive(active));
  }

  lemma ApplyFlags(cfg: Settings, st: State, op: Op)
    ensures Apply(cfg, st, op).present <==> st.present && !(op.Deleted? && op.deleteOk)
    ensures Apply(cfg, st, op).active == if op.SetActive? then op.active else st.active
  {}

  ghost predicate Gone(ops: seq<Op>) {
    exists k :: 0 <= k < |ops| && ops[k].Deleted? && ops[k].deleteOk
  }

  /** Over every run a resource is there until a deletion succeeds, and never again after it. */
  lemma {:induction false} GoneIff(cfg: Settings, ops: seq<Op>)
    ensures !After(cfg, ops).present <==> Gone(ops)
  {
    if ops != [] {
      var n := |ops| - 1;
      GoneIff(cfg, ops[..n]);
      ApplyFlags(cfg, After(cfg, ops[..n]), ops[n]);
    }
  }

  /** Over every run a resource is active as the last activation change left it, and to begin with. */
  lemma {:induction false} ActiveIff(cfg: Settings, ops: seq<Op>, k: nat)
    requires k <= |ops| && forall j :: k <= j < |ops| ==> !ops[j].SetActive?
    requires k > 0 ==> ops[k - 1].SetActive?
    ensures After(cfg, ops).active <==> k == 0 || ops[k - 1].active
  {
    if ops != [] {
      var n := |ops| - 1;
      ApplyFlags(cfg, After(cfg, ops[..n]), ops[n]);
      if k <= n {
        ActiveIff(cfg, ops[..n], k);
      }
    }
  }
}
