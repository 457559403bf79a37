/** Daily uptime rows derived from the raw activity log (internal/service/uptime_aggregator.go) and
    their consumers: the 30-day ratio (internal/service/monitoring_activity_service.go) and the
    periodic report (internal/service/report_aggregation.go). Time is the index of the UTC day;
    ratios are exact. */
module UptimeAggregates {
  import opened Wrappers

  type Id = string

  const PAGE := 5000

  /** A logged check; `day` is the index of the UTC day it was created on. */
  datatype Activity = Activity(day: int, success: bool, maintenance: bool)

  /** Counted samples of a span of time. The source's degraded count is always zero here. */
  datatype Row = Row(samples: nat, up: nat, down: nat)

  function Plus(a: Row, b: Row): Row {
    Row(a.samples + b.samples, a.up + b.up, a.down + b.down)
  }

  predicate InSpan(a: Activity, start: int, end: int) {
    start <= a.day < end && !a.maintenance
  }

  function One(a: Activity, start: int, end: int): Row {
    if !InSpan(a, start, end) then Row(0, 0, 0)
    else if a.success then Row(1, 1, 0) else Row(1, 0, 1)
  }

  /** A direct count over the log: the reference for every aggregate. */
  function Recount(log: seq<Activity>, start: int, end: int): Row {
    if log == [] then Row(0, 0, 0) else Plus(Recount(log[..|log| - 1], start, end), One(log[|log| - 1], start, end))
  }

  function DayCount(log: seq<Activity>, day: int): Row {
    Recount(log, day, day + 1)
  }

  lemma RecountNext(log: seq<Activity>, k: nat, start: int, end: int)
    requires k < |log|
    ensures Recount(log[..k + 1], start, end) == Plus(Recount(log[..k], start, end), One(log[k], start, end))
  {
    assert log[..k + 1][..k] == log[..k];
  }

  /** The positions of the log that count for a span: its days, outside maintenance, with this outcome. */
  function Positions(log: seq<Activity>, start: int, end: int, success: bool): set<nat> {
    set k: nat |
      k < |log| && start <= log[k].day && log[k].day < end && !log[k].maintenance && log[k].success == success
  }

  lemma PositionsStep(log: seq<Activity>, start: int, end: int, success: bool)
    requires log != []
    ensures
      var n := |log| - 1;
      |Positions(log, start, end, success)| ==
        |Positions(log[..n], start, end, success)| +
        if start <= log[n].day && log[n].day < end && !log[n].maintenance && log[n].success == success then 1 else 0
  {
    var n := |log| - 1;
    var before, after := Positions(log[..n], start, end, success), Positions(log, start, end, success);
    if start <= log[n].day && log[n].day < end && !log[n].maintenance && log[n].success == success {
      assert after == before + {n} && n !in before;
    } else {
      assert after == before;
    }
  }

  /** A count is the number of such positions: ups, downs, and both together as samples. */
  lemma {:induction false} RecountMeaning(log: seq<Activity>, start: int, end: int)
    ensures
      var up, down := |Positions(log, start, end, true)|, |Positions(log, start, end, false)|;
      Recount(log, start, end) == Row(up + down, up, down)
  {
    if log == [] {
      assert Positions(log, start, end, true) == {} && Positions(log, start, end, false) == {};
    } else {
      RecountMeaning(log[..|log| - 1], start, end);
      PositionsStep(log, start, end, true);
      PositionsStep(log, start, end, false);
    }
  }

  type Table = map<(Id, int), Row>

  /** The page the repository returns: the log is kept newest first. */
  function Page(log: seq<Activity>): seq<Activity> {
    if |log| > PAGE then log[..PAGE] else log
  }

  function Recomputed(t: Table, id: Id, log: seq<Activity>, day: int): Table {
    var r := DayCount(Page(log), day);
    if r.samples == 0 then t else t[(id, day) := r]
  }

  function RunFor(t: Table, ids: seq<Id>, logs: map<Id, seq<Activity>>, today: int): Table
    requires forall i :: 0 <= i < |ids| ==> ids[i] in logs
  {
    if ids == [] then t
    else
      var id := ids[|ids| - 1];
      var t1 := RunFor(t, ids[..|ids| - 1], logs, today);
      Recomputed(Recomputed(t1, id, logs[id], today - 1), id, logs[id], today)
  }

  class UptimeAggregator {
    var aggs: Table

    constructor ()
      ensures aggs == map[]
    {
      aggs := map[];
    }

    method Recompute(id: Id, log: seq<Activity>, day: int)
      modifies this
      ensures aggs == Recomputed(old(aggs), id, log, day)
    {
      var dayStart, dayEnd := day, day + 1;
      var rows := Page(log);
      var up, down, samples := 0, 0, 0;
      for k := 0 to |rows|
        invariant Row(samples, up, down) == Recount(rows[..k], dayStart, dayEnd)
        invariant aggs == old(aggs)
      {
        RecountNext(rows, k, dayStart, dayEnd);
        var act := rows[k];
        if act.day < dayStart || !(act.day < dayEnd) {
          continue;
        }
        samples := samples + 1;
        if act.maintenance {
          samples := samples - 1;
        } else if act.success {
          up := up + 1;
        } else {
          down := down + 1;
        }
      }
      assert rows[..|rows|] == rows;
      if samples == 0 {
        return;
      }
      aggs := aggs[(id, day) := Row(samples, up, down)];
    }

    method RunOnce(ids: seq<Id>, logs: map<Id, seq<Activity>>, today: int)
      requires forall i :: 0 <= i < |ids| ==> ids[i] in logs
      modifies this
      ensures aggs == RunFor(old(aggs), ids, logs, today)
    {
      for k := 0 to |ids|
        invariant aggs == RunFor(old(aggs), ids[..k], logs, today)
      {
        assert ids[..k + 1][..k] == ids[..k];
        Recompute(ids[k], logs[ids[k]], today - 1);
        Recompute(ids[k], logs[ids[k]], today);
      }
      assert ids[..|ids|] == ids;
    }
  }

  // ---------- Rows against the log ----------

  lemma {:induction false} RecountConcat(a: seq<Activity>, b: seq<Activity>, start: int, end: int)
    ensures Recount(a + b, start, end) == Plus(Recount(a, start, end), Recount(b, start, end))
  {
    if b == [] {
      assert a + b == a;
    } else {
      assert (a + b)[..|a + b| - 1] == a + b[..|b| - 1];
      RecountConcat(a, b[..|b| - 1], start, end);
    }
  }

  /** The part of the log beyond the page. */
  function Beyond(log: seq<Activity>): seq<Activity> {
    if |log| > PAGE then log[PAGE..] else []
  }

  /** The page gives the day's row exactly when no counted sample of that day lies beyond it. */
  lemma PageExactIff(log: seq<Activity>, day: int)
    ensures DayCount(Page(log), day) == DayCount(log, day) <==> DayCount(Beyond(log), day).samples == 0
  {
    assert Page(log) + Beyond(log) == log;
    RecountConcat(Page(log), Beyond(log), day, day + 1);
    SamplesSplit(Beyond(log), day, day + 1);
  }

  lemma {:induction false} SamplesSplit(log: seq<Activity>, start: int, end: int)
    ensures Recount(log, start, end).samples == Recount(log, start, end).up + Recount(log, start, end).down
  {
    if log == [] {
    } else {
      SamplesSplit(log[..|log| - 1], start, end);
    }
  }

  predicate NewestFirst(log: seq<Activity>) {
    forall i, j :: 0 <= i < j < |log| ==> log[i].day >= log[j].day
  }

  lemma {:induction false} NothingSince(log: seq<Activity>, start: int, end: int)
    requires forall i :: 0 <= i < |log| ==> log[i].day < start
    ensures Recount(log, start, end) == Row(0, 0, 0)
  {
    if log == [] {
    } else {
      assert log[|log| - 1].day < start;
      NothingSince(log[..|log| - 1], start, end);
    }
  }

  /** At most a page of activities on or after the start of yesterday. */
  predicate Fits(log: seq<Activity>, today: int) {
    |log| > PAGE ==> log[PAGE].day < today - 1
  }

  lemma FittingPageIsExact(log: seq<Activity>, today: int, day: int)
    requires NewestFirst(log) && Fits(log, today) && today - 1 <= day
    ensures DayCount(Page(log), day) == DayCount(log, day)
  {
    var rest := Beyond(log);
    assert forall i :: 0 <= i < |rest| ==> rest[i].day <= log[PAGE].day < day;
    NothingSince(rest, day, day + 1);
    PageExactIff(log, day);
  }

  /** What a run leaves in the table for one resource and day. */
  lemma {:induction false} RunEntry(t: Table, ids: seq<Id>, logs: map<Id, seq<Activity>>, today: int, id: Id, day: int)
    requires forall i :: 0 <= i < |ids| ==> ids[i] in logs
    ensures
      var t' := RunFor(t, ids, logs, today);
      if id in ids && (day == today || day == today - 1) && DayCount(Page(logs[id]), day).samples > 0
      then (id, day) in t' && t'[(id, day)] == DayCount(Page(logs[id]), day)
      else ((id, day) in t' <==> (id, day) in t) && ((id, day) in t ==> t'[(id, day)] == t[(id, day)])
  {
    if ids == [] {
    } else {
      RunEntry(t, ids[..|ids| - 1], logs, today, id, day);
      assert id in ids <==> id in ids[..|ids| - 1] || id == ids[|ids| - 1];
    }
  }

  /** The day has its exact row, or no row because it has no samples. */
  ghost predicate ExactDay(t: Table, id: Id, log: seq<Activity>, d: int) {
    if (id, d) in t then t[(id, d)] == DayCount(log, d) else DayCount(log, d).samples == 0
  }

  /** While the log fits, a run makes the rows of today and yesterday equal a direct recount of the
      day's samples outside maintenance; a day without samples gets no row. A row from an earlier
      run implies samples, since the log only grows. */
  lemma RowsMatchLog(t: Table, ids: seq<Id>, logs: map<Id, seq<Activity>>, today: int, id: Id, day: int)
    requires forall i :: 0 <= i < |ids| ==> ids[i] in logs
    requires id in ids && NewestFirst(logs[id]) && Fits(logs[id], today) && today - 1 <= day <= today
    requires (id, day) in t ==> DayCount(logs[id], day).samples > 0
    ensures ExactDay(RunFor(t, ids, logs, today), id, logs[id], day)
  {
    FittingPageIsExact(logs[id], today, day);
    RunEntry(t, ids, logs, today, id, day);
  }

  /** Recomputing a day, exactly. If the page holds no sample of the day, nothing changes, so an older
      row, right or wrong, stays. Otherwise the new row is right if and only if no sample of the day
      lies beyond the page, and a wrong row always counts too few. */
  lemma TruncatedRowIff(t: Table, id: Id, log: seq<Activity>, day: int)
    ensures
      var t' := Recomputed(t, id, log, day);
      if DayCount(Page(log), day).samples == 0 then t' == t
      else
        && (id, day) in t'
        && (t'[(id, day)] == DayCount(log, day) <==> DayCount(Beyond(log), day).samples == 0)
        && (t'[(id, day)] != DayCount(log, day) ==> t'[(id, day)].samples < DayCount(log, day).samples)
  {
    PageExactIff(log, day);
    assert Page(log) + Beyond(log) == log;
    RecountConcat(Page(log), Beyond(log), day, day + 1);
  }

  lemma {:induction false} RecountConst(n: nat, a: Activity, start: int, end: int)
    ensures
      var r := Recount(seq(n, _ => a), start, end);
      r == if !InSpan(a, start, end) then Row(0, 0, 0) else if a.success then Row(n, n, 0) else Row(n, 0, n)
  {
    if n == 0 {
    } else {
      assert seq(n, _ => a)[..n - 1] == seq(n - 1, _ => a);
      RecountConst(n - 1, a, start, end);
    }
  }

  /** A log of n successful checks today and m yesterday. */
  function TwoDays(today: int, n: nat, m: nat): seq<Activity> {
    seq(n, _ => Activity(today, true, false)) + seq(m, _ => Activity(today - 1, true, false))
  }

  lemma TwoDaysCount(today: int, n: nat, m: nat)
    ensures NewestFirst(TwoDays(today, n, m)) && DayCount(TwoDays(today, n, m), today - 1) == Row(m, m, 0)
  {
    var a, b := Activity(today, true, false), Activity(today - 1, true, false);
    RecountConst(n, a, today - 1, today);
    RecountConst(m, b, today - 1, today);
    RecountConcat(seq(n, _ => a), seq(m, _ => b), today - 1, today);
  }

  lemma TwoDaysPage(today: int, n: nat, m: nat)
    requires n < PAGE < n + m
    ensures Page(TwoDays(today, n, m)) == TwoDays(today, n, PAGE - n)
    ensures Beyond(TwoDays(today, n, m)) == TwoDays(today, 0, n + m - PAGE)
  {}

  /** The failing inputs: whenever today's checks do not fill the page but both days' overflow it, a run
      replaces yesterday's row, whatever it was, by one without the samples beyond the page. */
  lemma BusyDaysTruncated(t: Table, id: Id, today: int, n: nat, m: nat)
    requires n < PAGE < n + m
    ensures
      var log := TwoDays(today, n, m);
      var t' := RunFor(t, [id], map[id := log], today);
      && NewestFirst(log) && DayCount(log, today - 1) == Row(m, m, 0)
      && DayCount(Beyond(log), today - 1).samples == n + m - PAGE
      && (id, today - 1) in t' && t'[(id, today - 1)] == Row(PAGE - n, PAGE - n, 0)
  {
    TwoDaysCount(today, n, m);
    TwoDaysPage(today, n, m);
    TwoDaysCount(today, n, PAGE - n);
    TwoDaysCount(today, 0, n + m - PAGE);
    RunEntry(t, [id], map[id := TwoDays(today, n, m)], today, id, today - 1);
  }

  /** With a check every thirty seconds, the last run of a day leaves yesterday's row with 2120 of its
      2880 samples. */
  lemma HalfMinuteChecksTruncated(t: Table, id: Id, today: int)
    ensures
      var log := TwoDays(today, 2880, 2880);
      var t' := RunFor(t, [id], map[id := log], today);
      && DayCount(log, today - 1) == Row(2880, 2880, 0) && DayCount(Beyond(log), today - 1).samples == 760
      && (id, today - 1) in t' && t'[(id, today - 1)] == Row(2120, 2120, 0)
  {
    BusyDaysTruncated(t, id, today, 2880, 2880);
  }

  lemma RunIdempotent(t: Table, ids: seq<Id>, logs: map<Id, seq<Activity>>, today: int)
    requires forall i :: 0 <= i < |ids| ==> ids[i] in logs
    ensures RunFor(RunFor(t, ids, logs, today), ids, logs, today) == RunFor(t, ids, logs, today)
  {
    var t1 := RunFor(t, ids, logs, today);
    var t2 := RunFor(t1, ids, logs, today);
    forall k: (Id, int)
      ensures k in t2 <==> k in t1
      ensures k in t1 ==> t2[k] == t1[k]
    {
      assert k == (k.0, k.1);
      RunEntry(t, ids, logs, today, k.0, k.1);
      RunEntry(t1, ids, logs, today, k.0, k.1);
    }
    assert t2.Keys == t1.Keys;
  }

  // ---------- The 30-day ratio ----------

  /** The rows of one resource for the days `first` up to but excluding `end`, as the repository
      returns them. */
  function RowsFor(t: Table, id: Id, first: int, end: int): seq<Row>
    requires first <= end
    decreases end - first
  {
    if first == end then []
    else RowsFor(t, id, first, end - 1) + (if (id, end - 1) in t then [t[(id, end - 1)]] else [])
  }

  function SumRows(rows: seq<Row>): Row {
    if rows == [] then Row(0, 0, 0) else Plus(SumRows(rows[..|rows| - 1]), rows[|rows| - 1])
  }

  method Uptime30dFromAgg(rows: seq<Row>) returns (ratio: Option<real>)
    ensures SumRows(rows).samples == 0 ==> ratio.None?
    ensures SumRows(rows).samples > 0 ==>
      ratio == Some(SumRows(rows).up as real / SumRows(rows).samples as real)
  {
    var up, samples := 0, 0;
    for k := 0 to |rows|
      invariant up == SumRows(rows[..k]).up && samples == SumRows(rows[..k]).samples
    {
      assert rows[..k + 1][..k] == rows[..k];
      up := up + rows[k].up;
      samples := samples + rows[k].samples;
    }
    assert rows[..|rows|] == rows;
    if samples == 0 {
      return None;
    }
    ratio := Some(up as real / samples as real);
  }

  ghost predicate Exact(t: Table, id: Id, log: seq<Activity>, first: int, end: int) {
    forall d :: first <= d < end ==> ExactDay(t, id, log, d)
  }

  lemma OneSplits(a: Activity, start: int, mid: int, end: int)
    requires start <= mid <= end
    ensures One(a, start, end) == Plus(One(a, start, mid), One(a, mid, end))
  {}

  lemma PlusSwap(a: Row, b: Row, c: Row, d: Row)
    ensures Plus(Plus(a, b), Plus(c, d)) == Plus(Plus(a, c), Plus(b, d))
  {}

  lemma {:induction false} RecountSpan(log: seq<Activity>, start: int, mid: int, end: int)
    requires start <= mid <= end
    ensures Recount(log, start, end) == Plus(Recount(log, start, mid), Recount(log, mid, end))
  {
    if log == [] {
    } else {
      var init, a := log[..|log| - 1], log[|log| - 1];
      RecountSpan(init, start, mid, end);
      OneSplits(a, start, mid, end);
      PlusSwap(Recount(init, start, mid), Recount(init, mid, end), One(a, start, mid), One(a, mid, end));
    }
  }

  lemma SumAppend(rows: seq<Row>, r: Row)
    ensures SumRows(rows + [r]) == Plus(SumRows(rows), r)
  {
    assert (rows + [r])[..|rows|] == rows;
  }

  lemma NoSamplesNoRow(r: Row)
    requires r.samples == 0 && r.samples == r.up + r.down
    ensures r == Row(0, 0, 0)
  {}

  /** One more exact day adds that day's count. */
  lemma WindowStep(t: Table, id: Id, log: seq<Activity>, rows: seq<Row>, d: int)
    requires ExactDay(t, id, log, d)
    ensures SumRows(rows + (if (id, d) in t then [t[(id, d)]] else [])) ==
      Plus(SumRows(rows), DayCount(log, d))
  {
    if (id, d) in t {
      SumAppend(rows, t[(id, d)]);
    } else {
      SamplesSplit(log, d, d + 1);
      NoSamplesNoRow(DayCount(log, d));
      assert rows + [] == rows;
    }
  }

  /** Summing exact daily rows is counting the raw log over the whole window, so the 30-day ratio
      is the ratio of the raw samples. */
  lemma {:induction false} WindowMatchesLog(t: Table, id: Id, log: seq<Activity>, first: int, end: int)
    requires first <= end && Exact(t, id, log, first, end)
    ensures SumRows(RowsFor(t, id, first, end)) == Recount(log, first, end)
    decreases end - first
  {
    if first == end {
      EmptySpan(log, first);
    } else {
      WindowMatchesLog(t, id, log, first, end - 1);
      WindowStep(t, id, log, RowsFor(t, id, first, end - 1), end - 1);
      RecountSpan(log, first, end - 1, end);
    }
  }

  lemma {:induction false} EmptySpan(log: seq<Activity>, at: int)
    ensures Recount(log, at, at) == Row(0, 0, 0)
  {
    if log == [] {
    } else {
      EmptySpan(log[..|log| - 1], at);
    }
  }

  lemma {:induction false} NothingUntil(log: seq<Activity>, start: int, end: int)
    requires forall i :: 0 <= i < |log| ==> log[i].day >= end
    ensures Recount(log, start, end) == Row(0, 0, 0)
  {
    if log == [] {
    } else {
      assert log[|log| - 1].day >= end;
      NothingUntil(log[..|log| - 1], start, end);
    }
  }

  /** A row that is exact once its day is over stays exact as the log grows. */
  lemma ClosedDayStaysExact(t: Table, id: Id, log: seq<Activity>, newer: seq<Activity>, d: int)
    requires ExactDay(t, id, log, d) && forall i :: 0 <= i < |newer| ==> newer[i].day > d
    ensures ExactDay(t, id, newer + log, d)
  {
    RecountConcat(newer, log, d, d + 1);
    NothingUntil(newer, d, d + 1);
  }

  // ---------- A series of runs over a growing log ----------

  /** One run: the day it happens on, the active resources and their logs at that moment. */
  datatype Round = Round(today: int, ids: seq<Id>, logs: map<Id, seq<Activity>>)

  predicate Listed(r: Round) {
    forall i :: 0 <= i < |r.ids| ==> r.ids[i] in r.logs
  }

  /** The run covers the resource, whose log is newest first, has nothing from the future, and fits. */
  predicate Covers(r: Round, id: Id) {
    && Listed(r) && id in r.ids && NewestFirst(r.logs[id]) && Fits(r.logs[id], r.today)
    && (forall i :: 0 <= i < |r.logs[id]| ==> r.logs[id][i].day <= r.today)
  }

  /** The next run is on the same day or the day after, and the log has only grown since. */
  predicate Follows(r: Round, next: Round, id: Id)
    requires id in r.logs && id in next.logs
  {
    var n := |next.logs[id]| - |r.logs[id]|;
    && r.today <= next.today <= r.today + 1
    && n >= 0 && next.logs[id][n..] == r.logs[id]
    && (forall i :: 0 <= i < n ==> next.logs[id][i].day >= r.today)
  }

  predicate Series(rounds: seq<Round>, id: Id) {
    && (forall k :: 0 <= k < |rounds| ==> Covers(rounds[k], id))
    && (forall k :: 0 <= k < |rounds| - 1 ==> Follows(rounds[k], rounds[k + 1], id))
  }

  function AfterRounds(rounds: seq<Round>): Table
    requires forall k :: 0 <= k < |rounds| ==> Listed(rounds[k])
  {
    if rounds == [] then map[]
    else
      var n := |rounds| - 1;
      assert Listed(rounds[n]);
      RunFor(AfterRounds(rounds[..n]), rounds[n].ids, rounds[n].logs, rounds[n].today)
  }

  /** Rows exist only for days between `first` and `last` that have samples. */
  ghost predicate RowsHaveSamples(t: Table, id: Id, log: seq<Activity>, first: int, last: int) {
    forall d :: (id, d) in t ==> first <= d <= last && DayCount(log, d).samples > 0
  }

  lemma GrowingKeepsSamples(newer: seq<Activity>, log: seq<Activity>, d: int)
    ensures DayCount(newer + log, d).samples >= DayCount(log, d).samples
  {
    RecountConcat(newer, log, d, d + 1);
  }

  lemma PageWithinLog(log: seq<Activity>, d: int)
    ensures DayCount(Page(log), d).samples <= DayCount(log, d).samples
  {
    assert Page(log) + Beyond(log) == log;
    RecountConcat(Page(log), Beyond(log), d, d + 1);
  }

  lemma RunKeepsSamples(t: Table, r: Round, id: Id, first: int, last: int)
    requires Covers(r, id) && RowsHaveSamples(t, id, r.logs[id], first, last) && last <= r.today && first <= r.today - 1
    ensures RowsHaveSamples(RunFor(t, r.ids, r.logs, r.today), id, r.logs[id], first, r.today)
  {
    var t' := RunFor(t, r.ids, r.logs, r.today);
    forall d | (id, d) in t'
      ensures first <= d <= r.today && DayCount(r.logs[id], d).samples > 0
    {
      RunEntry(t, r.ids, r.logs, r.today, id, d);
      PageWithinLog(r.logs[id], d);
    }
  }

  lemma GrowthKeepsSamples(t: Table, id: Id, r: Round, next: Round, first: int, last: int)
    requires Covers(r, id) && Covers(next, id) && Follows(r, next, id)
    requires RowsHaveSamples(t, id, r.logs[id], first, last)
    ensures RowsHaveSamples(t, id, next.logs[id], first, last)
  {
    var n := |next.logs[id]| - |r.logs[id]|;
    assert next.logs[id] == next.logs[id][..n] + r.logs[id];
    forall d | (id, d) in t
      ensures DayCount(next.logs[id], d).samples > 0
    {
      GrowingKeepsSamples(next.logs[id][..n], r.logs[id], d);
    }
  }

  /** One more run keeps every day since `first` exact. */
  lemma RunKeepsExact(t: Table, id: Id, r: Round, next: Round, first: int, d: int)
    requires Covers(r, id) && Covers(next, id) && Follows(r, next, id)
    requires RowsHaveSamples(t, id, r.logs[id], first, r.today) && Exact(t, id, r.logs[id], first, r.today + 1)
    requires first <= d <= next.today
    ensures ExactDay(RunFor(t, next.ids, next.logs, next.today), id, next.logs[id], d)
  {
    GrowthKeepsSamples(t, id, r, next, first, r.today);
    if d >= next.today - 1 {
      RowsMatchLog(t, next.ids, next.logs, next.today, id, d);
    } else {
      var n := |next.logs[id]| - |r.logs[id]|;
      assert next.logs[id] == next.logs[id][..n] + r.logs[id];
      ClosedDayStaysExact(t, id, r.logs[id], next.logs[id][..n], d);
      RunEntry(t, next.ids, next.logs, next.today, id, d);
    }
  }

  /** With at least one run on every day, all rows since the day before the first run are exact, and
      there are no others. */
  lemma {:induction false} SeriesIsExact(rounds: seq<Round>, id: Id)
    requires rounds != [] && Series(rounds, id)
    ensures
      var t, first, last := AfterRounds(rounds), rounds[0].today - 1, rounds[|rounds| - 1];
      && first < last.today
      && Exact(t, id, last.logs[id], first, last.today + 1)
      && RowsHaveSamples(t, id, last.logs[id], first, last.today)
  {
    var n := |rounds| - 1;
    var first, next := rounds[0].today - 1, rounds[n];
    if n == 0 {
      assert AfterRounds(rounds[..0]) == map[];
      forall d | first <= d < next.today + 1
        ensures ExactDay(AfterRounds(rounds), id, next.logs[id], d)
      {
        RowsMatchLog(map[], next.ids, next.logs, next.today, id, d);
      }
      RunKeepsSamples(map[], next, id, first, next.today);
    } else {
      var init := rounds[..n];
      SeriesIsExact(init, id);
      var t, r := AfterRounds(init), init[n - 1];
      assert r == rounds[n - 1] && Follows(r, next, id);
      forall d | first <= d < next.today + 1
        ensures ExactDay(AfterRounds(rounds), id, next.logs[id], d)
      {
        RunKeepsExact(t, id, r, next, first, d);
      }
      GrowthKeepsSamples(t, id, r, next, first, r.today);
      RunKeepsSamples(t, next, id, first, r.today);
    }
  }

  predicate NoneBefore(log: seq<Activity>, day: int) {
    forall i :: 0 <= i < |log| ==> log[i].day >= day
  }

  lemma NoRowExact(t: Table, id: Id, log: seq<Activity>, day: int, d: int)
    requires (id, d) !in t && d < day && NoneBefore(log, day)
    ensures ExactDay(t, id, log, d)
  {
    NothingUntil(log, d, d + 1);
  }

  /** Days before the first run's window are exact too if the log has nothing that old. */
  lemma OlderDaysExact(rounds: seq<Round>, id: Id, d: int)
    requires rounds != [] && Series(rounds, id) && d < rounds[0].today - 1
    requires NoneBefore(rounds[|rounds| - 1].logs[id], rounds[0].today - 1)
    ensures ExactDay(AfterRounds(rounds), id, rounds[|rounds| - 1].logs[id], d)
  {
    SeriesIsExact(rounds, id);
    NoRowExact(AfterRounds(rounds), id, rounds[|rounds| - 1].logs[id], rounds[0].today - 1, d);
  }

  /** The aggregate pipeline end to end. After any series of runs with at least one on every day, while
      the log fits, the stored rows of any window up to today add up to a direct recount of the raw log
      over it, if the window starts no earlier than the day before the first run or the log holds
      nothing older. For the thirty days up to today this makes the ratio that of the raw samples. */
  lemma SeriesMatchesLog(rounds: seq<Round>, id: Id, first: int, end: int)
    requires rounds != [] && Series(rounds, id)
    requires first <= end <= rounds[|rounds| - 1].today + 1
    requires rounds[0].today - 1 <= first || NoneBefore(rounds[|rounds| - 1].logs[id], rounds[0].today - 1)
    ensures SumRows(RowsFor(AfterRounds(rounds), id, first, end)) ==
      Recount(rounds[|rounds| - 1].logs[id], first, end)
  {
    var t, log := AfterRounds(rounds), rounds[|rounds| - 1].logs[id];
    SeriesIsExact(rounds, id);
    forall d | first <= d < end
      ensures ExactDay(t, id, log, d)
    {
      if d < rounds[0].today - 1 {
        OlderDaysExact(rounds, id, d);
      }
    }
    WindowMatchesLog(t, id, log, first, end);
  }

  // ---------- The report ----------

  datatype Agg = Agg(resource: Id, up: nat, degraded: nat, down: nat)
  datatype Resource = Resource(id: Id, name: string, interval: nat)
  datatype Line = Line(name: string, uptimePct: real, incidents: nat)

  /** Ups, counted samples and down samples. */
  datatype Totals = Totals(up: nat, counted: nat, down: nat)

  /** What is known of a resource: the last entry listed for it, nothing if there is none. */
  function Known(resources: seq<Resource>, id: Id): Resource {
    if resources == [] then Resource(id, "", 0)
    else if resources[|resources| - 1].id == id then resources[|resources| - 1]
    else Known(resources[..|resources| - 1], id)
  }

  function Interval(resources: seq<Resource>, id: Id): nat {
    Known(resources, id).interval
  }

  /** Flat sums over the rows of one resource, and over the rows of a set of resources. */
  function SumOf(aggs: seq<Agg>, id: Id): Totals {
    if aggs == [] then Totals(0, 0, 0)
    else
      var t, a := SumOf(aggs[..|aggs| - 1], id), aggs[|aggs| - 1];
      if a.resource == id then Totals(t.up + a.up, t.counted + a.up + a.degraded + a.down, t.down + a.down) else t
  }

  function FlatUp(aggs: seq<Agg>, ids: set<Id>): nat {
    if aggs == [] then 0
    else FlatUp(aggs[..|aggs| - 1], ids) + (if aggs[|aggs| - 1].resource in ids then aggs[|aggs| - 1].up else 0)
  }

  function FlatCounted(aggs: seq<Agg>, ids: set<Id>): nat {
    if aggs == [] then 0
    else
      var a := aggs[|aggs| - 1];
      FlatCounted(aggs[..|aggs| - 1], ids) + (if a.resource in ids then a.up + a.degraded + a.down else 0)
  }

  function FlatDowntime(aggs: seq<Agg>, ids: set<Id>, resources: seq<Resource>): nat {
    if aggs == [] then 0
    else
      var a := aggs[|aggs| - 1];
      FlatDowntime(aggs[..|aggs| - 1], ids, resources) +
      (if a.resource in ids then a.down * Interval(resources, a.resource) else 0)
  }

  function Ids(aggs: seq<Agg>): set<Id> {
    set k | 0 <= k < |aggs| :: aggs[k].resource
  }

  /** Visiting one more resource adds its group to the flat sums. */
  lemma {:induction false} AddGroup(aggs: seq<Agg>, ids: set<Id>, id: Id, resources: seq<Resource>)
    requires id !in ids
    ensures FlatUp(aggs, ids + {id}) == FlatUp(aggs, ids) + SumOf(aggs, id).up
    ensures FlatCounted(aggs, ids + {id}) == FlatCounted(aggs, ids) + SumOf(aggs, id).counted
    ensures FlatDowntime(aggs, ids + {id}, resources) ==
      FlatDowntime(aggs, ids, resources) + SumOf(aggs, id).down * Interval(resources, id)
  {
    if aggs == [] {
    } else {
      AddGroup(aggs[..|aggs| - 1], ids, id, resources);
      var t, a, w := SumOf(aggs[..|aggs| - 1], id), aggs[|aggs| - 1], Interval(resources, id);
      assert (t.down + a.down) * w == t.down * w + a.down * w;
    }
  }

  lemma {:induction false} NothingVisited(aggs: seq<Agg>, resources: seq<Resource>)
    ensures FlatUp(aggs, {}) == 0 && FlatCounted(aggs, {}) == 0 && FlatDowntime(aggs, {}, resources) == 0
  {
    if aggs == [] {
    } else {
      NothingVisited(aggs[..|aggs| - 1], resources);
    }
  }

  function Pct(t: Totals): real {
    if t.counted > 0 then 100.0 * t.up as real / t.counted as real else 0.0
  }

  /** The line of one resource. */
  function LineOf(resources: seq<Resource>, aggs: seq<Agg>, incidents: map<Id, nat>, id: Id): Line {
    Line(Known(resources, id).name, Pct(SumOf(aggs, id)), if id in incidents then incidents[id] else 0)
  }

  function WithLine(resources: seq<Resource>, aggs: seq<Agg>, incidents: map<Id, nat>, ids: set<Id>, l: Line): set<Id> {
    set id | id in ids && LineOf(resources, aggs, incidents, id) == l
  }

  /** One line for each resource of `ids`: a line occurs as often as there are resources it is the
      line of. */
  ghost predicate LinesFor(
      b: seq<Line>, resources: seq<Resource>, aggs: seq<Agg>, incidents: map<Id, nat>, ids: set<Id>)
  {
    forall l: Line :: multiset(b)[l] == |WithLine(resources, aggs, incidents, ids, l)|
  }

  lemma WithLineStep(
      resources: seq<Resource>, aggs: seq<Agg>, incidents: map<Id, nat>, ids: set<Id>, id: Id, l: Line)
    requires id !in ids
    ensures |WithLine(resources, aggs, incidents, ids + {id}, l)| ==
      |WithLine(resources, aggs, incidents, ids, l)| + if LineOf(resources, aggs, incidents, id) == l then 1 else 0
  {
    var before := WithLine(resources, aggs, incidents, ids, l);
    var after := WithLine(resources, aggs, incidents, ids + {id}, l);
    if LineOf(resources, aggs, incidents, id) == l {
      assert after == before + {id} && id !in before;
    } else {
      assert after == before;
    }
  }

  lemma AddLine(
      b: seq<Line>, resources: seq<Resource>, aggs: seq<Agg>, incidents: map<Id, nat>, ids: set<Id>, id: Id)
    requires LinesFor(b, resources, aggs, incidents, ids) && id !in ids
    ensures LinesFor(b + [LineOf(resources, aggs, incidents, id)], resources, aggs, incidents, ids + {id})
  {
    var line := LineOf(resources, aggs, incidents, id);
    forall l: Line
      ensures multiset(b + [line])[l] == |WithLine(resources, aggs, incidents, ids + {id}, l)|
    {
      WithLineStep(resources, aggs, incidents, ids, id, l);
    }
  }

  ghost predicate LastListed(resources: seq<Resource>, id: Id, k: int) {
    0 <= k < |resources| && resources[k].id == id && forall j :: k < j < |resources| ==> resources[j].id != id
  }

  /** The last entry listed for an id decides its name and interval; */
  lemma {:induction false} KnownMeaning(resources: seq<Resource>, id: Id, k: int)
    requires LastListed(resources, id, k)
    ensures Known(resources, id) == resources[k]
  {
    var n := |resources| - 1;
    if k < n {
      assert resources[n].id != id;
      KnownMeaning(resources[..n], id, k);
    }
  }

  /** an unlisted id has neither. */
  lemma {:induction false} UnknownMeaning(resources: seq<Resource>, id: Id)
    requires forall k :: 0 <= k < |resources| ==> resources[k].id != id
    ensures Known(resources, id) == Resource(id, "", 0)
  {
    if resources == [] {
    } else {
      UnknownMeaning(resources[..|resources| - 1], id);
    }
  }

  lemma {:induction false} GroupIsFlat(aggs: seq<Agg>, id: Id)
    ensures SumOf(aggs, id).up == FlatUp(aggs, {id}) && SumOf(aggs, id).counted == FlatCounted(aggs, {id})
    ensures FlatUp(aggs, {id}) <= FlatCounted(aggs, {id})
  {
    if aggs == [] {
    } else {
      GroupIsFlat(aggs[..|aggs| - 1], id);
    }
  }

  lemma ShareTimes(n: real, total: real)
    requires total > 0.0
    ensures 100.0 * n / total * total == 100.0 * n
  {}

  /** `pct` is the percentage of `up` in `counted`, zero for an empty count. */
  predicate IsShare(pct: real, up: nat, counted: nat) {
    pct * counted as real == 100.0 * up as real && (counted == 0 ==> pct == 0.0)
  }

  lemma PctIsShare(t: Totals)
    requires t.up <= t.counted
    ensures IsShare(Pct(t), t.up, t.counted)
  {
    if t.counted > 0 {
      ShareTimes(t.up as real, t.counted as real);
    }
  }

  /** A line carries the name of its resource, its number of incidents, and as percentage the share of
      ups among all counted samples of its rows. */
  lemma LineMeaning(resources: seq<Resource>, aggs: seq<Agg>, incidents: map<Id, nat>, id: Id)
    ensures
      var l := LineOf(resources, aggs, incidents, id);
      && l.name == Known(resources, id).name
      && l.incidents == (if id in incidents then incidents[id] else 0)
      && IsShare(l.uptimePct, FlatUp(aggs, {id}), FlatCounted(aggs, {id}))
  {
    GroupIsFlat(aggs, id);
    PctIsShare(SumOf(aggs, id));
  }

  // ---------- Order by name ----------

  predicate Leq(a: string, b: string) {
    a == "" || (b != "" && (a[0] < b[0] || (a[0] == b[0] && Leq(a[1..], b[1..]))))
  }

  lemma {:induction false} LeqTotal(a: string, b: string)
    ensures Leq(a, b) || Leq(b, a)
  {
    if a == "" || b == "" {
    } else {
      LeqTotal(a[1..], b[1..]);
    }
  }

  lemma {:induction false} LeqTrans(a: string, b: string, c: string)
    requires Leq(a, b) && Leq(b, c)
    ensures Leq(a, c)
  {
    if a == "" || b == "" || c == "" {
    } else if a[0] == b[0] == c[0] {
      LeqTrans(a[1..], b[1..], c[1..]);
    }
  }

  /** The order of names is the lexicographic one: the first difference decides, and a proper beginning
      comes first. */
  lemma {:induction false} LeqMeaning(p: string, x: char, a: string, y: char, b: string)
    requires x != y
    ensures Leq(p + [x] + a, p + [y] + b) <==> x < y
    ensures Leq(p, p + a) && !Leq(p + [x] + a, p)
  {
    if p == "" {
      assert p + [x] + a == [x] + a && p + [y] + b == [y] + b;
    } else {
      LeqMeaning(p[1..], x, a, y, b);
      assert (p + [x] + a)[1..] == p[1..] + [x] + a && (p + [y] + b)[1..] == p[1..] + [y] + b;
      assert (p + a)[1..] == p[1..] + a;
    }
  }

  predicate ByName(b: seq<Line>) {
    forall i, j :: 0 <= i < j < |b| ==> Leq(b[i].name, b[j].name)
  }

  function Insert(b: seq<Line>, l: Line): seq<Line> {
    if b == [] || Leq(b[|b| - 1].name, l.name) then b + [l]
    else Insert(b[..|b| - 1], l) + [b[|b| - 1]]
  }

  lemma {:induction false} InsertSame(b: seq<Line>, l: Line)
    ensures multiset(Insert(b, l)) == multiset(b) + multiset{l}
  {
    if b == [] || Leq(b[|b| - 1].name, l.name) {
    } else {
      var init, last := b[..|b| - 1], b[|b| - 1];
      InsertSame(init, l);
      assert b == init + [last];
    }
  }

  lemma InsertLast(b: seq<Line>, l: Line)
    requires ByName(b) && b != [] && Leq(b[|b| - 1].name, l.name)
    ensures ByName(b + [l])
  {
    forall i | 0 <= i < |b|
      ensures Leq(b[i].name, l.name)
    {
      if i < |b| - 1 {
        LeqTrans(b[i].name, b[|b| - 1].name, l.name);
      }
    }
  }

  /** No name in the list comes after this one. */
  predicate NoneAfter(b: seq<Line>, name: string) {
    forall k :: 0 <= k < |b| ==> Leq(b[k].name, name)
  }

  lemma {:induction false} InsertBelow(b: seq<Line>, l: Line, name: string)
    requires NoneAfter(b, name) && Leq(l.name, name)
    ensures NoneAfter(Insert(b, l), name)
  {
    if b == [] || Leq(b[|b| - 1].name, l.name) {
    } else {
      InsertBelow(b[..|b| - 1], l, name);
    }
  }

  lemma {:induction false} InsertByName(b: seq<Line>, l: Line)
    requires ByName(b)
    ensures ByName(Insert(b, l))
  {
    if b == [] {
    } else if Leq(b[|b| - 1].name, l.name) {
      InsertLast(b, l);
    } else {
      var init, last := b[..|b| - 1], b[|b| - 1];
      LeqTotal(last.name, l.name);
      InsertByName(init, l);
      InsertBelow(init, l, last.name);
    }
  }

  /** An order by name; lines with equal names may end up either way. */
  function SortByName(b: seq<Line>): seq<Line> {
    if b == [] then [] else Insert(SortByName(b[..|b| - 1]), b[|b| - 1])
  }

  lemma {:induction false} SortedByName(b: seq<Line>)
    ensures ByName(SortByName(b)) && multiset(SortByName(b)) == multiset(b)
  {
    if b == [] {
    } else {
      var init, last := b[..|b| - 1], b[|b| - 1];
      SortedByName(init);
      InsertByName(SortByName(init), last);
      InsertSame(SortByName(init), last);
      assert b == init + [last];
    }
  }

  method GroupRows(aggs: seq<Agg>) returns (perRes: map<Id, Totals>)
    ensures perRes.Keys == Ids(aggs)
    ensures forall id :: id in perRes ==> perRes[id] == SumOf(aggs, id)
  {
    perRes := map[];
    for k := 0 to |aggs|
      invariant perRes.Keys == Ids(aggs[..k])
      invariant forall id :: id in perRes ==> perRes[id] == SumOf(aggs[..k], id)
      invariant forall id :: id !in perRes ==> SumOf(aggs[..k], id) == Totals(0, 0, 0)
    {
      assert aggs[..k + 1][..k] == aggs[..k];
      assert Ids(aggs[..k + 1]) == Ids(aggs[..k]) + {aggs[k].resource};
      var a := aggs[k];
      var t := if a.resource in perRes then perRes[a.resource] else Totals(0, 0, 0);
      perRes := perRes[a.resource := Totals(t.up + a.up, t.counted + a.up + a.degraded + a.down, t.down + a.down)];
    }
    assert aggs[..|aggs|] == aggs;
  }

  method VisitGroups(resources: seq<Resource>, aggs: seq<Agg>, incidents: map<Id, nat>, perRes: map<Id, Totals>)
    returns (totUp: nat, totCounted: nat, downtimeSec: nat, breakdown: seq<Line>)
    requires perRes.Keys == Ids(aggs) && forall id :: id in perRes ==> perRes[id] == SumOf(aggs, id)
    ensures totUp == FlatUp(aggs, Ids(aggs)) && totCounted == FlatCounted(aggs, Ids(aggs))
    ensures downtimeSec == FlatDowntime(aggs, Ids(aggs), resources)
    ensures LinesFor(breakdown, resources, aggs, incidents, Ids(aggs))
  {
    totUp, totCounted, downtimeSec, breakdown := 0, 0, 0, [];
    var rest := perRes.Keys;
    ghost var seen: set<Id> := {};
    NothingVisited(aggs, resources);
    while rest != {}
      invariant seen + rest == perRes.Keys && seen !! rest
      invariant LinesFor(breakdown, resources, aggs, incidents, seen)
      invariant totUp == FlatUp(aggs, seen) && totCounted == FlatCounted(aggs, seen)
      invariant downtimeSec == FlatDowntime(aggs, seen, resources)
      decreases rest
    {
      var id :| id in rest;
      var ra := perRes[id];
      AddGroup(aggs, seen, id, resources);
      AddLine(breakdown, resources, aggs, incidents, seen, id);
      totUp, totCounted := totUp + ra.up, totCounted + ra.counted;
      downtimeSec := downtimeSec + ra.down * Interval(resources, id);
      breakdown := breakdown + [Line(Known(resources, id).name, Pct(ra), if id in incidents then incidents[id] else 0)];
      rest, seen := rest - {id}, seen + {id};
    }
    assert seen == Ids(aggs);
  }

  // ---------- The report of a series ----------

  /** What a day adds: its row if it has one. */
  function AggOf(t: Table, id: Id, d: int): seq<Agg> {
    if (id, d) in t then [Agg(id, t[(id, d)].up, 0, t[(id, d)].down)] else []
  }

  /** The stored rows of one resource as the report reads them. */
  function AggsFor(t: Table, id: Id, first: int, end: int): seq<Agg>
    requires first <= end
    decreases end - first
  {
    if first == end then [] else AggsFor(t, id, first, end - 1) + AggOf(t, id, end - 1)
  }

  function AggsForAll(t: Table, ids: seq<Id>, first: int, end: int): seq<Agg>
    requires first <= end
  {
    if ids == [] then []
    else AggsForAll(t, ids[..|ids| - 1], first, end) + AggsFor(t, ids[|ids| - 1], first, end)
  }

  function Add(a: (nat, nat, nat), b: (nat, nat, nat)): (nat, nat, nat) {
    (a.0 + b.0, a.1 + b.1, a.2 + b.2)
  }

  /** A count as it enters the totals. */
  function Weighed(r: Row, interval: nat): (nat, nat, nat) {
    (r.up, r.samples, r.down * interval)
  }

  /** Sums of direct recounts over the raw logs: ups, samples, and failed samples times the interval. */
  function RawTotals(logs: map<Id, seq<Activity>>, ids: seq<Id>, first: int, end: int, resources: seq<Resource>)
    : (nat, nat, nat)
  {
    if ids == [] then (0, 0, 0)
    else
      var n := |ids| - 1;
      Add(RawTotals(logs, ids[..n], first, end, resources), RawOf(logs, ids[n], first, end, resources))
  }

  function RawOf(logs: map<Id, seq<Activity>>, id: Id, first: int, end: int, resources: seq<Resource>)
    : (nat, nat, nat)
  {
    Weighed(Recount(if id in logs then logs[id] else [], first, end), Interval(resources, id))
  }

  /** The three totals of the report. */
  function FlatTotals(aggs: seq<Agg>, ids: set<Id>, resources: seq<Resource>): (nat, nat, nat) {
    (FlatUp(aggs, ids), FlatCounted(aggs, ids), FlatDowntime(aggs, ids, resources))
  }

  lemma {:induction false} FlatConcat(a: seq<Agg>, b: seq<Agg>, ids: set<Id>, resources: seq<Resource>)
    ensures FlatTotals(a + b, ids, resources) == Add(FlatTotals(a, ids, resources), FlatTotals(b, ids, resources))
  {
    if b == [] {
      assert a + b == a;
    } else {
      assert (a + b)[..|a + b| - 1] == a + b[..|b| - 1];
      FlatConcat(a, b[..|b| - 1], ids, resources);
    }
  }

  /** Summing over all resources that have rows is summing over any set that contains them. */
  lemma {:induction false} FlatWider(aggs: seq<Agg>, ids: set<Id>, wider: set<Id>, resources: seq<Resource>)
    requires Ids(aggs) <= ids && Ids(aggs) <= wider
    ensures FlatTotals(aggs, ids, resources) == FlatTotals(aggs, wider, resources)
  {
    if aggs == [] {
    } else {
      var n := |aggs| - 1;
      assert aggs[n].resource in Ids(aggs);
      forall x | x in Ids(aggs[..n])
        ensures x in Ids(aggs)
      {
        var k :| 0 <= k < n && aggs[..n][k].resource == x;
        assert aggs[k].resource == x;
      }
      FlatWider(aggs[..n], ids, wider, resources);
    }
  }

  lemma OneRow(aggs: seq<Agg>, a: Agg, ids: set<Id>, resources: seq<Resource>)
    requires a.resource in ids
    ensures FlatTotals(aggs + [a], ids, resources) ==
      Add(FlatTotals(aggs, ids, resources),
          (a.up, a.up + a.degraded + a.down, a.down * Interval(resources, a.resource)))
  {
    assert (aggs + [a])[..|aggs|] == aggs;
  }

  lemma WeighedPlus(a: Row, b: Row, interval: nat)
    ensures Weighed(Plus(a, b), interval) == Add(Weighed(a, interval), Weighed(b, interval))
  {
    assert (a.down + b.down) * interval == a.down * interval + b.down * interval;
  }

  lemma RowTotals(before: seq<Agg>, id: Id, r: Row, ids: set<Id>, resources: seq<Resource>)
    requires r.samples == r.up + r.down && id in ids
    ensures FlatTotals(before + [Agg(id, r.up, 0, r.down)], ids, resources) ==
      Add(FlatTotals(before, ids, resources), Weighed(r, Interval(resources, id)))
  {
    OneRow(before, Agg(id, r.up, 0, r.down), ids, resources);
  }

  lemma NothingWeighed(a: (nat, nat, nat), interval: nat)
    ensures Add(a, Weighed(Row(0, 0, 0), interval)) == a
  {}

  lemma NoRowTotals(before: seq<Agg>, ids: set<Id>, resources: seq<Resource>, interval: nat)
    ensures FlatTotals(before + [], ids, resources) ==
      Add(FlatTotals(before, ids, resources), Weighed(Row(0, 0, 0), interval))
  {
    assert before + [] == before;
    NothingWeighed(FlatTotals(before, ids, resources), interval);
  }

  lemma AggOfExact(t: Table, id: Id, log: seq<Activity>, d: int)
    requires ExactDay(t, id, log, d)
    ensures
      var r := DayCount(log, d);
      && r.samples == r.up + r.down
      && AggOf(t, id, d) == (if (id, d) in t then [Agg(id, r.up, 0, r.down)] else [])
      && ((id, d) !in t ==> r == Row(0, 0, 0))
  {
    SamplesSplit(log, d, d + 1);
  }

  lemma OneDay(t: Table, id: Id, log: seq<Activity>, d: int, before: seq<Agg>, ids: set<Id>, resources: seq<Resource>)
    requires ExactDay(t, id, log, d) && id in ids
    ensures FlatTotals(before + AggOf(t, id, d), ids, resources) ==
      Add(FlatTotals(before, ids, resources), Weighed(DayCount(log, d), Interval(resources, id)))
  {
    AggOfExact(t, id, log, d);
    if (id, d) in t {
      RowTotals(before, id, DayCount(log, d), ids, resources);
    } else {
      NoRowTotals(before, ids, resources, Interval(resources, id));
    }
  }

  /** One resource with exact rows contributes its recount. */
  lemma {:induction false} AggsMatchLog(
      t: Table, id: Id, log: seq<Activity>, first: int, end: int, ids: set<Id>, resources: seq<Resource>)
    requires first <= end && Exact(t, id, log, first, end) && id in ids
    ensures FlatTotals(AggsFor(t, id, first, end), ids, resources) ==
      Weighed(Recount(log, first, end), Interval(resources, id))
    decreases end - first
  {
    if first == end {
      EmptySpan(log, first);
    } else {
      var d := end - 1;
      AggsMatchLog(t, id, log, first, d, ids, resources);
      assert ExactDay(t, id, log, d);
      OneDay(t, id, log, d, AggsFor(t, id, first, d), ids, resources);
      RecountSpan(log, first, d, end);
      WeighedPlus(Recount(log, first, d), DayCount(log, d), Interval(resources, id));
    }
  }

  ghost predicate ExactIn(t: Table, id: Id, logs: map<Id, seq<Activity>>, first: int, end: int, all: set<Id>) {
    id in logs && id in all && Exact(t, id, logs[id], first, end)
  }

  ghost predicate AllExact(t: Table, ids: seq<Id>, logs: map<Id, seq<Activity>>, first: int, end: int, all: set<Id>) {
    ids == [] ||
    (AllExact(t, ids[..|ids| - 1], logs, first, end, all) && ExactIn(t, ids[|ids| - 1], logs, first, end, all))
  }

  lemma NextResource(t: Table, id: Id, logs: map<Id, seq<Activity>>, first: int, end: int, all: set<Id>,
                     resources: seq<Resource>, before: seq<Agg>)
    requires first <= end && ExactIn(t, id, logs, first, end, all)
    ensures FlatTotals(before + AggsFor(t, id, first, end), all, resources) ==
      Add(FlatTotals(before, all, resources), RawOf(logs, id, first, end, resources))
  {
    FlatConcat(before, AggsFor(t, id, first, end), all, resources);
    AggsMatchLog(t, id, logs[id], first, end, all, resources);
  }

  lemma AllAggsSnoc(t: Table, ids: seq<Id>, first: int, end: int)
    requires first <= end && ids != []
    ensures
      var n := |ids| - 1;
      AggsForAll(t, ids, first, end) == AggsForAll(t, ids[..n], first, end) + AggsFor(t, ids[n], first, end)
  {}

  lemma RawSnoc(logs: map<Id, seq<Activity>>, ids: seq<Id>, first: int, end: int, resources: seq<Resource>)
    requires ids != []
    ensures
      var n := |ids| - 1;
      RawTotals(logs, ids, first, end, resources) ==
        Add(RawTotals(logs, ids[..n], first, end, resources), RawOf(logs, ids[n], first, end, resources))
  {}

  lemma {:induction false} AllAggsMatchLogs(
      t: Table, ids: seq<Id>, logs: map<Id, seq<Activity>>, first: int, end: int, all: set<Id>,
      resources: seq<Resource>)
    requires first <= end && AllExact(t, ids, logs, first, end, all)
    ensures FlatTotals(AggsForAll(t, ids, first, end), all, resources) == RawTotals(logs, ids, first, end, resources)
  {
    if ids == [] {
    } else {
      var n := |ids| - 1;
      AllAggsMatchLogs(t, ids[..n], logs, first, end, all, resources);
      AllAggsSnoc(t, ids, first, end);
      RawSnoc(logs, ids, first, end, resources);
      NextResource(t, ids[n], logs, first, end, all, resources, AggsForAll(t, ids[..n], first, end));
    }
  }

  lemma {:induction false} AggsForIds(t: Table, id: Id, first: int, end: int)
    requires first <= end
    ensures forall a :: a in AggsFor(t, id, first, end) ==> a.resource == id
    decreases end - first
  {
    if first == end {
    } else {
      AggsForIds(t, id, first, end - 1);
    }
  }

  lemma {:induction false} AggsForAllIds(t: Table, ids: seq<Id>, first: int, end: int)
    requires first <= end
    ensures forall a :: a in AggsForAll(t, ids, first, end) ==> a.resource in ids
  {
    if ids == [] {
    } else {
      AggsForAllIds(t, ids[..|ids| - 1], first, end);
      AggsForIds(t, ids[|ids| - 1], first, end);
    }
  }

  lemma ExactSince(rounds: seq<Round>, id: Id, first: int, end: int, all: set<Id>)
    requires rounds != [] && Series(rounds, id) && id in all
    requires rounds[0].today - 1 <= first <= end <= rounds[|rounds| - 1].today + 1
    ensures ExactIn(AfterRounds(rounds), id, rounds[|rounds| - 1].logs, first, end, all)
  {
    SeriesIsExact(rounds, id);
    assert Covers(rounds[|rounds| - 1], id);
  }

  lemma {:induction false} AllExactSince(rounds: seq<Round>, ids: seq<Id>, first: int, end: int, all: set<Id>)
    requires rounds != [] && forall k :: 0 <= k < |rounds| ==> Listed(rounds[k])
    requires forall id :: id in ids ==> Series(rounds, id) && id in all
    requires rounds[0].today - 1 <= first <= end <= rounds[|rounds| - 1].today + 1
    ensures AllExact(AfterRounds(rounds), ids, rounds[|rounds| - 1].logs, first, end, all)
  {
    if ids == [] {
    } else {
      AllExactSince(rounds, ids[..|ids| - 1], first, end, all);
      ExactSince(rounds, ids[|ids| - 1], first, end, all);
    }
  }

  lemma RowsOnlyFor(t: Table, ids: seq<Id>, first: int, end: int, all: set<Id>)
    requires first <= end && forall id :: id in ids ==> id in all
    ensures Ids(AggsForAll(t, ids, first, end)) <= all
  {
    var aggs := AggsForAll(t, ids, first, end);
    AggsForAllIds(t, ids, first, end);
    forall x | x in Ids(aggs)
      ensures x in all
    {
      var k :| 0 <= k < |aggs| && aggs[k].resource == x;
      assert aggs[k] in aggs;
    }
  }

  /** The report end to end. After any series of runs with at least one on every day, while the logs fit,
      the totals the report computes from the stored rows of its resources over a covered period are sums
      of direct recounts of their raw logs. */
  lemma ReportMatchesLogs(rounds: seq<Round>, ids: seq<Id>, first: int, end: int, resources: seq<Resource>)
    requires rounds != [] && forall k :: 0 <= k < |rounds| ==> Listed(rounds[k])
    requires forall id :: id in ids ==> Series(rounds, id)
    requires rounds[0].today - 1 <= first <= end <= rounds[|rounds| - 1].today + 1
    ensures
      var aggs := AggsForAll(AfterRounds(rounds), ids, first, end);
      FlatTotals(aggs, Ids(aggs), resources) ==
        RawTotals(rounds[|rounds| - 1].logs, ids, first, end, resources)
  {
    var t, all := AfterRounds(rounds), set id | id in ids;
    AllExactSince(rounds, ids, first, end, all);
    AllAggsMatchLogs(t, ids, rounds[|rounds| - 1].logs, first, end, all, resources);
    RowsOnlyFor(t, ids, first, end, all);
    var aggs := AggsForAll(t, ids, first, end);
    FlatWider(aggs, Ids(aggs), all, resources);
  }

  /** The report: whatever order the groups are visited in, the totals are flat sums over all rows,
      and the breakdown has one line for each resource with rows, with that resource's name, percentage
      and incident count, in the order of the names. */
  method AggregatePeriod(resources: seq<Resource>, aggs: seq<Agg>, incidents: map<Id, nat>)
    returns (uptimePct: real, downtimeSec: nat, breakdown: seq<Line>)
    ensures
      var up, counted := FlatUp(aggs, Ids(aggs)), FlatCounted(aggs, Ids(aggs));
      uptimePct == if counted > 0 then 100.0 * up as real / counted as real else 0.0
    ensures downtimeSec == FlatDowntime(aggs, Ids(aggs), resources)
    ensures LinesFor(breakdown, resources, aggs, incidents, Ids(aggs)) && ByName(breakdown)
  {
    var perRes := GroupRows(aggs);
    var totUp, totCounted, lines;
    totUp, totCounted, downtimeSec, lines := VisitGroups(resources, aggs, incidents, perRes);
    breakdown := SortByName(lines);
    SortedByName(lines);
    uptimePct := if totCounted > 0 then 100.0 * totUp as real / totCounted as real else 0.0;
  }
}
