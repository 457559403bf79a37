/** The status page's daily history (internal/service/statuspage_analytics.go): activities and
    incidents are filtered to the period once and then classified day by day. Days are the
    windows between consecutive boundaries. */
module DayWindows {
  import opened Wrappers

  datatype Activity = Activity(at: int, success: bool)
  datatype Incident = Incident(start: int, resolved: Option<int>)

  function EndOf(i: Incident, now: int): int {
    if i.resolved.Some? then i.resolved.value else now
  }

  ghost predicate Increasing(b: seq<int>) {
    forall i, j :: 0 <= i < j < |b| ==> b[i] < b[j]
  }

  // ---------- Windows partition time ----------

  predicate InWindow(at: int, start: int, end: int) {
    start <= at < end
  }

  lemma {:induction false} FindWindow(b: seq<int>, at: int) returns (w: nat)
    requires |b| >= 2 && b[0] <= at < b[|b| - 1]
    ensures w + 1 < |b| && InWindow(at, b[w], b[w + 1])
  {
    if at >= b[|b| - 2] {
      w := |b| - 2;
    } else {
      w := FindWindow(b[..|b| - 1], at);
    }
  }

  /** Every moment of the period lies in exactly one day. */
  lemma ExactlyOneWindow(b: seq<int>, at: int) returns (w: nat)
    requires |b| >= 2 && Increasing(b) && b[0] <= at < b[|b| - 1]
    ensures w + 1 < |b|
    ensures forall i :: 0 <= i < |b| - 1 ==> (InWindow(at, b[i], b[i + 1]) <==> i == w)
  {
    w := FindWindow(b, at);
    forall i | 0 <= i < |b| - 1
      ensures InWindow(at, b[i], b[i + 1]) <==> i == w
    {
      if i < w {
        assert b[i + 1] <= b[w];
      } else if i > w {
        assert b[w + 1] <= b[i];
      }
    }
  }

  function Min(a: int, b: int): int {
    if a < b then a else b
  }

  function Max(a: int, b: int): int {
    if a < b then b else a
  }

  /** Time an incident spends in a window, as `classifyDayIncidents` clips it. */
  function Overlap(i: Incident, now: int, start: int, end: int): int {
    if !(i.start < end) || !(EndOf(i, now) > start) then 0
    else Min(EndOf(i, now), end) - Max(i.start, start)
  }

  function TotalOverlap(i: Incident, now: int, b: seq<int>): int {
    if |b| < 2 then 0
    else TotalOverlap(i, now, b[..|b| - 1]) + Overlap(i, now, b[|b| - 2], b[|b| - 1])
  }

  lemma OverlapBounds(i: Incident, now: int, start: int, end: int)
    requires i.start <= EndOf(i, now) && start < end
    ensures 0 <= Overlap(i, now, start, end) <= end - start
  {}

  lemma OverlapSplits(i: Incident, now: int, start: int, mid: int, end: int)
    requires i.start <= EndOf(i, now) && start <= mid <= end
    ensures Overlap(i, now, start, end) == Overlap(i, now, start, mid) + Overlap(i, now, mid, end)
  {}

  /** The daily overlaps of an incident add up to its overlap with the whole period. */
  lemma {:induction false} OverlapsAddUp(i: Incident, now: int, b: seq<int>)
    requires |b| >= 1 && Increasing(b) && i.start <= EndOf(i, now)
    ensures TotalOverlap(i, now, b) == Overlap(i, now, b[0], b[|b| - 1])
  {
    if |b| < 2 {
    } else {
      var init := b[..|b| - 1];
      OverlapsAddUp(i, now, init);
      assert init[|init| - 1] == b[|b| - 2] && init[0] == b[0];
      OverlapSplits(i, now, b[0], b[|b| - 2], b[|b| - 1]);
    }
  }

  // ---------- Classifying a day ----------

  /** The incident touches the day. */
  predicate Touches(i: Incident, now: int, start: int, end: int) {
    i.start < end && EndOf(i, now) > start
  }

  /** It takes more than half of it. */
  predicate Major(i: Incident, now: int, start: int, end: int) {
    Touches(i, now, start, end) && Overlap(i, now, start, end) > (end - start) / 2
  }

  predicate Minor(i: Incident, now: int, start: int, end: int) {
    Touches(i, now, start, end) && Overlap(i, now, start, end) <= (end - start) / 2
  }

  ghost predicate AnyMajor(incs: seq<Incident>, now: int, start: int, end: int) {
    exists k :: 0 <= k < |incs| && Major(incs[k], now, start, end)
  }

  ghost predicate AnyMinor(incs: seq<Incident>, now: int, start: int, end: int) {
    exists k :: 0 <= k < |incs| && Minor(incs[k], now, start, end)
  }

  method ClassifyDayIncidents(start: int, end: int, incs: seq<Incident>, now: int)
    returns (hasMajor: bool, hasMinor: bool)
    ensures hasMajor <==> AnyMajor(incs, now, start, end)
    ensures hasMinor <==> AnyMinor(incs, now, start, end)
  {
    hasMajor, hasMinor := false, false;
    for k := 0 to |incs|
      invariant hasMajor <==> exists i :: 0 <= i < k && Major(incs[i], now, start, end)
      invariant hasMinor <==> exists i :: 0 <= i < k && Minor(incs[i], now, start, end)
    {
      var incidentEnd := EndOf(incs[k], now);
      if !(incs[k].start < end) || !(incidentEnd > start) {
        continue;
      }
      var overlapStart := if incs[k].start < start then start else incs[k].start;
      var overlapEnd := if incidentEnd > end then end else incidentEnd;
      if overlapEnd - overlapStart > (end - start) / 2 {
        hasMajor := true;
      } else {
        hasMinor := true;
      }
    }
  }

  function InWindowOf(acts: seq<Activity>, start: int, end: int): seq<Activity> {
    if acts == [] then []
    else InWindowOf(acts[..|acts| - 1], start, end) +
         (if InWindow(acts[|acts| - 1].at, start, end) then [acts[|acts| - 1]] else [])
  }

  method ActivitiesInWindow(acts: seq<Activity>, start: int, end: int) returns (result: seq<Activity>)
    ensures result == InWindowOf(acts, start, end)
  {
    result := [];
    for k := 0 to |acts|
      invariant result == InWindowOf(acts[..k], start, end)
    {
      assert acts[..k + 1][..k] == acts[..k];
      if !(acts[k].at < start) && acts[k].at < end {
        result := result + [acts[k]];
      }
    }
    assert acts[..|acts|] == acts;
  }

  function Successes(acts: seq<Activity>): nat {
    if acts == [] then 0
    else Successes(acts[..|acts| - 1]) + (if acts[|acts| - 1].success then 1 else 0)
  }

  datatype DayStatus = NoData | IsUp | IsDegraded | IsDown

  /** The status of a day from all activities and incidents. Rates are compared exactly. */
  ghost function StatusOf(acts: seq<Activity>, incs: seq<Incident>, now: int, start: int, end: int): DayStatus {
    var day := InWindowOf(acts, start, end);
    var minor := AnyMinor(incs, now, start, end);
    if AnyMajor(incs, now, start, end) then IsDown
    else if day == [] then (if minor then IsDegraded else IsUp)
    else if 100 * Successes(day) < 50 * |day| then IsDown
    else if 100 * Successes(day) < 95 * |day| || minor then IsDegraded
    else IsUp
  }

  method CountSuccesses(acts: seq<Activity>) returns (n: nat)
    ensures n == Successes(acts)
  {
    n := 0;
    for k := 0 to |acts|
      invariant n == Successes(acts[..k])
    {
      assert acts[..k + 1][..k] == acts[..k];
      if acts[k].success {
        n := n + 1;
      }
    }
    assert acts[..|acts|] == acts;
  }

  method CalculateDayStatus(start: int, end: int, acts: seq<Activity>, incs: seq<Incident>, now: int)
    returns (status: DayStatus)
    ensures status == StatusOf(acts, incs, now, start, end)
  {
    var hasMajor, hasMinor := ClassifyDayIncidents(start, end, incs, now);
    if hasMajor {
      return IsDown;
    }
    var day := ActivitiesInWindow(acts, start, end);
    if |day| == 0 {
      return if hasMinor then IsDegraded else IsUp;
    }
    var n := CountSuccesses(day);
    if 100 * n < 50 * |day| {
      return IsDown;
    }
    if 100 * n < 95 * |day| || hasMinor {
      return IsDegraded;
    }
    status := IsUp;
  }

  // ---------- What a day's status means ----------

  /** The positions of the activities of a day, and of the successful ones. */
  function DayPositions(acts: seq<Activity>, start: int, end: int): set<nat> {
    set k: nat | k < |acts| && start <= acts[k].at && acts[k].at < end
  }

  function SuccessPositions(acts: seq<Activity>, start: int, end: int): set<nat> {
    set k: nat | k < |acts| && start <= acts[k].at && acts[k].at < end && acts[k].success
  }

  lemma DayPositionsStep(acts: seq<Activity>, start: int, end: int)
    requires acts != []
    ensures
      var n := |acts| - 1;
      |DayPositions(acts, start, end)| ==
        |DayPositions(acts[..n], start, end)| + if start <= acts[n].at && acts[n].at < end then 1 else 0
  {
    var n := |acts| - 1;
    var before, after := DayPositions(acts[..n], start, end), DayPositions(acts, start, end);
    if start <= acts[n].at && acts[n].at < end {
      assert after == before + {n} && n !in before;
    } else {
      assert after == before;
    }
  }

  lemma SuccessPositionsStep(acts: seq<Activity>, start: int, end: int)
    requires acts != []
    ensures
      var n := |acts| - 1;
      |SuccessPositions(acts, start, end)| ==
        |SuccessPositions(acts[..n], start, end)| +
        if start <= acts[n].at && acts[n].at < end && acts[n].success then 1 else 0
  {
    var n := |acts| - 1;
    var before, after := SuccessPositions(acts[..n], start, end), SuccessPositions(acts, start, end);
    if start <= acts[n].at && acts[n].at < end && acts[n].success {
      assert after == before + {n} && n !in before;
    } else {
      assert after == before;
    }
  }

  lemma SuccessesAppend(acts: seq<Activity>, a: Activity)
    ensures Successes(acts + [a]) == Successes(acts) + if a.success then 1 else 0
  {
    assert (acts + [a])[..|acts|] == acts;
  }

  /** The day's activities and its successes are as many as there are such positions. */
  lemma {:induction false} DayCounts(acts: seq<Activity>, start: int, end: int)
    ensures |InWindowOf(acts, start, end)| == |DayPositions(acts, start, end)|
    ensures Successes(InWindowOf(acts, start, end)) == |SuccessPositions(acts, start, end)|
  {
    if acts == [] {
      assert DayPositions(acts, start, end) == {} && SuccessPositions(acts, start, end) == {};
    } else {
      var n := |acts| - 1;
      DayCounts(acts[..n], start, end);
      DayPositionsStep(acts, start, end);
      SuccessPositionsStep(acts, start, end);
      var before := InWindowOf(acts[..n], start, end);
      SuccessesAppend(before, acts[n]);
      assert before + [] == before;
    }
  }

  /** The incident is open at some time of the day. */
  predicate OpenDuring(i: Incident, now: int, start: int, end: int) {
    i.start < end && (if i.resolved.Some? then i.resolved.value > start else now > start)
  }

  /** How long it is open during the day. */
  function OpenFor(i: Incident, now: int, start: int, end: int): int {
    var until := if i.resolved.Some? then i.resolved.value else now;
    (if until > end then end else until) - (if i.start < start then start else i.start)
  }

  lemma MajorMeaning(i: Incident, now: int, start: int, end: int)
    requires start < end
    ensures Major(i, now, start, end) <==>
      OpenDuring(i, now, start, end) && 2 * OpenFor(i, now, start, end) > end - start
    ensures Minor(i, now, start, end) <==>
      OpenDuring(i, now, start, end) && 2 * OpenFor(i, now, start, end) <= end - start
  {}

  /** The status of a day: down exactly when some incident is open for more than half of it or fewer than
      half of its checks succeeded; up exactly when no incident is open during it and it has no checks or
      at least 95 percent of them succeeded; degraded in between. */
  lemma StatusMeaning(acts: seq<Activity>, incs: seq<Incident>, now: int, start: int, end: int)
    requires start < end
    ensures
      var status, n, ok := StatusOf(acts, incs, now, start, end), |DayPositions(acts, start, end)|,
        |SuccessPositions(acts, start, end)|;
      && (status == IsDown <==>
           || (exists k :: 0 <= k < |incs| && OpenDuring(incs[k], now, start, end) &&
                           2 * OpenFor(incs[k], now, start, end) > end - start)
           || 2 * ok < n)
      && (status == IsUp <==>
           && (forall k :: 0 <= k < |incs| ==> !OpenDuring(incs[k], now, start, end))
           && 100 * ok >= 95 * n)
      && status != NoData
  {
    DayCounts(acts, start, end);
    SuccessesBound(InWindowOf(acts, start, end));
    forall k | 0 <= k < |incs|
      ensures Major(incs[k], now, start, end) <==>
        OpenDuring(incs[k], now, start, end) && 2 * OpenFor(incs[k], now, start, end) > end - start
      ensures Minor(incs[k], now, start, end) <==>
        OpenDuring(incs[k], now, start, end) && 2 * OpenFor(incs[k], now, start, end) <= end - start
    {
      MajorMeaning(incs[k], now, start, end);
    }
  }

  // ---------- Filtering first ----------

  function Since(acts: seq<Activity>, since: int): seq<Activity> {
    if acts == [] then []
    else Since(acts[..|acts| - 1], since) + (if !(acts[|acts| - 1].at < since) then [acts[|acts| - 1]] else [])
  }

  predicate Kept(i: Incident, since: int) {
    i.start > since || (i.resolved.Some? && i.resolved.value > since) || i.resolved.None?
  }

  function KeptOf(incs: seq<Incident>, since: int): seq<Incident> {
    if incs == [] then []
    else KeptOf(incs[..|incs| - 1], since) + (if Kept(incs[|incs| - 1], since) then [incs[|incs| - 1]] else [])
  }

  method FilterActivitiesSince(acts: seq<Activity>, since: int) returns (filtered: seq<Activity>)
    ensures filtered == Since(acts, since)
  {
    filtered := [];
    for k := 0 to |acts|
      invariant filtered == Since(acts[..k], since)
    {
      assert acts[..k + 1][..k] == acts[..k];
      if !(acts[k].at < since) {
        filtered := filtered + [acts[k]];
      }
    }
    assert acts[..|acts|] == acts;
  }

  method FilterIncidentsOverlapping(incs: seq<Incident>, since: int) returns (filtered: seq<Incident>)
    ensures filtered == KeptOf(incs, since)
  {
    filtered := [];
    for k := 0 to |incs|
      invariant filtered == KeptOf(incs[..k], since)
    {
      assert incs[..k + 1][..k] == incs[..k];
      if Kept(incs[k], since) {
        filtered := filtered + [incs[k]];
      }
    }
    assert incs[..|incs|] == incs;
  }

  lemma {:induction false} SinceKeepsWindow(acts: seq<Activity>, since: int, start: int, end: int)
    requires since <= start
    ensures InWindowOf(Since(acts, since), start, end) == InWindowOf(acts, start, end)
  {
    if acts == [] {
    } else {
      var init, a := acts[..|acts| - 1], acts[|acts| - 1];
      SinceKeepsWindow(init, since, start, end);
      if !(a.at < since) {
        assert Since(acts, since)[..|Since(init, since)|] == Since(init, since);
      } else {
        assert Since(acts, since) == Since(init, since);
      }
    }
  }

  lemma {:induction false} KeptMembers(incs: seq<Incident>, since: int, i: Incident)
    ensures i in KeptOf(incs, since) <==> i in incs && Kept(i, since)
  {
    if incs == [] {
    } else {
      KeptMembers(incs[..|incs| - 1], since, i);
      assert i in incs <==> i in incs[..|incs| - 1] || i == incs[|incs| - 1];
    }
  }

  lemma KeptClassification(incs: seq<Incident>, now: int, since: int, start: int, end: int)
    requires since <= start
    ensures AnyMajor(KeptOf(incs, since), now, start, end) <==> AnyMajor(incs, now, start, end)
    ensures AnyMinor(KeptOf(incs, since), now, start, end) <==> AnyMinor(incs, now, start, end)
  {
    var kept := KeptOf(incs, since);
    forall k | 0 <= k < |incs| && Touches(incs[k], now, start, end)
      ensures incs[k] in kept
    {
      KeptMembers(incs, since, incs[k]);
    }
    forall k | 0 <= k < |kept|
      ensures kept[k] in incs
    {
      KeptMembers(incs, since, kept[k]);
    }
  }

  lemma FilteredStatus(acts: seq<Activity>, incs: seq<Incident>, now: int, since: int, start: int, end: int)
    requires since <= start
    ensures StatusOf(Since(acts, since), KeptOf(incs, since), now, start, end) == StatusOf(acts, incs, now, start, end)
  {
    SinceKeepsWindow(acts, since, start, end);
    KeptClassification(incs, now, since, start, end);
  }

  /** A day before the resource existed has no data; any other has the status of all the data. */
  ghost predicate DayRight(
      status: DayStatus, createdAt: int, acts: seq<Activity>, incs: seq<Incident>, now: int, start: int, end: int)
  {
    && (status == NoData <==> start < createdAt)
    && (start >= createdAt ==> status == StatusOf(acts, incs, now, start, end))
  }

  /** The share of successful activities in percent; 100 when there are none. */
  function Percentage(acts: seq<Activity>): real {
    if acts == [] then 100.0 else Successes(acts) as real / |acts| as real * 100.0
  }

  method CalcUptimePercentage(acts: seq<Activity>) returns (pct: real)
    ensures pct == Percentage(acts)
    ensures 0.0 <= pct <= 100.0
    ensures pct == 100.0 <==> forall k :: 0 <= k < |acts| ==> acts[k].success
    ensures pct * |acts| as real == 100.0 * Successes(acts) as real
  {
    SuccessesBound(acts);
    if |acts| == 0 {
      return 100.0;
    }
    var success := CountSuccesses(acts);
    pct := success as real / |acts| as real * 100.0;
    ShareBounds(success, |acts|);
    ShareTimes(success as real, |acts| as real);
  }

  lemma ShareBounds(n: nat, total: nat)
    requires n <= total && total > 0
    ensures 0.0 <= n as real / total as real <= 1.0
    ensures n as real / total as real == 1.0 <==> n == total
  {}

  lemma ShareTimes(n: real, total: real)
    requires total > 0.0
    ensures n / total * 100.0 * total == 100.0 * n
  {
    assert n / total * total == n;
  }

  lemma {:induction false} SuccessesBound(acts: seq<Activity>)
    ensures Successes(acts) <= |acts|
    ensures Successes(acts) == |acts| <==> forall k :: 0 <= k < |acts| ==> acts[k].success
  {
    if acts == [] {
    } else {
      var init := acts[..|acts| - 1];
      SuccessesBound(init);
      assert forall k :: 0 <= k < |init| ==> init[k] == acts[k];
    }
  }

  /** The activities of the period are the ones in its days and the ones after its last day. */
  lemma {:induction false} SinceIsWindow(acts: seq<Activity>, since: int, end: int)
    requires forall k :: 0 <= k < |acts| ==> acts[k].at < end
    ensures Since(acts, since) == InWindowOf(acts, since, end)
  {
    if acts == [] {
    } else {
      SinceIsWindow(acts[..|acts| - 1], since, end);
    }
  }

  predicate AllBefore(acts: seq<Activity>, end: int) {
    forall k :: 0 <= k < |acts| ==> acts[k].at < end
  }

  lemma SinceWithin(acts: seq<Activity>, since: int, end: int)
    ensures AllBefore(acts, end) ==> Since(acts, since) == InWindowOf(acts, since, end)
  {
    if AllBefore(acts, end) {
      SinceIsWindow(acts, since, end);
    }
  }

  /** The daily history and the uptime percentage: filtering activities and incidents to the period
      first changes no day, and the percentage is the share of successes among the activities since
      the start of the period, which are those in the period when none is later. */
  method Calculate90DayData(b: seq<int>, createdAt: int, acts: seq<Activity>, incs: seq<Incident>, now: int)
    returns (pct: real, daily: seq<DayStatus>)
    requires |b| >= 1 && Increasing(b)
    ensures pct == Percentage(Since(acts, b[0]))
    ensures AllBefore(acts, b[|b| - 1]) ==> pct == Percentage(InWindowOf(acts, b[0], b[|b| - 1]))
    ensures |daily| == |b| - 1
    ensures forall i :: 0 <= i < |daily| ==> DayRight(daily[i], createdAt, acts, incs, now, b[i], b[i + 1])
  {
    var filtered := FilterActivitiesSince(acts, b[0]);
    var overlapping := FilterIncidentsOverlapping(incs, b[0]);
    pct := CalcUptimePercentage(filtered);
    SinceWithin(acts, b[0], b[|b| - 1]);
    daily := [];
    for i := 0 to |b| - 1
      invariant |daily| == i
      invariant forall k :: 0 <= k < i ==> DayRight(daily[k], createdAt, acts, incs, now, b[k], b[k + 1])
    {
      var status := DayEntry(b[0], b[i], b[i + 1], createdAt, filtered, overlapping, now, acts, incs);
      daily := daily + [status];
    }
  }

  method DayEntry(since: int, start: int, end: int, createdAt: int, filtered: seq<Activity>, overlapping: seq<Incident>,
                  now: int, ghost acts: seq<Activity>, ghost incs: seq<Incident>)
    returns (status: DayStatus)
    requires since <= start < end && filtered == Since(acts, since) && overlapping == KeptOf(incs, since)
    ensures DayRight(status, createdAt, acts, incs, now, start, end)
  {
    if start < createdAt {
      return NoData;
    }
    status := CalculateDayStatus(start, end, filtered, overlapping, now);
    FilteredStatus(acts, incs, now, since, start, end);
    StatusMeaning(acts, incs, now, start, end);
  }

  // ---------- Recent events ----------

  datatype Event = Event(timestamp: int, reason: string)

  /** The first n events are in order and no later event is newer than any of them. */
  ghost predicate Descending(s: seq<Event>, n: nat)
    requires n <= |s|
  {
    forall i, j :: 0 <= i < n && i < j < |s| ==> s[i].timestamp >= s[j].timestamp
  }

  ghost predicate NewestOf(s: seq<Event>, i: nat, j: nat)
    requires i < j <= |s|
  {
    forall k :: i < k < j ==> s[i].timestamp >= s[k].timestamp
  }

  function Swapped(s: seq<Event>, i: nat, j: nat): seq<Event>
    requires i < |s| && j < |s|
  {
    s[i := s[j]][j := s[i]]
  }

  lemma SwapKeeps(s: seq<Event>, i: nat, j: nat)
    requires i < j < |s| && Descending(s, i) && NewestOf(s, i, j)
    ensures multiset(Swapped(s, i, j)) == multiset(s)
    ensures Descending(Swapped(s, i, j), i)
    ensures s[i].timestamp < s[j].timestamp ==> NewestOf(Swapped(s, i, j), i, j + 1)
  {}

  /** The exchange sort of the event list: newest first, the same events. */
  method SortEventsDescending(events: array<Event>)
    modifies events
    ensures Descending(events[..], events.Length)
    ensures multiset(events[..]) == multiset(old(events[..]))
  {
    var i := 0;
    while i < events.Length - 1
      invariant 0 <= i <= events.Length
      invariant Descending(events[..], i)
      invariant multiset(events[..]) == multiset(old(events[..]))
    {
      for j := i + 1 to events.Length
        invariant Descending(events[..], i) && NewestOf(events[..], i, j)
        invariant multiset(events[..]) == multiset(old(events[..]))
      {
        if events[i].timestamp < events[j].timestamp {
          ghost var s := events[..];
          SwapKeeps(s, i, j);
          events[i], events[j] := events[j], events[i];
          assert events[..] == Swapped(s, i, j);
        }
      }
      i := i + 1;
    }
  }
}
