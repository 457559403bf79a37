/** The incident rows of one resource and the service that opens, resolves and reminds
    about them (internal/monitoring/incident_service.go).

    Rows are kept in creation order; a row's index is its ID. The repository's listing is
    newest first. Repository failures are inputs. */
module Incidents {
  import opened Wrappers

  /** `lastAlert` is the creation time of the incident's latest "down alert" event step;
      `reminders` are the times at which reminder rounds were dispatched. */
  datatype Incident = Incident(
    startedAt: int, resolvedAt: Option<int>, lastAlert: Option<int>, reminders: seq<int>)

  predicate Open(i: Incident) {
    i.resolvedAt.None?
  }

  /** IDs returned by `FindByResource` with the given limit: newest first. */
  function Newest(n: nat, limit: nat): (ids: seq<nat>)
    ensures |ids| == if limit < n then limit else n
    ensures forall k :: 0 <= k < |ids| ==> ids[k] == n - 1 - k
  {
    var m := if limit < n then limit else n;
    seq(m, k requires 0 <= k < m => n - 1 - k)
  }

  predicate ValidIds(s: seq<Incident>, ids: seq<nat>) {
    forall k :: 0 <= k < |ids| ==> ids[k] < |s|
  }

  /** The latest-starting unresolved incident among `ids`; the first listed wins a tie. */
  function PickActive(s: seq<Incident>, ids: seq<nat>): (r: Option<nat>)
    requires ValidIds(s, ids)
    ensures r.None? <==> forall k :: 0 <= k < |ids| ==> !Open(s[ids[k]])
    ensures r.Some? ==> r.value in ids && Open(s[r.value])
    ensures r.Some? ==>
      forall k :: 0 <= k < |ids| && Open(s[ids[k]]) ==> s[ids[k]].startedAt <= s[r.value].startedAt
  {
    if ids == [] then None
    else
      var last := ids[|ids| - 1];
      var best := PickActive(s, ids[..|ids| - 1]);
      if Open(s[last]) && (best.None? || s[last].startedAt > s[best.value].startedAt)
      then Some(last) else best
  }

  /** The first unresolved incident in listing order. */
  function FirstOpen(s: seq<Incident>, ids: seq<nat>): (r: Option<nat>)
    requires ValidIds(s, ids)
    ensures r.None? <==> forall k :: 0 <= k < |ids| ==> !Open(s[ids[k]])
    ensures r.Some? ==>
      exists k :: 0 <= k < |ids| && ids[k] == r.value && Open(s[ids[k]]) && forall i :: 0 <= i < k ==> !Open(s[ids[i]])
  {
    if ids == [] then None
    else if Open(s[ids[0]]) then Some(ids[0])
    else FirstOpen(s, ids[1..])
  }

  function ResolveAt(s: seq<Incident>, id: Option<nat>, now: int): seq<Incident>
    requires id.Some? ==> id.value < |s|
  {
    if id.None? then s else s[id.value := s[id.value].(resolvedAt := Some(now))]
  }

  /** Whether the listing, the insert and the lookup of an earlier down alert succeed, and whether at
      least one down-alert step is written (some channel is configured and its step is stored). */
  datatype CreateFaults = CreateFaults(listOk: bool, insertOk: bool, lookupOk: bool, alerted: bool)
  datatype ResolveFaults = ResolveFaults(listOk: bool, updateOk: bool)
  datatype RemindFaults = RemindFaults(listOk: bool, stepReadOk: bool, anchored: bool)

  /** `CreateIncident`: looks at the single newest row. */
  function Created(s: seq<Incident>, now: int, f: CreateFaults): seq<Incident> {
    if !f.listOk || (s != [] && Open(s[|s| - 1])) || !f.insertOk then s
    else s + [Incident(now, None, if f.lookupOk && f.alerted then Some(now) else None, [])]
  }

  /** `ResolveIncident`: looks at the ten newest rows. */
  function Resolved(s: seq<Incident>, now: int, f: ResolveFaults): seq<Incident> {
    if !f.listOk || !f.updateOk then s
    else ResolveAt(s, PickActive(s, Newest(|s|, 10)), now)
  }

  /** Go's conversion of a duration in seconds to whole minutes truncates toward zero. */
  function WholeMinutes(seconds: int): int {
    if seconds >= 0 then seconds / 60 else -((-seconds) / 60)
  }

  predicate ReminderDue(i: Incident, now: int, minutes: int) {
    i.lastAlert.Some? && WholeMinutes(now - i.lastAlert.value) >= minutes
  }

  function RemindedRow(i: Incident, now: int, anchored: bool): Incident {
    i.(reminders := i.reminders + [now], lastAlert := if anchored then Some(now) else i.lastAlert)
  }

  /** `SendReminderIfDue`. */
  function Reminded(s: seq<Incident>, now: int, minutes: int, f: RemindFaults): seq<Incident> {
    if minutes <= 0 || !f.listOk then s
    else
      var a := PickActive(s, Newest(|s|, 10));
      if a.None? || !f.stepReadOk || !ReminderDue(s[a.value], now, minutes) then s
      else s[a.value := RemindedRow(s[a.value], now, f.anchored)]
  }

  /** `HandleHeartbeatRecovery` and `DeleteResource`: first unresolved row of the ten newest,
      and of all rows (`FindActiveByResourceID`). */
  function Recovered(s: seq<Incident>, now: int, f: ResolveFaults): seq<Incident> {
    if !f.listOk || !f.updateOk then s else ResolveAt(s, FirstOpen(s, Newest(|s|, 10)), now)
  }

  function Closed(s: seq<Incident>, now: int, f: ResolveFaults): seq<Incident> {
    if !f.listOk || !f.updateOk then s else ResolveAt(s, FirstOpen(s, Newest(|s|, |s|)), now)
  }

  class IncidentService {
    var incidents: seq<Incident>

    constructor ()
      ensures incidents == []
    {
      incidents := [];
    }

    method FindByResource(limit: nat) returns (ids: seq<nat>)
      ensures ids == Newest(|incidents|, limit)
      ensures ValidIds(incidents, ids)
    {
      ids := Newest(|incidents|, limit);
    }

    predicate HasOpenNewest()
      reads this
    {
      incidents != [] && Open(incidents[|incidents| - 1])
    }

    /** An error can come after the insert: when the lookup of an earlier down alert fails, the incident
        is stored without an alert. */
    method CreateIncident(now: int, f: CreateFaults) returns (ok: bool)
      modifies this
      ensures incidents == Created(old(incidents), now, f)
      ensures ok <==> f.listOk && (old(HasOpenNewest()) || (f.insertOk && f.lookupOk))
    {
      if !f.listOk {
        return false;
      }
      var ids := FindByResource(1);
      assert |ids| <= 1;
      for k := 0 to |ids|
        invariant forall j :: 0 <= j < k ==> !Open(incidents[ids[j]])
        invariant incidents == old(incidents)
      {
        if Open(incidents[ids[k]]) {
          return true;
        }
      }
      assert incidents != [] ==> ids[0] == |incidents| - 1;
      if !f.insertOk {
        return false;
      }
      incidents := incidents + [Incident(now, None, None, [])];
      if !f.lookupOk {
        return false;
      }
      if f.alerted {
        var n := |incidents| - 1;
        incidents := incidents[n := incidents[n].(lastAlert := Some(now))];
      }
      ok := true;
    }

    method FindActiveIncident() returns (active: Option<nat>)
      ensures active == PickActive(incidents, Newest(|incidents|, 10))
    {
      var ids := FindByResource(10);
      active := None;
      for k := 0 to |ids|
        invariant active == PickActive(incidents, ids[..k])
      {
        assert ids[..k + 1][..k] == ids[..k];
        var id := ids[k];
        if Open(incidents[id]) && (active.None? || incidents[id].startedAt > incidents[active.value].startedAt) {
          active := Some(id);
        }
      }
      assert ids[..|ids|] == ids;
    }

    method ResolveIncident(now: int, f: ResolveFaults) returns (ok: bool)
      modifies this
      ensures incidents == Resolved(old(incidents), now, f)
    {
      if !f.listOk {
        return false;
      }
      var active := FindActiveIncident();
      if active.None? {
        return true;
      }
      if !f.updateOk {
        return false;
      }
      incidents := incidents[active.value := incidents[active.value].(resolvedAt := Some(now))];
      ok := true;
    }

    method SendReminderIfDue(now: int, minutes: int, f: RemindFaults)
      modifies this
      ensures incidents == Reminded(old(incidents), now, minutes, f)
    {
      if minutes <= 0 || !f.listOk {
        return;
      }
      var active := FindActiveIncident();
      if active.None? || !f.stepReadOk {
        return;
      }
      var row := incidents[active.value];
      if row.lastAlert.None? || WholeMinutes(now - row.lastAlert.value) < minutes {
        return;
      }
      incidents := incidents[active.value := RemindedRow(row, now, f.anchored)];
    }

    method HandleHeartbeatRecovery(now: int, f: ResolveFaults)
      modifies this
      ensures incidents == Recovered(old(incidents), now, f)
    {
      if !f.listOk {
        return;
      }
      var ids := FindByResource(10);
      for k := 0 to |ids|
        invariant incidents == old(incidents)
        invariant FirstOpen(incidents, ids) == FirstOpen(incidents, ids[k..])
      {
        if Open(incidents[ids[k]]) {
          if f.updateOk {
            incidents := incidents[ids[k] := incidents[ids[k]].(resolvedAt := Some(now))];
          }
          return;
        }
      }
    }

    /** The part of `DeleteResource` that resolves the active incident. */
    method ResolveBeforeDelete(now: int, f: ResolveFaults)
      modifies this
      ensures incidents == Closed(old(incidents), now, f)
    {
      if !f.listOk {
        return;
      }
      var active := FirstOpen(incidents, Newest(|incidents|, |incidents|));
      if active.Some? && f.updateOk {
        incidents := incidents[active.value := incidents[active.value].(resolvedAt := Some(now))];
      }
    }
  }

  /** At most one unresolved incident, and it is the newest. */
  ghost predicate SingleOpen(s: seq<Incident>) {
    forall i :: 0 <= i < |s| - 1 ==> !Open(s[i])
  }

  ghost predicate HasOpen(s: seq<Incident>) {
    exists i :: 0 <= i < |s| && Open(s[i])
  }

  lemma OpenIsNewest(s: seq<Incident>)
    requires SingleOpen(s)
    ensures HasOpen(s) <==> s != [] && Open(s[|s| - 1])
    ensures PickActive(s, Newest(|s|, 10)) == if HasOpen(s) then Some(|s| - 1) else None
  {
    if s != [] {
      assert Newest(|s|, 10)[0] == |s| - 1;
    }
  }

  lemma FirstOpenIsNewest(s: seq<Incident>, limit: nat)
    requires SingleOpen(s) && (limit > 0 || s == [])
    ensures FirstOpen(s, Newest(|s|, limit)) == if HasOpen(s) then Some(|s| - 1) else None
  {
    OpenIsNewest(s);
    if s != [] {
      var ids := Newest(|s|, limit);
      assert ids[0] == |s| - 1;
      if !Open(s[|s| - 1]) {
        assert forall k :: 0 <= k < |ids| ==> !Open(s[ids[k]]);
      }
    }
  }

  /** Looking at one row on creation is enough: an incident is open afterwards exactly when one
      was open before, anywhere in the table, or the insert went through. */
  lemma CreateKeepsSingleOpen(s: seq<Incident>, now: int, f: CreateFaults)
    requires SingleOpen(s)
    ensures SingleOpen(Created(s, now, f))
    ensures HasOpen(Created(s, now, f)) <==> HasOpen(s) || (f.listOk && f.insertOk)
  {
    OpenIsNewest(s);
    OpenIsNewest(Created(s, now, f));
  }

  /** Looking at ten rows is enough: an error-free resolve leaves nothing open. */
  lemma ResolveKeepsSingleOpen(s: seq<Incident>, now: int, f: ResolveFaults)
    requires SingleOpen(s)
    ensures SingleOpen(Resolved(s, now, f))
    ensures Resolved(s, now, f) == Recovered(s, now, f) == Closed(s, now, f)
    ensures HasOpen(Resolved(s, now, f)) <==> HasOpen(s) && !(f.listOk && f.updateOk)
  {
    OpenIsNewest(s);
    FirstOpenIsNewest(s, 10);
    FirstOpenIsNewest(s, |s|);
    OpenIsNewest(Resolved(s, now, f));
  }

  lemma RemindKeepsSingleOpen(s: seq<Incident>, now: int, minutes: int, f: RemindFaults)
    requires SingleOpen(s)
    ensures SingleOpen(Reminded(s, now, minutes, f))
    ensures HasOpen(Reminded(s, now, minutes, f)) <==> HasOpen(s)
  {
    OpenIsNewest(s);
    OpenIsNewest(Reminded(s, now, minutes, f));
  }
}
