/** Retrying pending notifications from several instances at once
    (internal/service/pending_notification_retry_service.go).

    The repository's claim is an atomic test-and-set on pending, unclaimed events, and marking an
    event ends its pending state. A pass alternates two kinds of atomic steps, claiming the next
    listed event and finishing a claimed one; passes of different instances interleave freely and
    may stop anywhere. Repository failures and the outcome of sending are inputs. */
module NotificationRetry {
  import opened Wrappers

  type Id = string

  datatype Status = Pending | Sent | Failed | Expired
  datatype Kind = DownAlert | UpAlert | OtherAlert

  /** `handledBy` lists the passes that claimed the event and `marks` counts its terminal marks. */
  datatype Event = Event(
    status: Status, claimed: bool, createdAt: int, kind: Kind, handledBy: seq<nat>, marks: nat)

  predicate Claimable(e: Event) {
    e.status == Pending && !e.claimed
  }

  /** Counters of one pass. `nils` and `errors` are the entries the source drops without counting:
      nil entries, failed claims and failed marks. */
  datatype Summary = Summary(retried: nat, expired: nat, failed: nat, skipped: nat, nils: nat, errors: nat)
  {
    function Counted(): nat {
      retried + expired + failed + skipped
    }
  }

  /** A pass over the events it listed, with its staleness cutoff; at `pos`, perhaps holding the
      claim on that entry. */
  datatype Pass = Pass(listed: seq<Option<Id>>, cutoff: int, pos: nat, holding: bool, summary: Summary)

  datatype Env = Env(claimOk: bool, incidentOk: bool, hasChannels: bool, dispatchOk: bool, markOk: bool)

  predicate AtEvent(events: map<Id, Event>, p: Pass) {
    p.pos < |p.listed| && p.listed[p.pos].Some? && p.listed[p.pos].value in events
  }

  predicate MayClaim(events: map<Id, Event>, p: Pass) {
    p.pos < |p.listed| && !p.holding && (p.listed[p.pos].Some? ==> AtEvent(events, p))
  }

  predicate MayFinish(events: map<Id, Event>, p: Pass) {
    p.holding && AtEvent(events, p)
  }

  function ClaimEvents(events: map<Id, Event>, p: Pass, who: nat, env: Env): map<Id, Event>
    requires MayClaim(events, p)
  {
    if p.listed[p.pos].None? || !env.claimOk || !Claimable(events[p.listed[p.pos].value]) then events
    else
      var id := p.listed[p.pos].value;
      events[id := events[id].(claimed := true, handledBy := events[id].handledBy + [who])]
  }

  function ClaimPass(events: map<Id, Event>, p: Pass, env: Env): Pass
    requires MayClaim(events, p)
  {
    var s := p.summary;
    if p.listed[p.pos].None? then p.(pos := p.pos + 1, summary := s.(nils := s.nils + 1))
    else if !env.claimOk then p.(pos := p.pos + 1, summary := s.(errors := s.errors + 1))
    else if Claimable(events[p.listed[p.pos].value]) then p.(holding := true)
    else p.(pos := p.pos + 1, summary := s.(skipped := s.skipped + 1))
  }

  /** The mark a claimed event gets. */
  function Verdict(e: Event, cutoff: int, env: Env): Status {
    if e.createdAt < cutoff then Expired
    else if e.kind == OtherAlert || !env.incidentOk || !env.hasChannels || !env.dispatchOk then Failed
    else Sent
  }

  function FinishEvents(events: map<Id, Event>, p: Pass, env: Env): map<Id, Event>
    requires MayFinish(events, p)
  {
    var id := p.listed[p.pos].value;
    var e := events[id];
    if !env.markOk then events
    else events[id := e.(status := Verdict(e, p.cutoff, env), claimed := false, marks := e.marks + 1)]
  }

  function Tallied(s: Summary, v: Status, markOk: bool): Summary {
    if !markOk then s.(errors := s.errors + 1)
    else if v == Expired then s.(expired := s.expired + 1)
    else if v == Failed then s.(failed := s.failed + 1)
    else s.(retried := s.retried + 1)
  }

  function FinishPass(events: map<Id, Event>, p: Pass, env: Env): Pass
    requires MayFinish(events, p)
  {
    p.(pos := p.pos + 1, holding := false,
       summary := Tallied(p.summary, Verdict(events[p.listed[p.pos].value], p.cutoff, env), env.markOk))
  }

  // ---------- The imperative pass, undisturbed ----------

  /** One loop iteration: claim, and finish if the claim succeeded. */
  function Iterate(events: map<Id, Event>, p: Pass, who: nat, env: Env): (map<Id, Event>, Pass)
    requires MayClaim(events, p)
  {
    var (events1, p1) := (ClaimEvents(events, p, who, env), ClaimPass(events, p, env));
    if p1.holding then (FinishEvents(events1, p1, env), FinishPass(events1, p1, env)) else (events1, p1)
  }

  predicate AllStored(events: map<Id, Event>, listed: seq<Option<Id>>) {
    forall k :: 0 <= k < |listed| && listed[k].Some? ==> listed[k].value in events
  }

  function Iterations(events: map<Id, Event>, p: Pass, who: nat, envs: seq<Env>): (r: (map<Id, Event>, Pass))
    requires AllStored(events, p.listed) && !p.holding && |envs| == |p.listed| - p.pos && p.pos <= |p.listed|
    decreases |envs|
  {
    if envs == [] then (events, p)
    else
      var (events1, p1) := Iterate(events, p, who, envs[0]);
      Iterations(events1, p1, who, envs[1..])
  }

  class PendingNotificationRetryService {
    var events: map<Id, Event>

    constructor (events: map<Id, Event>)
      ensures this.events == events
    {
      this.events := events;
    }

    method ClaimPending(id: Id, who: nat) returns (claimed: bool)
      requires id in events
      modifies this
      ensures claimed <==> Claimable(old(events)[id])
      ensures events == if claimed
        then old(events)[id := old(events)[id].(claimed := true, handledBy := old(events)[id].handledBy + [who])]
        else old(events)
    {
      var e := events[id];
      claimed := e.status == Pending && !e.claimed;
      if claimed {
        events := events[id := e.(claimed := true, handledBy := e.handledBy + [who])];
      }
    }

    method Mark(id: Id, status: Status, ok: bool)
      requires id in events
      modifies this
      ensures events == if ok
        then old(events)[id := old(events)[id].(status := status, claimed := false, marks := old(events)[id].marks + 1)]
        else old(events)
    {
      if ok {
        var e := events[id];
        events := events[id := e.(status := status, claimed := false, marks := e.marks + 1)];
      }
    }

    method RetryPendingNotifications(listed: seq<Option<Id>>, cutoff: int, who: nat, envs: seq<Env>)
      returns (summary: Summary)
      requires AllStored(events, listed) && |envs| == |listed|
      modifies this
      ensures
        var r := Iterations(old(events), Pass(listed, cutoff, 0, false, Summary(0, 0, 0, 0, 0, 0)), who, envs);
        events == r.0 && summary == r.1.summary
    {
      summary := Summary(0, 0, 0, 0, 0, 0);
      ghost var spec := Iterations(events, Pass(listed, cutoff, 0, false, summary), who, envs);
      assert envs[0..] == envs;
      for k := 0 to |listed|
        invariant AllStored(events, listed)
        invariant spec == Iterations(events, Pass(listed, cutoff, k, false, summary), who, envs[k..])
      {
        assert envs[k..][1..] == envs[k + 1..];
        var env := envs[k];
        if listed[k].None? {
          summary := summary.(nils := summary.nils + 1);
          continue;
        }
        var id := listed[k].value;
        if !env.claimOk {
          summary := summary.(errors := summary.errors + 1);
          continue;
        }
        var claimed := ClaimPending(id, who);
        if !claimed {
          summary := summary.(skipped := summary.skipped + 1);
          continue;
        }
        summary := FinishClaimed(id, cutoff, env, summary);
      }
    }

    method FinishClaimed(id: Id, cutoff: int, env: Env, summary: Summary) returns (r: Summary)
      requires id in events
      modifies this
      ensures
        var e := old(events)[id];
        var v := Verdict(e, cutoff, env);
        && events == (if env.markOk
                      then old(events)[id := e.(status := v, claimed := false, marks := e.marks + 1)] else old(events))
        && r == Tallied(summary, v, env.markOk)
    {
      var e := events[id];
      if e.createdAt < cutoff {
        Mark(id, Expired, env.markOk);
        r := if env.markOk then summary.(expired := summary.expired + 1) else summary.(errors := summary.errors + 1);
        return;
      }
      if e.kind == OtherAlert || !env.incidentOk || !env.hasChannels || !env.dispatchOk {
        Mark(id, Failed, env.markOk);
        r := if env.markOk then summary.(failed := summary.failed + 1) else summary.(errors := summary.errors + 1);
        return;
      }
      Mark(id, Sent, env.markOk);
      r := if env.markOk then summary.(retried := summary.retried + 1) else summary.(errors := summary.errors + 1);
    }
  }

  // ---------- Interleaved passes ----------

  datatype System = System(events: map<Id, Event>, passes: seq<Pass>)

  datatype Step = Begin(listed: seq<Option<Id>>, cutoff: int) | Claim(who: nat, env: Env) | Finish(who: nat, env: Env)

  predicate Enabled(s: System, step: Step) {
    match step
    case Begin(listed, _) => AllStored(s.events, listed)
    case Claim(who, _) => who < |s.passes| && MayClaim(s.events, s.passes[who])
    case Finish(who, _) => who < |s.passes| && MayFinish(s.events, s.passes[who])
  }

  function Next(s: System, step: Step): System {
    if !Enabled(s, step) then s
    else match step
    case Begin(listed, cutoff) =>
      s.(passes := s.passes + [Pass(listed, cutoff, 0, false, Summary(0, 0, 0, 0, 0, 0))])
    case Claim(who, env) =>
      System(ClaimEvents(s.events, s.passes[who], who, env),
             s.passes[who := ClaimPass(s.events, s.passes[who], env)])
    case Finish(who, env) =>
      System(FinishEvents(s.events, s.passes[who], env),
             s.passes[who := FinishPass(s.events, s.passes[who], env)])
  }

  function Execute(s: System, steps: seq<Step>): System {
    if steps == [] then s else Next(Execute(s, steps[..|steps| - 1]), steps[|steps| - 1])
  }

  /** A store no pass has worked on yet; its events may be in any state. */
  ghost predicate Untouched(s: System) {
    s.passes == [] && forall id :: id in s.events ==> s.events[id].handledBy == [] && s.events[id].marks == 0
  }

  ghost predicate EventOnce(e: Event) {
    |e.handledBy| <= 1 && e.marks <= |e.handledBy| && (Claimable(e) ==> e.handledBy == [])
  }

  /** A pass holding a claim is the event's only handler and the event is still unmarked. */
  ghost predicate HoldsAlone(s: System, who: nat)
    requires who < |s.passes|
  {
    var p := s.passes[who];
    p.holding ==>
      AtEvent(s.events, p) &&
      var e := s.events[p.listed[p.pos].value]; e.handledBy == [who] && e.marks == 0 && !Claimable(e)
  }

  ghost predicate Accounted(p: Pass) {
    p.pos <= |p.listed| && p.summary.Counted() + p.summary.nils + p.summary.errors == p.pos
  }

  ghost predicate Safe(s: System) {
    && (forall id :: id in s.events ==> EventOnce(s.events[id]))
    && (forall who :: 0 <= who < |s.passes| ==> HoldsAlone(s, who) && Accounted(s.passes[who]))
  }

  lemma ClaimSafe(s: System, who: nat, env: Env)
    requires Safe(s) && Enabled(s, Claim(who, env))
    ensures Safe(Next(s, Claim(who, env)))
  {
    var s' := Next(s, Claim(who, env));
    forall w | 0 <= w < |s'.passes|
      ensures HoldsAlone(s', w) && Accounted(s'.passes[w])
    {
      assert HoldsAlone(s, w) && Accounted(s.passes[w]);
    }
  }

  lemma FinishSafe(s: System, who: nat, env: Env)
    requires Safe(s) && Enabled(s, Finish(who, env))
    ensures Safe(Next(s, Finish(who, env)))
  {
    var s' := Next(s, Finish(who, env));
    assert HoldsAlone(s, who);
    forall w | 0 <= w < |s'.passes|
      ensures HoldsAlone(s', w) && Accounted(s'.passes[w])
    {
      assert HoldsAlone(s, w) && Accounted(s.passes[w]);
    }
  }

  lemma BeginSafe(s: System, listed: seq<Option<Id>>, cutoff: int)
    requires Safe(s) && Enabled(s, Begin(listed, cutoff))
    ensures Safe(Next(s, Begin(listed, cutoff)))
  {
    var s' := Next(s, Begin(listed, cutoff));
    forall w | 0 <= w < |s'.passes|
      ensures HoldsAlone(s', w) && Accounted(s'.passes[w])
    {
      if w < |s.passes| {
        assert HoldsAlone(s, w) && Accounted(s.passes[w]);
      }
    }
  }

  /** However passes interleave, every event is claimed by at most one pass and marked at most
      once, and every pass accounts for each entry it has gone over. */
  lemma {:induction false} RetriesAreSafe(s0: System, steps: seq<Step>)
    requires Untouched(s0)
    ensures Safe(Execute(s0, steps))
  {
    if steps == [] {
    } else {
      var mid, step := Execute(s0, steps[..|steps| - 1]), steps[|steps| - 1];
      RetriesAreSafe(s0, steps[..|steps| - 1]);
      if Enabled(mid, step) {
        match step {
          case Begin(listed, cutoff) => BeginSafe(mid, listed, cutoff);
          case Claim(who, env) => ClaimSafe(mid, who, env);
          case Finish(who, env) => FinishSafe(mid, who, env);
        }
      }
    }
  }

  /** An undisturbed loop iteration of a pass is its claim step followed by its finish step. */
  lemma IterationIsTwoSteps(s: System, who: nat, env: Env)
    requires who < |s.passes| && MayClaim(s.events, s.passes[who])
    ensures
      var r, s' := Iterate(s.events, s.passes[who], who, env), Next(Next(s, Claim(who, env)), Finish(who, env));
      s'.events == r.0 && s'.passes == s.passes[who := r.1]
  {}

  // ---------- What the summary counts ----------

  /** A claim or a mark of this pass that the repository refuses. */
  predicate Fails(s: System, step: Step, who: nat) {
    && Enabled(s, step)
    && match step
       case Begin(_, _) => false
       case Claim(w, env) => w == who && s.passes[w].listed[s.passes[w].pos].Some? && !env.claimOk
       case Finish(w, env) => w == who && !env.markOk
  }

  function Failures(s0: System, steps: seq<Step>, who: nat): nat {
    if steps == [] then 0
    else
      var n := |steps| - 1;
      Failures(s0, steps[..n], who) + (if Fails(Execute(s0, steps[..n]), steps[n], who) then 1 else 0)
  }

  function Nones(listed: seq<Option<Id>>): nat {
    if listed == [] then 0
    else Nones(listed[..|listed| - 1]) + (if listed[|listed| - 1].None? then 1 else 0)
  }

  lemma {:induction false} NoNones(listed: seq<Option<Id>>)
    ensures Nones(listed) == 0 <==> forall k :: 0 <= k < |listed| ==> listed[k].Some?
  {
    if listed == [] {
    } else {
      var n := |listed| - 1;
      NoNones(listed[..n]);
      assert forall k :: 0 <= k < n ==> listed[..n][k] == listed[k];
    }
  }

  predicate FailsAt(s0: System, steps: seq<Step>, who: nat, i: nat)
    requires i < |steps|
  {
    Fails(Execute(s0, steps[..i]), steps[i], who)
  }

  lemma FailsAtPrefix(s0: System, steps: seq<Step>, who: nat, n: nat, i: nat)
    requires i < n <= |steps|
    ensures FailsAt(s0, steps[..n], who, i) == FailsAt(s0, steps, who, i)
  {
    assert steps[..n][..i] == steps[..i];
  }

  lemma {:induction false} NoFailures(s0: System, steps: seq<Step>, who: nat)
    ensures Failures(s0, steps, who) == 0 <==> forall i :: 0 <= i < |steps| ==> !FailsAt(s0, steps, who, i)
  {
    if steps == [] {
    } else {
      var n := |steps| - 1;
      NoFailures(s0, steps[..n], who);
      forall i | 0 <= i < n
        ensures FailsAt(s0, steps[..n], who, i) == FailsAt(s0, steps, who, i)
      {
        FailsAtPrefix(s0, steps, who, n, i);
      }
      assert FailsAt(s0, steps, who, n) <==> Failures(s0, steps, who) == Failures(s0, steps[..n], who) + 1;
    }
  }

  /** The uncounted entries of a pass, from its inputs. */
  ghost predicate DropsMatch(s: System, failures: nat, who: nat) {
    if who < |s.passes| then
      var p := s.passes[who];
      && p.pos <= |p.listed|
      && p.summary.nils == Nones(p.listed[..p.pos])
      && p.summary.errors == failures
    else failures == 0
  }

  lemma DropsStep(s: System, step: Step, failures: nat, who: nat)
    requires DropsMatch(s, failures, who)
    ensures DropsMatch(Next(s, step), failures + (if Fails(s, step, who) then 1 else 0), who)
  {
    if Enabled(s, step) && !step.Begin? && step.who == who {
      var p := s.passes[who];
      assert p.listed[..p.pos + 1][..p.pos] == p.listed[..p.pos];
    }
  }

  lemma {:induction false} DropsAreInputs(s0: System, steps: seq<Step>, who: nat)
    requires s0.passes == []
    ensures DropsMatch(Execute(s0, steps), Failures(s0, steps, who), who)
  {
    if steps == [] {
    } else {
      var n := |steps| - 1;
      DropsAreInputs(s0, steps[..n], who);
      DropsStep(Execute(s0, steps[..n]), steps[n], Failures(s0, steps[..n], who), who);
    }
  }

  /** The summary, exactly, in terms of the inputs. Over any interleaving a pass's counters and the nil
      entries and refused claims and marks it met add up to the entries it has gone over; so a finished
      pass counts all of its entries if and only if none was nil and none of its claims and marks was
      refused. */
  lemma SummaryComplete(s0: System, steps: seq<Step>, who: nat)
    requires Untouched(s0) && who < |Execute(s0, steps).passes|
    ensures
      var p := Execute(s0, steps).passes[who];
      && p.pos <= |p.listed|
      && p.summary.Counted() + Nones(p.listed[..p.pos]) + Failures(s0, steps, who) == p.pos
      && (p.pos == |p.listed| ==>
           (p.summary.Counted() == |p.listed| <==>
             && (forall k :: 0 <= k < |p.listed| ==> p.listed[k].Some?)
             && (forall i :: 0 <= i < |steps| ==> !FailsAt(s0, steps, who, i))))
  {
    var p := Execute(s0, steps).passes[who];
    RetriesAreSafe(s0, steps);
    assert Accounted(p);
    DropsAreInputs(s0, steps, who);
    assert p.listed[..|p.listed|] == p.listed;
    NoNones(p.listed);
    NoFailures(s0, steps, who);
  }

  // ---------- What becomes of a claimed event ----------

  /** The step marks the event. */
  predicate Marks(s: System, step: Step, id: Id) {
    && step.Finish? && Enabled(s, step) && step.env.markOk
    && s.passes[step.who].listed[s.passes[step.who].pos] == Some(id)
  }

  predicate MarksAt(s0: System, steps: seq<Step>, id: Id, i: nat)
    requires i < |steps|
  {
    Marks(Execute(s0, steps[..i]), steps[i], id)
  }

  lemma MarksAtPrefix(s0: System, steps: seq<Step>, id: Id, n: nat, i: nat)
    requires i < n <= |steps|
    ensures MarksAt(s0, steps[..n], id, i) == MarksAt(s0, steps, id, i)
  {
    assert steps[..n][..i] == steps[..i];
  }

  ghost predicate EverMarked(s0: System, steps: seq<Step>, id: Id) {
    exists i :: 0 <= i < |steps| && MarksAt(s0, steps, id, i)
  }

  lemma EverMarkedStep(s0: System, steps: seq<Step>, id: Id)
    requires steps != []
    ensures
      var n := |steps| - 1;
      EverMarked(s0, steps, id) <==> EverMarked(s0, steps[..n], id) || MarksAt(s0, steps, id, n)
  {
    var n := |steps| - 1;
    forall i | 0 <= i < n
      ensures MarksAt(s0, steps[..n], id, i) == MarksAt(s0, steps, id, i)
    {
      MarksAtPrefix(s0, steps, id, n, i);
    }
  }

  /** One step on one event: its handlers only grow, it is marked once more exactly by a marking step,
      and a claim is released only by a mark. */
  lemma EventStep(s: System, step: Step, id: Id)
    requires id in s.events
    ensures
      var s' := Next(s, step);
      && id in s'.events
      && var e, e' := s.events[id], s'.events[id];
         && e.handledBy <= e'.handledBy
         && e'.marks == e.marks + (if Marks(s, step, id) then 1 else 0)
         && (!Marks(s, step, id) ==> e'.status == e.status && (e.claimed ==> e'.claimed))
         && (e'.handledBy != e.handledBy ==> e'.claimed && e'.status == Pending)
  {}

  lemma {:induction false} EventRun(s0: System, steps: seq<Step>, id: Id)
    requires Untouched(s0) && id in s0.events
    ensures
      var s := Execute(s0, steps);
      && id in s.events && (s.events[id].marks > 0 <==> EverMarked(s0, steps, id))
      && (s.events[id].handledBy != [] && s.events[id].marks == 0 ==>
           s.events[id].status == Pending && s.events[id].claimed)
  {
    if steps == [] {
    } else {
      var n := |steps| - 1;
      EventRun(s0, steps[..n], id);
      EverMarkedStep(s0, steps, id);
      EventStep(Execute(s0, steps[..n]), steps[n], id);
    }
  }

  lemma {:induction false} SameEvents(s0: System, steps: seq<Step>)
    ensures Execute(s0, steps).events.Keys == s0.events.Keys
  {
    if steps == [] {
    } else {
      SameEvents(s0, steps[..|steps| - 1]);
    }
  }

  lemma {:induction false} HandlersGrow(s0: System, steps: seq<Step>, id: Id, i: nat)
    requires i <= |steps| && id in Execute(s0, steps[..i]).events
    ensures id in Execute(s0, steps).events
    ensures Execute(s0, steps[..i]).events[id].handledBy <= Execute(s0, steps).events[id].handledBy
  {
    if i == |steps| {
      assert steps[..i] == steps;
    } else {
      var n := |steps| - 1;
      assert steps[..n][..i] == steps[..i];
      HandlersGrow(s0, steps[..n], id, i);
      EventStep(Execute(s0, steps[..n]), steps[n], id);
    }
  }

  /** A marking step is one of the event's only handler. */
  lemma MarkerIsHandler(s0: System, steps: seq<Step>, id: Id, i: nat)
    requires Untouched(s0) && id in s0.events && i < |steps| && MarksAt(s0, steps, id, i)
    ensures id in Execute(s0, steps).events && Execute(s0, steps).events[id].handledBy == [steps[i].who]
  {
    RetriesAreSafe(s0, steps[..i]);
    assert HoldsAlone(Execute(s0, steps[..i]), steps[i].who);
    HandlersGrow(s0, steps, id, i);
    RetriesAreSafe(s0, steps);
    assert EventOnce(Execute(s0, steps).events[id]);
  }

  /** The fate of a claimed event, over every interleaving: it is marked, once, exactly when its one
      handler finished it and the repository accepted the mark. Otherwise, whether the pass still holds
      it, has stopped, or met a refused mark, the event is pending and claimed, so nobody can claim it. */
  lemma ClaimedEventFate(s0: System, steps: seq<Step>, id: Id, who: nat)
    requires Untouched(s0) && id in s0.events
    requires id in Execute(s0, steps).events && Execute(s0, steps).events[id].handledBy == [who]
    ensures
      var e := Execute(s0, steps).events[id];
      if exists i :: 0 <= i < |steps| && MarksAt(s0, steps, id, i) && steps[i].who == who then e.marks == 1
      else e.marks == 0 && e.status == Pending && e.claimed && !Claimable(e)
  {
    EventRun(s0, steps, id);
    RetriesAreSafe(s0, steps);
    assert EventOnce(Execute(s0, steps).events[id]);
    if EverMarked(s0, steps, id) {
      var i :| 0 <= i < |steps| && MarksAt(s0, steps, id, i);
      MarkerIsHandler(s0, steps, id, i);
      assert steps[i].who == who;
    }
  }

  ghost predicate Holds(s: System, who: nat, id: Id)
    requires who < |s.passes|
  {
    var p := s.passes[who];
    p.holding && p.pos < |p.listed| && p.listed[p.pos] == Some(id)
  }

  /** A claimed event that no pass holds any more. */
  ghost predicate Abandoned(s: System, id: Id) {
    && id in s.events && s.events[id].claimed
    && forall who :: 0 <= who < |s.passes| ==> !Holds(s, who, id)
  }

  lemma AbandonedStep(s: System, step: Step, id: Id)
    requires Abandoned(s, id)
    ensures Abandoned(Next(s, step), id) && Next(s, step).events[id] == s.events[id]
  {
    var s' := Next(s, step);
    if Enabled(s, step) {
      match step {
        case Begin(listed, cutoff) =>
        case Claim(w, env) => assert !Holds(s, w, id);
        case Finish(w, env) => assert !Holds(s, w, id);
      }
      forall who | 0 <= who < |s'.passes|
        ensures !Holds(s', who, id)
      {
        if who < |s.passes| {
          assert !Holds(s, who, id);
        }
      }
    }
  }

  /** A refused mark abandons the event, and an abandoned event never changes again: no later pass of any
      instance retries it. */
  lemma RefusedMarkAbandons(s0: System, steps: seq<Step>, who: nat, env: Env, later: seq<Step>)
    requires Untouched(s0) && Enabled(Execute(s0, steps), Finish(who, env)) && !env.markOk
    ensures
      var s := Execute(s0, steps);
      var id := s.passes[who].listed[s.passes[who].pos].value;
      var end := Execute(Next(s, Finish(who, env)), later);
      && id in end.events && end.events[id] == s.events[id]
      && s.events[id].marks == 0 && !Claimable(s.events[id])
  {
    var s := Execute(s0, steps);
    var id := s.passes[who].listed[s.passes[who].pos].value;
    RetriesAreSafe(s0, steps);
    assert HoldsAlone(s, who);
    SameEvents(s0, steps);
    assert id in s.events.Keys;
    EventRun(s0, steps, id);
    RefusedMarkStep(s, who, env);
    AbandonedForever(Next(s, Finish(who, env)), later, id);
  }

  lemma RefusedMarkStep(s: System, who: nat, env: Env)
    requires Safe(s) && Enabled(s, Finish(who, env)) && !env.markOk
    requires s.events[s.passes[who].listed[s.passes[who].pos].value].claimed
    ensures
      var id := s.passes[who].listed[s.passes[who].pos].value;
      Abandoned(Next(s, Finish(who, env)), id) && Next(s, Finish(who, env)).events == s.events
  {
    var id, s' := s.passes[who].listed[s.passes[who].pos].value, Next(s, Finish(who, env));
    assert HoldsAlone(s, who);
    forall w | 0 <= w < |s'.passes|
      ensures !Holds(s', w, id)
    {
      assert HoldsAlone(s, w);
    }
  }

  lemma {:induction false} AbandonedForever(s: System, later: seq<Step>, id: Id)
    requires Abandoned(s, id)
    ensures Abandoned(Execute(s, later), id) && Execute(s, later).events[id] == s.events[id]
  {
    if later == [] {
    } else {
      AbandonedForever(s, later[..|later| - 1], id);
      AbandonedStep(Execute(s, later[..|later| - 1]), later[|later| - 1], id);
    }
  }

  // ---------- Which mark ----------

  /** What never changes about an event, and that only an unmarked one has a say in its future. */
  lemma {:induction false} EventKeeps(s0: System, steps: seq<Step>, id: Id)
    requires id in s0.events
    ensures
      var s := Execute(s0, steps);
      id in s.events && s.events[id].createdAt == s0.events[id].createdAt && s.events[id].kind == s0.events[id].kind
  {
    if steps == [] {
    } else {
      EventKeeps(s0, steps[..|steps| - 1], id);
    }
  }

  /** Beginning a pass over stored events adds one, at its first entry, with nothing counted or held. */
  lemma BeginStarts(s: System, listed: seq<Option<Id>>, cutoff: int)
    requires forall k :: 0 <= k < |listed| && listed[k].Some? ==> listed[k].value in s.events
    ensures
      var s' := Next(s, Begin(listed, cutoff));
      && s'.events == s.events && |s'.passes| == |s.passes| + 1 && s'.passes[..|s.passes|] == s.passes
      && s'.passes[|s.passes|] == Pass(listed, cutoff, 0, false, Summary(0, 0, 0, 0, 0, 0))
  {}

  /** A pass keeps the entries and the cutoff of the step that began it. */
  lemma {:induction false} PassOrigin(s0: System, steps: seq<Step>, who: nat) returns (i: nat)
    requires s0.passes == [] && who < |Execute(s0, steps).passes|
    ensures i < |steps| && steps[i].Begin? && Enabled(Execute(s0, steps[..i]), steps[i])
    ensures |Execute(s0, steps[..i]).passes| == who
    ensures
      var p := Execute(s0, steps).passes[who];
      p.listed == steps[i].listed && p.cutoff == steps[i].cutoff
  {
    var n := |steps| - 1;
    var before := Execute(s0, steps[..n]);
    if who < |before.passes| {
      i := PassOrigin(s0, steps[..n], who);
      assert steps[..n][..i] == steps[..i];
    } else {
      i := n;
    }
  }

  /** The mark in terms of the event, the cutoff and what the finishing step met. */
  ghost predicate RightMark(status: Status, createdAt: int, kind: Kind, cutoff: int, env: Env) {
    && (status == Expired <==> createdAt < cutoff)
    && (status == Sent <==>
         && createdAt >= cutoff && (kind == DownAlert || kind == UpAlert)
         && env.incidentOk && env.hasChannels && env.dispatchOk)
    && (status == Expired || status == Sent || status == Failed)
  }

  lemma MarkStep(s: System, step: Step, id: Id)
    requires id in s.events && Marks(s, step, id)
    ensures
      var s' := Next(s, step);
      && step.who < |s'.passes| && id in s'.events && !s'.events[id].claimed
      && RightMark(
           s'.events[id].status, s.events[id].createdAt, s.events[id].kind, s'.passes[step.who].cutoff, step.env)
  {}

  lemma UnmarkedStep(s: System, step: Step, id: Id, who: nat)
    requires id in s.events && who < |s.passes| && !Marks(s, step, id)
    ensures
      var s' := Next(s, step);
      && id in s'.events && s'.events[id].status == s.events[id].status
      && (s.events[id].status != Pending ==> s'.events[id].claimed == s.events[id].claimed)
      && who < |s'.passes| && s'.passes[who].cutoff == s.passes[who].cutoff
  {}

  /** An event is marked by at most one step. */
  lemma {:induction false} MarkedOnce(s0: System, steps: seq<Step>, id: Id, i: nat)
    requires Untouched(s0) && id in s0.events && i < |steps| && MarksAt(s0, steps, id, i)
    ensures id in Execute(s0, steps).events && Execute(s0, steps).events[id].marks == 1
    ensures forall j :: i < j < |steps| ==> !MarksAt(s0, steps, id, j)
  {
    var n := |steps| - 1;
    RetriesAreSafe(s0, steps);
    EventRun(s0, steps, id);
    assert EventOnce(Execute(s0, steps).events[id]);
    if i < n {
      MarksAtPrefix(s0, steps, id, n, i);
      MarkedOnce(s0, steps[..n], id, i);
      EventStep(Execute(s0, steps[..n]), steps[n], id);
      forall j | i < j < |steps|
        ensures !MarksAt(s0, steps, id, j)
      {
        if j < n {
          MarksAtPrefix(s0, steps, id, n, j);
        }
      }
    }
  }

  /** The mark, exactly, over every interleaving: the event that step i marked ends as expired if it was
      created before the cutoff its handler began with; as sent if it was not, is a down or up alert and
      its incident, channels and dispatch were all there in that step; and as failed otherwise. Its claim
      is released. */
  lemma {:induction false} MarkedRight(s0: System, steps: seq<Step>, id: Id, i: nat)
    requires Untouched(s0) && id in s0.events && i < |steps| && MarksAt(s0, steps, id, i)
    ensures
      var s := Execute(s0, steps);
      && id in s.events && steps[i].who < |s.passes| && !s.events[id].claimed
      && RightMark(s.events[id].status, s0.events[id].createdAt, s0.events[id].kind,
                   s.passes[steps[i].who].cutoff, steps[i].env)
  {
    var n := |steps| - 1;
    var before := Execute(s0, steps[..n]);
    EventKeeps(s0, steps[..n], id);
    if i == n {
      MarkStep(before, steps[n], id);
    } else {
      MarksAtPrefix(s0, steps, id, n, i);
      MarkedRight(s0, steps[..n], id, i);
      MarkedOnce(s0, steps, id, i);
      assert !MarksAt(s0, steps, id, n);
      UnmarkedStep(before, steps[n], id, steps[i].who);
    }
  }

  // ---------- The counters ----------

  /** The events that ended with this mark from this pass. */
  function MarkedBy(s: System, who: nat, status: Status): set<Id> {
    set id |
      id in s.events && s.events[id].handledBy == [who] && s.events[id].marks > 0 && s.events[id].status == status
  }

  function Counter(p: Pass, status: Status): nat {
    match status
    case Sent => p.summary.retried
    case Expired => p.summary.expired
    case Failed => p.summary.failed
    case Pending => 0
  }

  ghost predicate CountsMarks(s: System, who: nat, status: Status) {
    |MarkedBy(s, who, status)| == if who < |s.passes| then Counter(s.passes[who], status) else 0
  }

  /** The event a step marks for this pass with this status, if any. */
  ghost function NewlyMarked(s: System, step: Step, who: nat, status: Status): set<Id> {
    if step.Finish? && Enabled(s, step) && step.env.markOk && step.who == who then
      var id := s.passes[who].listed[s.passes[who].pos].value;
      if Next(s, step).events[id].status == status then {id} else {}
    else {}
  }

  lemma MarkedByFinish(s: System, step: Step, who: nat, status: Status)
    requires Safe(s) && step.Finish? && Enabled(s, step) && status != Pending
    ensures MarkedBy(Next(s, step), who, status) == MarkedBy(s, who, status) + NewlyMarked(s, step, who, status)
    ensures MarkedBy(s, who, status) !! NewlyMarked(s, step, who, status)
  {
    assert HoldsAlone(s, step.who);
  }

  lemma MarkedByOther(s: System, step: Step, who: nat, status: Status)
    requires Safe(s) && !(step.Finish? && Enabled(s, step)) && status != Pending
    ensures MarkedBy(Next(s, step), who, status) == MarkedBy(s, who, status)
  {
    var s' := Next(s, step);
    forall id | id in s.events
      ensures id in s'.events && (id in MarkedBy(s', who, status) <==> id in MarkedBy(s, who, status))
    {
      assert EventOnce(s.events[id]);
    }
  }

  lemma CounterStep(s: System, step: Step, who: nat, status: Status)
    requires status != Pending && who < |s.passes|
    ensures who < |Next(s, step).passes|
    ensures Counter(Next(s, step).passes[who], status) ==
      Counter(s.passes[who], status) + |NewlyMarked(s, step, who, status)|
  {}

  lemma CountsStep(s: System, step: Step, who: nat, status: Status)
    requires Safe(s) && CountsMarks(s, who, status) && status != Pending
    ensures CountsMarks(Next(s, step), who, status)
  {
    if step.Finish? && Enabled(s, step) {
      MarkedByFinish(s, step, who, status);
    } else {
      MarkedByOther(s, step, who, status);
    }
    if who < |s.passes| {
      CounterStep(s, step, who, status);
    }
  }

  lemma {:induction false} CountersMatch(s0: System, steps: seq<Step>, who: nat, status: Status)
    requires Untouched(s0) && status != Pending
    ensures CountsMarks(Execute(s0, steps), who, status)
  {
    if steps == [] {
      assert MarkedBy(s0, who, status) == {};
    } else {
      var n := |steps| - 1;
      CountersMatch(s0, steps[..n], who, status);
      RetriesAreSafe(s0, steps[..n]);
      CountsStep(Execute(s0, steps[..n]), steps[n], who, status);
    }
  }

  /** The counters of every pass are the numbers of events it marked sent, expired and failed. */
  lemma CountersAreMarks(s0: System, steps: seq<Step>, who: nat)
    requires Untouched(s0) && who < |Execute(s0, steps).passes|
    ensures
      var s := Execute(s0, steps);
      && s.passes[who].summary.retried == |MarkedBy(s, who, Sent)|
      && s.passes[who].summary.expired == |MarkedBy(s, who, Expired)|
      && s.passes[who].summary.failed == |MarkedBy(s, who, Failed)|
  {
    CountersMatch(s0, steps, who, Sent);
    CountersMatch(s0, steps, who, Expired);
    CountersMatch(s0, steps, who, Failed);
  }

  // ---------- A pass settles what it finds ----------

  /** A claim step, exactly: a pending, unclaimed event is claimed and held; one that is not is skipped and
      left alone; a nil entry or a refused call is passed over. */
  lemma ClaimDecides(s: System, who: nat, env: Env)
    requires Enabled(s, Claim(who, env))
    ensures
      var s', p := Next(s, Claim(who, env)), s.passes[who];
      var p', entry := s'.passes[who], p.listed[p.pos];
      if entry.Some? && env.claimOk && s.events[entry.value].status == Pending && !s.events[entry.value].claimed then
        && p'.holding && p'.pos == p.pos && p'.summary == p.summary
        && s'.events[entry.value].claimed && s'.events[entry.value].status == Pending
      else
        && !p'.holding && p'.pos == p.pos + 1 && s'.events == s.events
        && (entry.Some? && env.claimOk ==> p'.summary == p.summary.(skipped := p.summary.skipped + 1))
  {}

  /** No repository call of the pass is refused. */
  predicate Accepting(envs: seq<Env>) {
    forall k :: 0 <= k < |envs| ==> envs[k].claimOk && envs[k].markOk
  }

  ghost predicate Settled(e: Event) {
    e.status != Pending
  }

  lemma IterateSettles(events: map<Id, Event>, p: Pass, who: nat, env: Env, id: Id)
    requires MayClaim(events, p) && id in events && env.claimOk && env.markOk
    requires Settled(events[id]) || Claimable(events[id])
    ensures
      var (events1, p1) := Iterate(events, p, who, env);
      && events1.Keys == events.Keys && !p1.holding && p1.pos == p.pos + 1 && p1.listed == p.listed
      && (Settled(events[id]) || p.listed[p.pos] == Some(id) ==> Settled(events1[id]))
      && (Settled(events1[id]) || Claimable(events1[id]))
  {}

  /** Without refused calls an undisturbed pass leaves no listed event that was open for retry pending:
      each is sent, failed or expired when the pass ends. */
  lemma {:induction false} PassSettlesAll(events: map<Id, Event>, p: Pass, who: nat, envs: seq<Env>, id: Id)
    requires AllStored(events, p.listed) && !p.holding && |envs| == |p.listed| - p.pos && p.pos <= |p.listed|
    requires Accepting(envs) && id in events && (Settled(events[id]) || Claimable(events[id]))
    requires Settled(events[id]) || Some(id) in p.listed[p.pos..]
    ensures id in Iterations(events, p, who, envs).0 && Settled(Iterations(events, p, who, envs).0[id])
    decreases |envs|
  {
    if envs == [] {
      assert p.listed[p.pos..] == [];
    } else {
      var (events1, p1) := Iterate(events, p, who, envs[0]);
      IterateSettles(events, p, who, envs[0], id);
      assert p.listed[p.pos..] == [p.listed[p.pos]] + p.listed[p.pos + 1..];
      PassSettlesAll(events1, p1, who, envs[1..], id);
    }
  }
}
