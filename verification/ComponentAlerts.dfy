/** Grouped component alerts (internal/service/component_notification.go). Calls and timer firings
    are atomic steps; repositories are reliable; sending may fail, which changes nothing here. */
module ComponentAlerts {
  import opened Wrappers

  type Id = string

  datatype ResourceStatus = Up | Down | Error | Unknown | Paused | Pending | Warn | Flapping
  datatype ComponentStatus = CUp | CDegraded | CDown

  predicate IsDown(s: ResourceStatus) {
    s == Down || s == Error
  }

  predicate IsDegraded(s: ResourceStatus) {
    s == Warn || s == Pending || s == Unknown
  }

  function Worse(a: ComponentStatus, b: ComponentStatus): ComponentStatus {
    if a == CDown || b == CDown then CDown else if a == CDegraded || b == CDegraded then CDegraded else CUp
  }

  /** The worst status a resource contributes; flapping and paused resources count as up. */
  function Derive(rs: seq<ResourceStatus>): ComponentStatus {
    if rs == [] then CUp
    else
      var r := rs[|rs| - 1];
      Worse(Derive(rs[..|rs| - 1]), if IsDown(r) then CDown else if IsDegraded(r) then CDegraded else CUp)
  }

  lemma {:induction false} DeriveMeaning(rs: seq<ResourceStatus>)
    ensures Derive(rs) == CDown <==> exists i :: 0 <= i < |rs| && (rs[i] == Down || rs[i] == Error)
    ensures Derive(rs) == CUp <==> forall i :: 0 <= i < |rs| ==> rs[i] == Up || rs[i] == Paused || rs[i] == Flapping
  {
    if rs == [] {
    } else {
      var init := rs[..|rs| - 1];
      DeriveMeaning(init);
      assert forall i :: 0 <= i < |init| ==> init[i] == rs[i];
    }
  }

  function Impacted(rs: seq<ResourceStatus>, n: nat): seq<nat>
    requires n <= |rs|
  {
    if n == 0 then []
    else Impacted(rs, n - 1) + (if IsDown(rs[n - 1]) || IsDegraded(rs[n - 1]) then [n - 1] else [])
  }

  /** `impacted` are the positions of the resources listed in the notice. */
  method DeriveComponentStatus(rs: seq<ResourceStatus>) returns (status: ComponentStatus, impacted: seq<nat>)
    ensures status == Derive(rs) && impacted == Impacted(rs, |rs|)
  {
    var hasDown, hasDegraded := false, false;
    impacted := [];
    for k := 0 to |rs|
      invariant Derive(rs[..k]) == if hasDown then CDown else if hasDegraded then CDegraded else CUp
      invariant impacted == Impacted(rs, k)
    {
      assert rs[..k + 1][..k] == rs[..k];
      if IsDown(rs[k]) {
        hasDown := true;
        impacted := impacted + [k];
      } else if IsDegraded(rs[k]) {
        hasDegraded := true;
        impacted := impacted + [k];
      }
    }
    assert rs[..|rs|] == rs;
    status := if hasDown then CDown else if hasDegraded then CDegraded else CUp;
  }

  /** A component is healthy exactly when its notice would list nothing. */
  lemma {:induction false} ImpactedMeaning(rs: seq<ResourceStatus>, n: nat)
    requires n <= |rs|
    ensures Impacted(rs, n) == [] <==> Derive(rs[..n]) == CUp
    ensures forall i :: i in Impacted(rs, n) <==> 0 <= i < n && rs[i] != Up && rs[i] != Paused && rs[i] != Flapping
  {
    if n == 0 {
    } else {
      ImpactedMeaning(rs, n - 1);
      assert rs[..n][..n - 1] == rs[..n - 1];
    }
  }

  /** The notice lists them in order. */
  lemma {:induction false} ImpactedInOrder(rs: seq<ResourceStatus>, n: nat)
    requires n <= |rs|
    ensures forall i :: 0 <= i < |Impacted(rs, n)| ==> Impacted(rs, n)[i] < n
    ensures forall i, j :: 0 <= i < j < |Impacted(rs, n)| ==> Impacted(rs, n)[i] < Impacted(rs, n)[j]
  {
    if n == 0 {
    } else {
      ImpactedInOrder(rs, n - 1);
    }
  }

  datatype Notice = Notice(component: Id, status: ComponentStatus)

  /** A started timer and the component it will report on. */
  datatype Timer = Timer(id: nat, component: Id)

  /** `live` are the timers that are running; `pending` is the service's own table of them. */
  datatype Service = Service(
    resources: map<Id, seq<ResourceStatus>>, last: map<Id, ComponentStatus>,
    live: set<Timer>, pending: map<Id, Timer>, nextTimer: nat, notices: seq<Notice>)

  predicate Known(s: Service, c: Id) {
    c in s.resources && c in s.last
  }

  /** `dispatchComponentAlertImmediate`. */
  function Dispatched(s: Service, c: Id): Service {
    if !Known(s, c) || s.last[c] == Derive(s.resources[c]) then s
    else
      var d := Derive(s.resources[c]);
      s.(last := s.last[c := d], notices := s.notices + [Notice(c, d)])
  }

  /** `RecalculateAndNotify` with the effective grouping window. */
  function Recalculated(s: Service, c: Id, window: int): Service {
    if !Known(s, c) || s.last[c] == Derive(s.resources[c]) then s
    else if window > 0 then
      var stopped := if c in s.pending then s.live - {s.pending[c]} else s.live;
      var timer := Timer(s.nextTimer, c);
      s.(live := stopped + {timer}, pending := s.pending[c := timer], nextTimer := s.nextTimer + 1)
    else Dispatched(s, c)
  }

  /** The effective grouping window: the component's own if positive, otherwise the configured one. */
  function GroupingWindow(own: int, configured: Option<int>): int {
    if own > 0 then own else if configured.Some? then configured.value else 0
  }

  /** A running timer fires. */
  function Fired(s: Service, timer: Timer): Service {
    if timer !in s.live then s
    else Dispatched(s.(live := s.live - {timer}, pending := s.pending - {timer.component}), timer.component)
  }

  class ComponentService {
    var resources: map<Id, seq<ResourceStatus>>
    var last: map<Id, ComponentStatus>
    var live: set<Timer>
    var pending: map<Id, Timer>
    var nextTimer: nat
    var notices: seq<Notice>

    constructor (resources: map<Id, seq<ResourceStatus>>)
      ensures Value() == Fresh(resources)
    {
      this.resources := resources;
      last := map c | c in resources :: CUp;
      live, pending, nextTimer, notices := {}, map[], 0, [];
    }

    function Value(): Service
      reads this
    {
      Service(resources, last, live, pending, nextTimer, notices)
    }

    method DispatchComponentAlertImmediate(c: Id)
      modifies this`last, this`notices
      ensures Value() == Dispatched(old(Value()), c)
    {
      if c !in resources || c !in last {
        return;
      }
      var status, _ := DeriveComponentStatus(resources[c]);
      if last[c] == status {
        return;
      }
      notices := notices + [Notice(c, status)];
      last := last[c := status];
    }

    method RecalculateAndNotify(c: Id, own: int, configured: Option<int>)
      modifies this
      ensures Value() == Recalculated(old(Value()), c, GroupingWindow(own, configured))
    {
      if c !in resources || c !in last {
        return;
      }
      var status, _ := DeriveComponentStatus(resources[c]);
      if last[c] == status {
        return;
      }
      var window := 0;
      if configured.Some? {
        window := configured.value;
      }
      if own > 0 {
        window := own;
      }
      if window > 0 {
        if c in pending {
          var existing := pending[c];
          pending := pending - {c};
          live := live - {existing};
        }
        var timer := Timer(nextTimer, c);
        live := live + {timer};
        pending := pending[c := timer];
        nextTimer := nextTimer + 1;
        return;
      }
      DispatchComponentAlertImmediate(c);
    }

    method TimerFires(timer: Timer)
      modifies this
      ensures Value() == Fired(old(Value()), timer)
    {
      if timer !in live {
        return;
      }
      live := live - {timer};
      pending := pending - {timer.component};
      DispatchComponentAlertImmediate(timer.component);
    }
  }

  /** What a recalculation does, exactly. A component that is not stored or whose status is the last
      notified one is left alone. Otherwise its own window, or else the configured one, decides: with a
      positive one no notice goes out, and the component's only running timer is a new one; without, the
      notice goes out at once and no timer is touched. */
  lemma RecalculateDecides(s: Service, c: Id, own: int, configured: Option<int>)
    ensures
      var s' := Recalculated(s, c, GroupingWindow(own, configured));
      if !(c in s.resources && c in s.last) || s.last[c] == Derive(s.resources[c]) then s' == s
      else if own > 0 || (configured.Some? && configured.value > 0) then
        && s'.notices == s.notices && s'.last == s.last && s'.resources == s.resources
        && Timer(s.nextTimer, c) in s'.live && s'.nextTimer == s.nextTimer + 1
        && c in s'.pending && s'.pending[c] == Timer(s.nextTimer, c)
        && (c in s.pending ==> s.pending[c] == Timer(s.nextTimer, c) || s.pending[c] !in s'.live)
        && (forall d :: d != c ==>
              (d in s'.pending <==> d in s.pending) && (d in s.pending ==> s'.pending[d] == s.pending[d]))
      else
        && s'.notices == s.notices + [Notice(c, Derive(s.resources[c]))]
        && s'.last == s.last[c := Derive(s.resources[c])]
        && s'.live == s.live && s'.pending == s.pending && s'.resources == s.resources
  {}

  // ---------- Runs ----------

  datatype Op =
    | Change(component: Id, statuses: seq<ResourceStatus>)
    | Recalculate(component: Id, window: int)
    | Fire(timer: Timer)

  /** `dirty` are the components whose resources changed without a recalculation since. */
  datatype Run = Run(s: Service, dirty: set<Id>)

  function Apply(r: Run, op: Op): Run {
    match op
    case Change(c, statuses) =>
      if c in r.s.resources then Run(r.s.(resources := r.s.resources[c := statuses]), r.dirty + {c}) else r
    case Recalculate(c, window) => Run(Recalculated(r.s, c, window), r.dirty - {c})
    case Fire(timer) => Run(Fired(r.s, timer), r.dirty)
  }

  /** A change of resources is seen by the next recalculation or timer. */
  lemma ChangeIsSeen(r: Run, c: Id, statuses: seq<ResourceStatus>)
    ensures
      var r' := Apply(r, Change(c, statuses));
      if c in r.s.resources then
        r'.s == r.s.(resources := r'.s.resources) && r'.s.resources.Keys == r.s.resources.Keys &&
        r'.s.resources[c] == statuses &&
        forall d :: d in r.s.resources && d != c ==> r'.s.resources[d] == r.s.resources[d]
      else r'.s == r.s
  {}

  function Execute(r: Run, ops: seq<Op>): Run {
    if ops == [] then r else Apply(Execute(r, ops[..|ops| - 1]), ops[|ops| - 1])
  }

  /** Stored components start with last notified status "up". */
  function Fresh(resources: map<Id, seq<ResourceStatus>>): Service {
    Service(resources, map c | c in resources :: CUp, {}, map[], 0, [])
  }

  function LastNotice(ns: seq<Notice>, c: Id): Option<ComponentStatus> {
    if ns == [] then None
    else if ns[|ns| - 1].component == c then Some(ns[|ns| - 1].status)
    else LastNotice(ns[..|ns| - 1], c)
  }

  /** No component is notified twice in a row with the same status. */
  predicate NoRepeats(ns: seq<Notice>) {
    ns == [] ||
    (NoRepeats(ns[..|ns| - 1]) &&
     LastNotice(ns[..|ns| - 1], ns[|ns| - 1].component) != Some(ns[|ns| - 1].status))
  }

  /** The running timers are exactly those in the table: at most one per component. */
  ghost predicate OneTimer(s: Service) {
    && (forall timer :: timer in s.live <==> timer.component in s.pending && s.pending[timer.component] == timer)
    && (forall c :: c in s.pending ==> s.pending[c].component == c)
    && (forall timer :: timer in s.live ==> timer.id < s.nextTimer)
  }

  ghost predicate Reported(s: Service) {
    && s.last.Keys == s.resources.Keys
    && NoRepeats(s.notices)
    && (forall c :: c in s.last && LastNotice(s.notices, c).Some? ==> LastNotice(s.notices, c) == Some(s.last[c]))
  }

  /** Nothing outstanding means nothing to report. */
  ghost predicate Converged(r: Run) {
    forall c :: c in r.s.resources && c in r.s.last && c !in r.dirty && c !in r.s.pending ==>
      r.s.last[c] == Derive(r.s.resources[c])
  }

  ghost predicate Good(r: Run) {
    OneTimer(r.s) && Reported(r.s) && Converged(r)
  }

  lemma DispatchReported(s: Service, c: Id)
    requires Reported(s)
    ensures Reported(Dispatched(s, c))
    ensures Known(s, c) ==> Dispatched(s, c).last[c] == Derive(s.resources[c])
  {
    var s' := Dispatched(s, c);
    if s' != s {
      assert s'.notices[..|s'.notices| - 1] == s.notices;
    }
  }

  lemma RecalculateOneTimer(s: Service, c: Id, window: int)
    requires OneTimer(s)
    ensures OneTimer(Recalculated(s, c, window))
  {}

  lemma RecalculateReported(s: Service, c: Id, window: int)
    requires Reported(s)
    ensures Reported(Recalculated(s, c, window))
  {
    DispatchReported(s, c);
  }

  lemma RecalculateConverged(r: Run, c: Id, window: int)
    requires Converged(r)
    ensures Converged(Apply(r, Recalculate(c, window)))
  {}

  lemma FireConverged(r: Run, timer: Timer)
    requires Converged(r) && timer in r.s.live
    ensures Converged(Apply(r, Fire(timer)))
  {}

  lemma FireGood(r: Run, timer: Timer)
    requires Good(r) && timer in r.s.live
    ensures Good(Apply(r, Fire(timer)))
  {
    var s := r.s.(live := r.s.live - {timer}, pending := r.s.pending - {timer.component});
    assert OneTimer(s);
    DispatchReported(s, timer.component);
    FireConverged(r, timer);
  }

  lemma ApplyGood(r: Run, op: Op)
    requires Good(r)
    ensures Good(Apply(r, op))
  {
    match op {
      case Change(_, _) =>
      case Recalculate(c, window) =>
        RecalculateOneTimer(r.s, c, window);
        RecalculateReported(r.s, c, window);
        RecalculateConverged(r, c, window);
      case Fire(timer) =>
        if timer in r.s.live {
          FireGood(r, timer);
        }
    }
  }

  /** In every run: at most one live timer per component, no two consecutive notices of a component
      with the same status, and a component with neither an unprocessed change nor a pending timer
      has been notified with its current status. The resources a component starts with count as a
      change. */
  lemma {:induction false} AlertsConverge(resources: map<Id, seq<ResourceStatus>>, ops: seq<Op>)
    ensures Good(Execute(Run(Fresh(resources), resources.Keys), ops))
  {
    if ops == [] {
    } else {
      AlertsConverge(resources, ops[..|ops| - 1]);
      ApplyGood(Execute(Run(Fresh(resources), resources.Keys), ops[..|ops| - 1]), ops[|ops| - 1]);
    }
  }

  /** A burst on one component: changes and recalculations with grouping on, no timer firing. */
  predicate InBurst(op: Op, c: Id) {
    match op
    case Change(d, _) => d == c
    case Recalculate(d, window) => d == c && window > 0
    case Fire(_) => false
  }

  lemma {:induction false} BurstIsSilent(r: Run, c: Id, ops: seq<Op>)
    requires forall i :: 0 <= i < |ops| ==> InBurst(ops[i], c)
    ensures Execute(r, ops).s.notices == r.s.notices && Execute(r, ops).s.last == r.s.last
  {
    if ops == [] {
    } else {
      BurstIsSilent(r, c, ops[..|ops| - 1]);
    }
  }

  /** A burst followed by its timer produces exactly one notice if the component ends in a status
      other than the last notified one, and none otherwise, however often it changed meanwhile. */
  lemma BurstYieldsOneNoticeIff(r: Run, c: Id, ops: seq<Op>, timer: Timer)
    requires Known(r.s, c) && forall i :: 0 <= i < |ops| ==> InBurst(ops[i], c)
    requires timer in Execute(r, ops).s.live && timer.component == c && Known(Execute(r, ops).s, c)
    ensures
      var before := Execute(r, ops).s;
      var d := Derive(before.resources[c]);
      Fired(before, timer).notices == r.s.notices + (if d == r.s.last[c] then [] else [Notice(c, d)])
  {
    BurstIsSilent(r, c, ops);
  }
}
