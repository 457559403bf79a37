/** Host offline and recovery alerts (internal/service/host_liveness_service.go). The alert state
    of a host is durable; reads of it may fail, and the process may crash between writing the
    state and emitting the notice. */
module HostLiveness {
  import opened Wrappers

  type Id = string

  datatype Stored = Online | Offline(since: int, alerted: bool)

  datatype Notice = WentOffline | Recovered

  /** One evaluation of a host: what it looks like, whether its stored state can be read and
      written, and whether the process crashes after the write. */
  datatype Observation = Observation(online: bool, now: int, readOk: bool, writeOk: bool, crash: bool)

  /** The new stored state and the notice the code decides on. */
  datatype Decision = Decision(stored: Option<Stored>, notice: Option<Notice>)

  function Write(stored: Option<Stored>, value: Stored, ok: bool): Option<Stored> {
    if ok then Some(value) else stored
  }

  function Reconcile(stored: Option<Stored>, o: Observation): Decision {
    if !o.readOk then Decision(stored, None)
    else if o.online then
      if stored.Some? && stored.value.Offline? then
        Decision(Write(stored, Online, o.writeOk), if stored.value.alerted then Some(Recovered) else None)
      else Decision(stored, None)
    else if stored.None? || stored.value.Online? then
      Decision(Write(stored, Offline(o.now, false), o.writeOk), None)
    else if !stored.value.alerted then
      Decision(Write(stored, Offline(stored.value.since, true), o.writeOk), Some(WentOffline))
    else Decision(stored, None)
  }

  // ---------- Runs of one host ----------

  /** The stored state and the notices decided on, each with whether the state written with it was
      stored and whether it reached the feed. */
  datatype Log = Log(notice: Notice, stored: bool, emitted: bool)
  datatype Run = Run(stored: Option<Stored>, log: seq<Log>)

  function Execute(obs: seq<Observation>): Run {
    if obs == [] then Run(None, [])
    else
      var r, o := Execute(obs[..|obs| - 1]), obs[|obs| - 1];
      var d := Reconcile(r.stored, o);
      Run(d.stored, if d.notice.Some? then r.log + [Log(d.notice.value, o.writeOk, !o.crash)] else r.log)
  }

  /** The observations whose stored state could be read, true for online. */
  function Processed(obs: seq<Observation>): seq<bool> {
    if obs == [] then []
    else Processed(obs[..|obs| - 1]) + (if obs[|obs| - 1].readOk then [obs[|obs| - 1].online] else [])
  }

  /** How many processed observations in a row, up to the last, were offline. */
  function OfflineRun(h: seq<bool>): nat {
    if h == [] || h[|h| - 1] then 0 else OfflineRun(h[..|h| - 1]) + 1
  }

  predicate Durable(obs: seq<Observation>) {
    forall i :: 0 <= i < |obs| ==> obs[i].writeOk
  }

  /** With durable writes the stored state is a function of the offline run. */
  ghost predicate Matches(stored: Option<Stored>, run: nat) {
    if run == 0 then stored.None? || stored.value.Online?
    else stored.Some? && stored.value.Offline? && (stored.value.alerted <==> run >= 2)
  }

  lemma OfflineRunStep(h: seq<bool>, b: bool)
    ensures OfflineRun(h + [b]) == if b then 0 else OfflineRun(h) + 1
  {
    assert (h + [b])[..|h + [b]| - 1] == h;
  }

  lemma {:induction false} StateMatchesRun(obs: seq<Observation>)
    requires Durable(obs)
    ensures Matches(Execute(obs).stored, OfflineRun(Processed(obs)))
  {
    if obs == [] {
    } else {
      var before, o := obs[..|obs| - 1], obs[|obs| - 1];
      StateMatchesRun(before);
      if o.readOk {
        OfflineRunStep(Processed(before), o.online);
      }
    }
  }

  /** Notices, exactly: an offline notice is decided at the second processed offline observation in
      a row and at no other, a recovery at the first processed online one after at least two. */
  lemma NoticeIff(obs: seq<Observation>, o: Observation)
    requires Durable(obs + [o])
    ensures
      var h, d := Processed(obs), Reconcile(Execute(obs).stored, o);
      && (d.notice == Some(WentOffline) <==> o.readOk && !o.online && OfflineRun(h + [false]) == 2)
      && (d.notice == Some(Recovered) <==> o.readOk && o.online && OfflineRun(h) >= 2)
  {
    assert forall i :: 0 <= i < |obs| ==> obs[i] == (obs + [o])[i];
    StateMatchesRun(obs);
    OfflineRunStep(Processed(obs), false);
  }

  /** When the current run of processed offline observations began. */
  function OfflineSince(obs: seq<Observation>): Option<int> {
    if obs == [] then None
    else
      var o, before := obs[|obs| - 1], OfflineSince(obs[..|obs| - 1]);
      if !o.readOk then before
      else if o.online then None
      else if before.Some? then before else Some(o.now)
  }

  /** The stored offline state keeps the time at which the host was first seen offline. */
  lemma {:induction false} SinceIsFirst(obs: seq<Observation>)
    requires Durable(obs)
    ensures
      var stored := Execute(obs).stored;
      OfflineSince(obs) == if stored.Some? && stored.value.Offline? then Some(stored.value.since) else None
  {
    if obs == [] {
    } else {
      SinceIsFirst(obs[..|obs| - 1]);
    }
  }

  predicate Alternates(log: seq<Log>) {
    forall i :: 0 <= i < |log| ==> log[i].notice == if i % 2 == 0 then WentOffline else Recovered
  }

  function Other(n: Notice): Notice {
    if n == WentOffline then Recovered else WentOffline
  }

  /** The only notice a stored state can lead to next. */
  function NextNotice(stored: Option<Stored>): Notice {
    if stored.Some? && stored.value.Offline? && stored.value.alerted then Recovered else WentOffline
  }

  /** The notices start with offline; after each the other one follows if its write was stored, and the
      same one again if it was not. */
  ghost predicate Chained(log: seq<Log>) {
    && (log != [] ==> log[0].notice == WentOffline)
    && (forall i :: 0 <= i < |log| - 1 ==>
         log[i + 1].notice == if log[i].stored then Other(log[i].notice) else log[i].notice)
  }

  /** In every run, whatever reads and writes fail and wherever the process crashes, each notice decided
      on is determined by the one before it and whether that one's write was stored. */
  lemma {:induction false} NoticesChained(obs: seq<Observation>)
    ensures
      var r := Execute(obs);
      && Chained(r.log)
      && (Durable(obs) ==> forall i :: 0 <= i < |r.log| ==> r.log[i].stored)
      && NextNotice(r.stored) ==
           (if r.log == [] then WentOffline
            else if r.log[|r.log| - 1].stored then Other(r.log[|r.log| - 1].notice)
            else r.log[|r.log| - 1].notice)
  {
    if obs == [] {
    } else {
      NoticesChained(obs[..|obs| - 1]);
    }
  }

  /** Alternation, exactly: in every run the decided notices strictly alternate, starting with offline, if
      and only if the state written with each of them, except perhaps the last, was stored. Failed reads,
      failed writes that go with no notice, and crashes never break it. */
  lemma NoticesAlternate(obs: seq<Observation>)
    ensures
      var log := Execute(obs).log;
      && (Alternates(log) <==> forall i :: 0 <= i < |log| - 1 ==> log[i].stored)
      && (Durable(obs) ==> Alternates(log))
  {
    NoticesChained(obs);
    ChainAlternatesIff(Execute(obs).log);
  }

  lemma {:induction false} ChainAlternatesIff(log: seq<Log>)
    requires Chained(log)
    ensures Alternates(log) <==> forall i :: 0 <= i < |log| - 1 ==> log[i].stored
  {
    if log == [] {
    } else {
      var n := |log| - 1;
      ChainAlternatesIff(log[..n]);
      if n > 0 {
        assert log[n].notice == if log[n - 1].stored then Other(log[n - 1].notice) else log[n - 1].notice;
        assert forall i :: 0 <= i < n ==> log[..n][i] == log[i];
      }
    }
  }

  /** A crash can lose a notice; without one all decided notices are emitted. */
  lemma {:induction false} OnlyCrashesLose(obs: seq<Observation>)
    ensures (forall i :: 0 <= i < |obs| ==> !obs[i].crash) ==>
      forall i :: 0 <= i < |Execute(obs).log| ==> Execute(obs).log[i].emitted
  {
    if obs == [] {
    } else {
      OnlyCrashesLose(obs[..|obs| - 1]);
    }
  }

  /** The failing inputs: while the write of the alerted state keeps failing, every offline observation
      decides on the same notice again. */
  lemma {:induction false} FailedWriteRepeats(obs: seq<Observation>, n: nat, o: Observation)
    requires Durable(obs) && OfflineRun(Processed(obs)) == 1
    requires o.readOk && !o.online && !o.writeOk
    ensures
      var r := Execute(obs + seq(n, _ => o));
      && r.stored == Execute(obs).stored
      && r.log == Execute(obs).log + seq(n, _ => Log(WentOffline, false, !o.crash))
  {
    if n == 0 {
      assert obs + seq(n, _ => o) == obs;
    } else {
      FailedWriteRepeats(obs, n - 1, o);
      StateMatchesRun(obs);
      var all := obs + seq(n, _ => o);
      assert all[..|all| - 1] == obs + seq(n - 1, _ => o);
      assert seq(n, _ => Log(WentOffline, false, !o.crash)) ==
        seq(n - 1, _ => Log(WentOffline, false, !o.crash)) + [Log(WentOffline, false, !o.crash)];
    }
  }

  // ---------- The scan ----------

  const PAGE_SIZE := 500

  datatype Host = Host(id: Id, lastSeenAt: Option<int>, readOk: bool, writeOk: bool)

  predicate IsOnline(h: Host, now: int, freshness: int)
    requires h.lastSeenAt.Some?
  {
    now - h.lastSeenAt.value <= freshness
  }

  function Observe(h: Host, now: int, freshness: int): Observation
    requires h.lastSeenAt.Some?
  {
    Observation(IsOnline(h, now, freshness), now, h.readOk, h.writeOk, false)
  }

  datatype Fleet = Fleet(state: map<Id, Stored>, feed: seq<(Id, Notice)>)

  function Lookup(state: map<Id, Stored>, id: Id): Option<Stored> {
    if id in state then Some(state[id]) else None
  }

  function ScanHost(f: Fleet, h: Host, now: int, freshness: int): Fleet {
    if h.lastSeenAt.None? then f
    else
      var stored := Lookup(f.state, h.id);
      var d := Reconcile(stored, Observe(h, now, freshness));
      Fleet(if d.stored != stored && d.stored.Some? then f.state[h.id := d.stored.value] else f.state,
            if d.notice.Some? then f.feed + [(h.id, d.notice.value)] else f.feed)
  }

  function ScanAll(f: Fleet, hosts: seq<Host>, now: int, freshness: int): Fleet {
    if hosts == [] then f
    else ScanHost(ScanAll(f, hosts[..|hosts| - 1], now, freshness), hosts[|hosts| - 1], now, freshness)
  }

  /** Freshness decides: a host of which nothing is stored is recorded as offline, now, exactly when it
      has reported and its last report is older than the freshness; one that never reported is passed
      over. */
  lemma FreshnessDecides(f: Fleet, h: Host, now: int, freshness: int)
    requires h.id !in f.state && h.readOk && h.writeOk
    ensures
      var after := ScanHost(f, h, now, freshness);
      && after.feed == f.feed
      && (if h.lastSeenAt.Some? && now > h.lastSeenAt.value + freshness
          then after.state == f.state[h.id := Offline(now, false)] else after.state == f.state)
  {}

  /** The notices of one host, in order. */
  function NoticesOf(feed: seq<(Id, Notice)>, id: Id): seq<Notice> {
    if feed == [] then []
    else NoticesOf(feed[..|feed| - 1], id) + (if feed[|feed| - 1].0 == id then [feed[|feed| - 1].1] else [])
  }

  /** What a scan of `hosts` decides for one id. */
  function DecisionFor(f: Fleet, hosts: seq<Host>, now: int, freshness: int, id: Id): Decision {
    if hosts == [] then Decision(Lookup(f.state, id), None)
    else
      var h := hosts[|hosts| - 1];
      if h.id == id && h.lastSeenAt.Some? then Reconcile(Lookup(f.state, id), Observe(h, now, freshness))
      else DecisionFor(f, hosts[..|hosts| - 1], now, freshness, id)
  }

  /** Scanning a fleet with distinct ids evaluates each reporting host once against its own stored state:
      its state and its notices are those of that one decision, and other hosts do not matter. */
  lemma {:induction false} ScanIsPerHost(f: Fleet, hosts: seq<Host>, now: int, freshness: int, id: Id)
    requires forall i, j :: 0 <= i < j < |hosts| ==> hosts[i].id != hosts[j].id
    ensures
      var after, d := ScanAll(f, hosts, now, freshness), DecisionFor(f, hosts, now, freshness, id);
      && Lookup(after.state, id) == d.stored
      && NoticesOf(after.feed, id) == NoticesOf(f.feed, id) + (if d.notice.Some? then [d.notice.value] else [])
  {
    if hosts == [] {
      assert NoticesOf(f.feed, id) + [] == NoticesOf(f.feed, id);
    } else {
      var init, h := hosts[..|hosts| - 1], hosts[|hosts| - 1];
      ScanIsPerHost(f, init, now, freshness, id);
      if h.id == id {
        NotListed(f, init, now, freshness, id);
      }
      var mid := ScanAll(f, init, now, freshness);
      FeedStep(mid, h, now, freshness, id);
    }
  }

  lemma {:induction false} NotListed(f: Fleet, hosts: seq<Host>, now: int, freshness: int, id: Id)
    requires forall i :: 0 <= i < |hosts| ==> hosts[i].id != id
    ensures DecisionFor(f, hosts, now, freshness, id) == Decision(Lookup(f.state, id), None)
  {
    if hosts == [] {
    } else {
      NotListed(f, hosts[..|hosts| - 1], now, freshness, id);
    }
  }

  lemma FeedStep(f: Fleet, h: Host, now: int, freshness: int, id: Id)
    ensures
      var after := ScanHost(f, h, now, freshness);
      if h.id == id && h.lastSeenAt.Some? then
        var d := Reconcile(Lookup(f.state, id), Observe(h, now, freshness));
        && Lookup(after.state, id) == d.stored
        && NoticesOf(after.feed, id) == NoticesOf(f.feed, id) + (if d.notice.Some? then [d.notice.value] else [])
      else
        Lookup(after.state, id) == Lookup(f.state, id) && NoticesOf(after.feed, id) == NoticesOf(f.feed, id)
  {
    var after := ScanHost(f, h, now, freshness);
    if after.feed != f.feed {
      assert after.feed[..|after.feed| - 1] == f.feed;
    }
  }

  class HostLivenessService {
    var state: map<Id, Stored>
    var feed: seq<(Id, Notice)>
    const hosts: seq<Host>
    const freshness: int

    constructor (hosts: seq<Host>, freshness: int)
      ensures this.hosts == hosts && state == map[] && feed == []
      ensures this.freshness == if freshness <= 0 then 45 else freshness
    {
      this.hosts := hosts;
      this.freshness := if freshness <= 0 then 45 else freshness;
      state, feed := map[], [];
    }

    ghost function Value(): Fleet
      reads this
    {
      Fleet(state, feed)
    }

    method List(limit: nat, offset: nat) returns (page: seq<Host>)
      ensures page == if offset >= |hosts| then [] else
        if offset + limit <= |hosts| then hosts[offset..offset + limit] else hosts[offset..]
    {
      if offset >= |hosts| {
        return [];
      }
      page := if offset + limit <= |hosts| then hosts[offset..offset + limit] else hosts[offset..];
    }

    method ReconcileHost(h: Host, now: int)
      modifies this
      ensures Value() == ScanHost(old(Value()), h, now, freshness)
    {
      if h.lastSeenAt.None? {
        return;
      }
      var stored := Lookup(state, h.id);
      if !h.readOk {
        return;
      }
      if now - h.lastSeenAt.value <= freshness {
        if stored.Some? && stored.value.Offline? {
          if h.writeOk {
            state := state[h.id := Online];
          }
          if stored.value.alerted {
            feed := feed + [(h.id, Recovered)];
          }
        }
      } else if stored.None? || stored.value.Online? {
        if h.writeOk {
          state := state[h.id := Offline(now, false)];
        }
      } else if !stored.value.alerted {
        if h.writeOk {
          state := state[h.id := Offline(stored.value.since, true)];
        }
        feed := feed + [(h.id, WentOffline)];
      }
    }

    /** The paging loop evaluates each host at most once, in listing order, and all of them unless
        the listing of some page fails; it then stops after the pages before it. */
    method Detect(now: int, failing: set<nat>)
      modifies this
      ensures Value() == ScanAll(old(Value()), hosts[..Reached(|hosts|, failing, 0)], now, freshness)
    {
      var offset := 0;
      while true
        invariant offset <= |hosts|
        invariant Reached(|hosts|, failing, 0) == Reached(|hosts|, failing, offset)
        invariant Value() == ScanAll(old(Value()), hosts[..offset], now, freshness)
        decreases |hosts| - offset
      {
        if offset in failing {
          return;
        }
        var page := List(PAGE_SIZE, offset);
        ScanPage(page, offset, old(Value()), now);
        if |page| < PAGE_SIZE {
          break;
        }
        offset := offset + PAGE_SIZE;
      }
    }

    method ScanPage(page: seq<Host>, offset: nat, ghost start: Fleet, now: int)
      requires offset + |page| <= |hosts| && page == hosts[offset..offset + |page|]
      requires Value() == ScanAll(start, hosts[..offset], now, freshness)
      modifies this
      ensures Value() == ScanAll(start, hosts[..offset + |page|], now, freshness)
    {
      for k := 0 to |page|
        invariant Value() == ScanAll(start, hosts[..offset + k], now, freshness)
      {
        assert hosts[..offset + k + 1][..offset + k] == hosts[..offset + k];
        ReconcileHost(page[k], now);
      }
    }
  }

  /** How far a scan gets from `offset` when the pages at the offsets in `failing` cannot be listed. */
  function Reached(count: nat, failing: set<nat>, offset: nat): (n: nat)
    requires offset <= count
    ensures offset <= n <= count
    ensures failing == {} ==> n == count
    decreases count - offset
  {
    if offset in failing then offset
    else if offset + PAGE_SIZE > count then count
    else Reached(count, failing, offset + PAGE_SIZE)
  }

  /** The offsets at which pages begin. */
  predicate PageOffset(m: nat) {
    m == 0 || (m >= PAGE_SIZE && PageOffset(m - PAGE_SIZE))
  }

  lemma {:induction false} PagesApart(offset: nat, m: nat)
    requires PageOffset(offset) && PageOffset(m) && offset <= m < offset + PAGE_SIZE
    ensures m == offset
  {
    if offset == 0 {
    } else {
      PagesApart(offset - PAGE_SIZE, m - PAGE_SIZE);
    }
  }

  /** A scan reaches every host, or stops at the first page that cannot be listed. */
  lemma {:induction false} ReachedMeaning(count: nat, failing: set<nat>, offset: nat)
    requires offset <= count && PageOffset(offset)
    ensures
      var n := Reached(count, failing, offset);
      && (n == count || (n in failing && PageOffset(n)))
      && (forall m: nat :: offset <= m < n && PageOffset(m) ==> m !in failing)
    decreases count - offset
  {
    var n := Reached(count, failing, offset);
    if offset in failing {
    } else {
      if offset + PAGE_SIZE <= count {
        ReachedMeaning(count, failing, offset + PAGE_SIZE);
      }
      forall m: nat | offset <= m < n && PageOffset(m)
        ensures m !in failing
      {
        if m < offset + PAGE_SIZE {
          PagesApart(offset, m);
        }
      }
    }
  }
}
