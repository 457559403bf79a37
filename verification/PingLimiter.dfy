/** The fixed-window limiter on heartbeat pings (internal/api/handler/ping_rate_limiter.go). Times
    are nanoseconds since the Unix epoch; the period is in whole seconds. */
module PingLimiter {

  datatype Counter = Counter(window: int, count: int)

  /** `time.Unix` rounds down to seconds; Go's integer division truncates toward zero. */
  function Unix(now: int): int {
    now / 1_000_000_000
  }

  function Quotient(a: int, b: int): int
    requires b > 0
  {
    if a >= 0 then a / b else -((-a) / b)
  }

  function Window(now: int, per: int): int
    requires per > 0
  {
    Quotient(Unix(now), per)
  }

  type Counters = map<string, Counter>

  /** The counter a call sees: reset when the window has changed. A missing one is all zero. */
  function Current(cs: Counters, key: string, window: int): Counter {
    var c := if key in cs then cs[key] else Counter(0, 0);
    if c.window != window then Counter(window, 0) else c
  }

  datatype Limiter = Limiter(max: int, per: int)

  predicate Allows(l: Limiter, cs: Counters, key: string, now: int)
    requires l.per > 0
  {
    Current(cs, key, Window(now, l.per)).count < l.max
  }

  function Updated(l: Limiter, cs: Counters, key: string, now: int): Counters
    requires l.per > 0
  {
    var c := Current(cs, key, Window(now, l.per));
    cs[key := if c.count < l.max then c.(count := c.count + 1) else c]
  }

  class PingRateLimiter {
    const limits: Limiter
    var counters: Counters

    constructor (max: int, per: int)
      ensures limits == Limiter(max, per) && counters == map[]
    {
      limits := Limiter(max, per);
      counters := map[];
    }

    method Allow(key: string, now: int) returns (ok: bool)
      requires limits.per > 0
      modifies this
      ensures ok == Allows(limits, old(counters), key, now)
      ensures counters == Updated(limits, old(counters), key, now)
    {
      var window := Window(now, limits.per);
      var counter := if key in counters then counters[key] else Counter(0, 0);
      if counter.window != window {
        counter := Counter(window, 0);
      }
      if counter.count >= limits.max {
        counters := counters[key := counter];
        return false;
      }
      counter := counter.(count := counter.count + 1);
      counters := counters[key := counter];
      ok := true;
    }
  }

  // ---------- Runs ----------

  datatype Call = Call(key: string, now: int)

  function After(l: Limiter, calls: seq<Call>): Counters
    requires l.per > 0
  {
    if calls == [] then map[]
    else
      var c := calls[|calls| - 1];
      Updated(l, After(l, calls[..|calls| - 1]), c.key, c.now)
  }

  predicate Accepted(l: Limiter, calls: seq<Call>, i: nat)
    requires l.per > 0 && i < |calls|
  {
    Allows(l, After(l, calls[..i]), calls[i].key, calls[i].now)
  }

  /** Accepted calls of a key in one aligned window. */
  function AcceptedIn(l: Limiter, calls: seq<Call>, key: string, window: int): nat
    requires l.per > 0
  {
    if calls == [] then 0
    else
      var n := |calls| - 1;
      AcceptedIn(l, calls[..n], key, window) +
      (if calls[n].key == key && Window(calls[n].now, l.per) == window && Accepted(l, calls, n) then 1 else 0)
  }

  predicate Monotone(calls: seq<Call>) {
    forall i, j :: 0 <= i < j < |calls| ==> calls[i].now <= calls[j].now
  }

  lemma QuotientMonotone(a: int, b: int, per: int)
    requires a <= b && per > 0
    ensures Quotient(a, per) <= Quotient(b, per)
  {
    if a >= 0 {
      DivMonotone(a, b, per);
    } else if b < 0 {
      DivMonotone(-b, -a, per);
    } else {
      assert (-a) / per >= 0 && b / per >= 0 by { DivMonotone(0, -a, per); DivMonotone(0, b, per); }
    }
  }

  lemma DivMonotone(a: int, b: int, per: int)
    requires 0 <= a <= b && per > 0
    ensures 0 <= a / per <= b / per
  {
    var p, q := a / per, b / per;
    assert a == p * per + a % per && b == q * per + b % per;
    assert (q - p) * per == q * per - p * per;
    NotNegative(q - p, per);
    NotNegative(p, per);
  }

  lemma NotNegative(k: int, per: int)
    requires per > 0 && k * per > -per
    ensures k >= 0
  {
    assert (k + 1) * per == k * per + per;
    assert k <= -1 ==> (k + 1) * per <= 0;
  }

  lemma SmallMultiple(k: int, per: int)
    requires -per < k * per < per
    ensures k == 0
  {
    assert (k - 1) * per == k * per - per && (k + 1) * per == k * per + per;
    assert k >= 1 ==> (k - 1) * per >= 0;
    assert k <= -1 ==> (k + 1) * per <= 0;
  }

  lemma DivUnique(a: int, per: int, q: int, r: int)
    requires 0 <= r < per && a == q * per + r
    ensures a / per == q
  {
    var q2, r2 := a / per, a % per;
    assert a == q2 * per + r2;
    assert (q - q2) * per == q * per - q2 * per;
    SmallMultiple(q - q2, per);
  }

  lemma DivShift(a: int, per: int)
    requires per > 0
    ensures (a + per) / per == a / per + 1
  {
    var q, r := a / per, a % per;
    assert a == q * per + r && (q + 1) * per == q * per + per;
    DivUnique(a + per, per, q + 1, r);
  }

  lemma UnixSpan(s: int, t: int, per: int)
    requires s <= t < s + per * 1_000_000_000
    ensures Unix(s) <= Unix(t) <= Unix(s) + per
  {}

  /** Two moments less than a period apart lie in the same window or in neighbouring ones. */
  lemma NeighbouringWindows(s: int, t: int, per: int)
    requires per > 0 && s <= t < s + per * 1_000_000_000
    ensures Window(s, per) <= Window(t, per) <= Window(s, per) + 1
  {
    UnixSpan(s, t, per);
    var u, v := Unix(s), Unix(t);
    QuotientMonotone(u, v, per);
    QuotientMonotone(v, u + per, per);
    QuotientShift(u, per);
  }

  lemma QuotientShift(u: int, per: int)
    requires per > 0
    ensures Quotient(u + per, per) <= Quotient(u, per) + 1
  {
    if u >= 0 {
      DivShift(u, per);
    } else if u + per <= 0 {
      DivShift(-(u + per), per);
      assert -(u + per) + per == -u;
    } else {
      DivUnique(u + per, per, 0, u + per);
      DivUnique(-u, per, 0, -u);
    }
  }

  /** What the counter of a key stands for. */
  ghost predicate Counts(l: Limiter, calls: seq<Call>, key: string)
    requires l.per > 0
  {
    var cs := After(l, calls);
    if key in cs then
      && cs[key].count == AcceptedIn(l, calls, key, cs[key].window)
      && (forall w :: w > cs[key].window ==> AcceptedIn(l, calls, key, w) == 0)
      && (exists i :: 0 <= i < |calls| && cs[key].window == Window(calls[i].now, l.per))
    else forall w :: AcceptedIn(l, calls, key, w) == 0
  }

  lemma LaterWindow(l: Limiter, calls: seq<Call>, key: string)
    requires l.per > 0 && calls != [] && Monotone(calls)
    requires Counts(l, calls[..|calls| - 1], key)
    ensures
      var n := |calls| - 1;
      var cs := After(l, calls[..n]);
      key in cs ==> cs[key].window <= Window(calls[n].now, l.per)
  {
    var n := |calls| - 1;
    var cs := After(l, calls[..n]);
    if key in cs {
      var i :| 0 <= i < n && cs[key].window == Window(calls[..n][i].now, l.per);
      UnixMonotone(calls[i].now, calls[n].now);
      QuotientMonotone(Unix(calls[i].now), Unix(calls[n].now), l.per);
    }
  }

  lemma UnixMonotone(a: int, b: int)
    requires a <= b
    ensures Unix(a) <= Unix(b)
  {}

  /** The current count is the number of calls accepted in the call's window. */
  lemma CurrentIsAccepted(l: Limiter, calls: seq<Call>, key: string)
    requires l.per > 0 && calls != [] && Monotone(calls)
    requires Counts(l, calls[..|calls| - 1], key)
    ensures
      var n := |calls| - 1;
      var w := Window(calls[n].now, l.per);
      Current(After(l, calls[..n]), key, w).count == AcceptedIn(l, calls[..n], key, w)
  {
    LaterWindow(l, calls, key);
  }

  lemma {:induction false} CountsAlways(l: Limiter, calls: seq<Call>, key: string)
    requires l.per > 0 && Monotone(calls)
    ensures Counts(l, calls, key)
  {
    if calls == [] {
    } else {
      var n := |calls| - 1;
      CountsAlways(l, calls[..n], key);
      CurrentIsAccepted(l, calls, key);
      LaterWindow(l, calls, key);
      CountsStep(l, calls, key);
    }
  }

  lemma CountsStep(l: Limiter, calls: seq<Call>, key: string)
    requires l.per > 0 && calls != []
    requires Counts(l, calls[..|calls| - 1], key)
    requires
      var n := |calls| - 1;
      var cs, w := After(l, calls[..n]), Window(calls[n].now, l.per);
      (key in cs ==> cs[key].window <= w) && Current(cs, key, w).count == AcceptedIn(l, calls[..n], key, w)
    ensures Counts(l, calls, key)
  {
    var n := |calls| - 1;
    var before, w := After(l, calls[..n]), Window(calls[n].now, l.per);
    if calls[n].key == key {
      assert After(l, calls)[key].window == w;
      assert forall v :: v != w ==> AcceptedIn(l, calls, key, v) == AcceptedIn(l, calls[..n], key, v);
    } else {
      assert forall v :: AcceptedIn(l, calls, key, v) == AcceptedIn(l, calls[..n], key, v);
      if key in before {
        var i :| 0 <= i < n && before[key].window == Window(calls[..n][i].now, l.per);
        assert calls[i] == calls[..n][i];
      }
    }
  }

  /** With a clock that does not run back, a call is accepted exactly when fewer than `max` calls
      of its key were accepted in its aligned window. */
  lemma AllowedIff(l: Limiter, calls: seq<Call>)
    requires l.per > 0 && calls != [] && Monotone(calls)
    ensures
      var n := |calls| - 1;
      Accepted(l, calls, n) <==>
        AcceptedIn(l, calls[..n], calls[n].key, Window(calls[n].now, l.per)) < l.max
  {
    var n := |calls| - 1;
    CountsAlways(l, calls[..n], calls[n].key);
    CurrentIsAccepted(l, calls, calls[n].key);
  }

  lemma {:induction false} WindowBound(l: Limiter, calls: seq<Call>, key: string, window: int)
    requires l.per > 0 && l.max >= 0 && Monotone(calls)
    ensures AcceptedIn(l, calls, key, window) <= l.max
  {
    if calls == [] {
    } else {
      WindowBound(l, calls[..|calls| - 1], key, window);
      AllowedIff(l, calls);
    }
  }

  /** Accepted calls of a key in the half-open interval of one period starting at t. */
  function AcceptedFrom(l: Limiter, calls: seq<Call>, key: string, t: int): nat
    requires l.per > 0
  {
    if calls == [] then 0
    else
      var n := |calls| - 1;
      AcceptedFrom(l, calls[..n], key, t) +
      (if calls[n].key == key && t <= calls[n].now < t + l.per * 1_000_000_000 && Accepted(l, calls, n) then 1 else 0)
  }

  lemma {:induction false} TwoWindowsCover(l: Limiter, calls: seq<Call>, key: string, t: int)
    requires l.per > 0
    ensures
      var w := Window(t, l.per);
      AcceptedFrom(l, calls, key, t) <= AcceptedIn(l, calls, key, w) + AcceptedIn(l, calls, key, w + 1)
  {
    if calls == [] {
    } else {
      var n := |calls| - 1;
      TwoWindowsCover(l, calls[..n], key, t);
      if t <= calls[n].now < t + l.per * 1_000_000_000 {
        NeighbouringWindows(t, calls[n].now, l.per);
      }
    }
  }

  /** The sliding bound: any interval of one period, wherever it starts, holds at most twice the
      limit of accepted calls per key. */
  lemma SlidingBound(l: Limiter, calls: seq<Call>, key: string, t: int)
    requires l.per > 0 && l.max >= 0 && Monotone(calls)
    ensures AcceptedFrom(l, calls, key, t) <= 2 * l.max
  {
    TwoWindowsCover(l, calls, key, t);
    WindowBound(l, calls, key, Window(t, l.per));
    WindowBound(l, calls, key, Window(t, l.per) + 1);
  }

  function Only(calls: seq<Call>, key: string): seq<Call> {
    if calls == [] then []
    else Only(calls[..|calls| - 1], key) + (if calls[|calls| - 1].key == key then [calls[|calls| - 1]] else [])
  }

  /** Keys never affect each other: a key's counter is what its own calls alone produce. */
  lemma {:induction false} KeysIndependent(l: Limiter, calls: seq<Call>, key: string)
    requires l.per > 0
    ensures
      var all, own := After(l, calls), After(l, Only(calls, key));
      (key in all <==> key in own) && (key in all ==> all[key] == own[key])
  {
    if calls == [] {
    } else {
      var n := |calls| - 1;
      KeysIndependent(l, calls[..n], key);
      if calls[n].key == key {
        var own := Only(calls, key);
        assert own[..|own| - 1] == Only(calls[..n], key);
      } else {
        assert Only(calls, key) == Only(calls[..n], key);
      }
    }
  }

  lemma FirstWindows(per: int)
    requires per > 0
    ensures Window(0, per) == 0 && Window(per * 1_000_000_000, per) == 1
    ensures Window(per * 1_000_000_000 - 1, per) == 0
  {
    assert Unix(per * 1_000_000_000) == per && Unix(per * 1_000_000_000 - 1) == per - 1;
    DivUnique(per, per, 1, 0);
    DivUnique(per - 1, per, 0, per - 1);
    DivUnique(0, per, 0, 0);
  }

  /** `max` calls just before a moment and `max` at it; the first j of them. */
  function Burst(max: nat, key: string, edge: int, j: nat): seq<Call> {
    seq(j, i => Call(key, if i < max then edge - 1 else edge))
  }

  /** The counter after j calls of the burst. */
  function BurstCounter(max: nat, j: nat): Counter {
    if j <= max then Counter(0, j) else Counter(1, j - max)
  }

  lemma {:induction false} BurstAccepted(max: nat, per: int, key: string, j: nat)
    requires per > 0 && j <= 2 * max
    ensures
      var l, edge := Limiter(max, per), per * 1_000_000_000;
      var calls := Burst(max, key, edge, j);
      && AcceptedFrom(l, calls, key, edge - 1) == j
      && After(l, calls) == if j == 0 then map[] else map[key := BurstCounter(max, j)]
  {
    var l, edge := Limiter(max, per), per * 1_000_000_000;
    var calls := Burst(max, key, edge, j);
    if j == 0 {
    } else {
      BurstAccepted(max, per, key, j - 1);
      assert calls[..j - 1] == Burst(max, key, edge, j - 1);
      FirstWindows(per);
      BurstStep(max, per, key, j);
    }
  }

  lemma BurstStep(max: nat, per: int, key: string, j: nat)
    requires per > 0 && 0 < j <= 2 * max
    ensures
      var l, edge := Limiter(max, per), per * 1_000_000_000;
      var cs := if j == 1 then map[] else map[key := BurstCounter(max, j - 1)];
      var now := if j - 1 < max then edge - 1 else edge;
      Allows(l, cs, key, now) && Updated(l, cs, key, now) == map[key := BurstCounter(max, j)]
  {
    FirstWindows(per);
  }

  /** The factor two is reached for every limit: the limit's calls just before a window boundary and as
      many at it, one nanosecond later, all pass. */
  lemma TwiceTheLimitIsReached(max: nat, per: int, key: string)
    requires per > 0
    ensures
      var l, edge := Limiter(max, per), per * 1_000_000_000;
      var calls := Burst(max, key, edge, 2 * max);
      && |calls| == 2 * max && Monotone(calls)
      && (forall k :: 0 <= k < |calls| ==> edge - 1 <= calls[k].now <= edge)
      && AcceptedFrom(l, calls, key, edge - 1) == 2 * max
  {
    BurstAccepted(max, per, key, 2 * max);
  }

  /** The clock must not run back: returning to an earlier window forgets what it accepted. */
  lemma ClockRunningBackForgets(per: int)
    requires per > 0
    ensures
      var calls := [Call("k", 0), Call("k", per * 1_000_000_000), Call("k", 0)];
      Accepted(Limiter(1, per), calls, 2) && AcceptedIn(Limiter(1, per), calls[..2], "k", 0) >= 1
  {
    var l := Limiter(1, per);
    var a, b := Call("k", 0), Call("k", per * 1_000_000_000);
    var calls := [a, b, a];
    FirstWindows(per);
    assert calls[..2] == [a, b] && [a, b][..1] == [a] && [a][..0] == [];
    assert After(l, [a]) == map["k" := Counter(0, 1)];
    assert After(l, [a, b]) == map["k" := Counter(1, 1)];
    assert Accepted(l, [a], 0);
    assert AcceptedIn(l, [a], "k", 0) == 1;
  }
}
