/**
  crates/relay-core/src/limit.rs, with f64 as `real`. Every run of the bucket is characterised by
  a condition on its history alone, which never mentions the token count: a cost is admitted
  exactly when, counted from every earlier point, what was admitted since then fits what a full
  bucket and the refill since then provide.
 */
module TokenBucket {

  /** One call of `allow_at`; creation counts as an admitted call of cost zero. */
  datatype Call = Call(cost: real, now: real, ok: bool)

  /** `now.saturating_duration_since(last)`. */
  function Since(last: real, now: real): real {
    if now > last then now - last else 0.0
  }

  function Spent(h: seq<Call>): real {
    if h == [] then 0.0 else (if h[0].ok then h[0].cost else 0.0) + Spent(h[1..])
  }

  /** The time the bucket has seen pass from the first to the last call of `h`. */
  function Elapsed(h: seq<Call>): real {
    if |h| < 2 then 0.0 else Since(h[0].now, h[1].now) + Elapsed(h[1..])
  }

  /** What the refill yields over a time. */
  function Refilled(rate: real, time: real): real {
    time * rate
  }

  lemma RefilledIsRateTimesTime(rate: real, time: real)
    ensures Refilled(rate, time) == rate * time
  {
  }

  lemma RefilledAdds(rate: real, a: real, b: real)
    ensures Refilled(rate, a + b) == Refilled(rate, a) + Refilled(rate, b)
    ensures Refilled(rate, 0.0) == 0.0
    ensures rate >= 0.0 && a >= 0.0 ==> Refilled(rate, a) >= 0.0
  {
  }

  /** Counted from the first call of `h`: what is left of a full bucket and the refill since. */
  function Headroom(capacity: real, refill: real, h: seq<Call>): real {
    capacity + Refilled(refill, Elapsed(h)) - Spent(h)
  }

  /** `cost` at `now` fits the limit counted from every call of `h`, and from `now` itself. */
  ghost predicate Fits(capacity: real, refill: real, h: seq<Call>, cost: real, now: real) {
    cost <= capacity &&
    forall i :: 0 <= i < |h| ==> cost <= Headroom(capacity, refill, h[i..] + [Call(0.0, now, false)])
  }

  /** The calls of `h` from the `i`-th on, and the present moment. */
  function Until(h: seq<Call>, i: nat, now: real): seq<Call>
    requires i <= |h|
  {
    h[i..] + [Call(0.0, now, false)]
  }

  /** The limit in plain terms. */
  lemma FitsMeans(capacity: real, refill: real, h: seq<Call>, cost: real, now: real)
    ensures Fits(capacity, refill, h, cost, now) <==>
            cost <= capacity &&
            forall i :: 0 <= i < |h| ==> Spent(h[i..]) + cost <= capacity + refill * Elapsed(Until(h, i, now))
  {
    var tick := Call(0.0, now, false);
    hide Headroom, Spent, Elapsed;
    if Fits(capacity, refill, h, cost, now) {
      forall i | 0 <= i < |h|
        ensures Spent(h[i..]) + cost <= capacity + refill * Elapsed(Until(h, i, now))
      {
        HeadroomMeans(capacity, refill, h[i..], tick);
        assert cost <= Headroom(capacity, refill, h[i..] + [tick]);
      }
    } else if cost <= capacity {
      var i :| 0 <= i < |h| && cost > Headroom(capacity, refill, h[i..] + [tick]);
      HeadroomMeans(capacity, refill, h[i..], tick);
      assert Spent(h[i..]) + cost > capacity + refill * Elapsed(Until(h, i, now));
    }
  }

  lemma HeadroomMeans(capacity: real, refill: real, v: seq<Call>, tick: Call)
    requires !tick.ok
    ensures Headroom(capacity, refill, v + [tick]) == capacity + refill * Elapsed(v + [tick]) - Spent(v)
  {
    RefilledIsRateTimesTime(refill, Elapsed(v + [tick]));
    SpentAdds(v, [tick]);
    SpentAdds([tick], []);
    hide Refilled, Elapsed;
  }

  /** Every decision of `h` after its first entry is the one `Fits` prescribes. */
  ghost predicate Conforming(capacity: real, refill: real, h: seq<Call>) {
    forall k :: 0 < k < |h| ==> (h[k].ok <==> Fits(capacity, refill, h[..k], h[k].cost, h[k].now))
  }

  predicate Monotone(h: seq<Call>) {
    forall i, j :: 0 <= i <= j < |h| ==> h[i].now <= h[j].now
  }

  /** What is spent is the sum of the admitted costs. */
  lemma {:induction false} SpentAdds(a: seq<Call>, b: seq<Call>)
    ensures Spent(a + b) == Spent(a) + Spent(b)
    ensures a == [] ==> Spent(a) == 0.0
    ensures |a| == 1 ==> Spent(a) == if a[0].ok then a[0].cost else 0.0
  {
    if a == [] {
      assert a + b == b;
    } else {
      assert (a + b)[1..] == a[1..] + b;
      SpentAdds(a[1..], b);
    }
  }

  /** The time seen is the sum of the steps of the clock from one call to the next, a step back counting nothing. */
  lemma {:induction false} ElapsedAdds(a: seq<Call>, c: Call, b: seq<Call>)
    ensures Elapsed(a + [c] + b) == Elapsed(a + [c]) + Elapsed([c] + b)
    ensures a == [] ==> Elapsed(a + [c]) == 0.0
    ensures |a| == 1 ==> Elapsed(a + [c]) == if c.now > a[0].now then c.now - a[0].now else 0.0
  {
    if a == [] {
      assert a + [c] + b == [c] + b && a + [c] == [c];
    } else {
      assert (a + [c])[1..] == a[1..] + [c] && (a + [c] + b)[1..] == a[1..] + [c] + b;
      ElapsedAdds(a[1..], c, b);
    }
  }

  lemma {:induction false} Extend(h: seq<Call>, c: Call)
    requires h != []
    ensures Spent(h + [c]) == Spent(h) + if c.ok then c.cost else 0.0
    ensures Elapsed(h + [c]) == Elapsed(h) + Since(h[|h| - 1].now, c.now)
  {
    var e := h + [c];
    assert e[1..] == h[1..] + [c];
    if |h| == 1 {
      assert e[1..] == [c] && [c][1..] == [] && h[1..] == [];
    } else {
      Extend(h[1..], c);
    }
  }

  lemma HeadroomExtends(capacity: real, refill: real, h: seq<Call>, c: Call)
    requires h != []
    ensures Headroom(capacity, refill, h + [c]) ==
            Headroom(capacity, refill, h) + Refilled(refill, Since(h[|h| - 1].now, c.now))
            - if c.ok then c.cost else 0.0
  {
    hide Refilled, Spent, Elapsed, Since;
    Extend(h, c);
    RefilledAdds(refill, Elapsed(h), Since(h[|h| - 1].now, c.now));
  }

  lemma HeadroomOfOne(capacity: real, refill: real, c: Call)
    ensures Headroom(capacity, refill, [c]) == capacity - if c.ok then c.cost else 0.0
  {
    hide Refilled;
    assert [c][1..] == [];
    assert Elapsed([c]) == 0.0 && Spent([c][1..]) == 0.0;
    RefilledAdds(refill, 0.0, 0.0);
  }

  /** `tokens` is the least headroom over all points of `h`. */
  ghost predicate LeastHeadroom(capacity: real, refill: real, h: seq<Call>, tokens: real) {
    (forall i :: 0 <= i < |h| ==> tokens <= Headroom(capacity, refill, h[i..])) &&
    (exists i :: 0 <= i < |h| && tokens == Headroom(capacity, refill, h[i..]))
  }

  /** The same once the clock shows `now`, a moment that is itself a point with a full bucket. */
  ghost predicate LeastAt(capacity: real, refill: real, h: seq<Call>, now: real, tokens: real) {
    var tick := Call(0.0, now, false);
    && tokens <= capacity
    && (forall i :: 0 <= i < |h| ==> tokens <= Headroom(capacity, refill, h[i..] + [tick]))
    && (tokens == capacity || exists i :: 0 <= i < |h| && tokens == Headroom(capacity, refill, h[i..] + [tick]))
  }

  class TokenBucket {
    const capacity: real
    const refillPerSec: real
    var tokens: real
    var last: real
    ghost var history: seq<Call>

    ghost predicate Valid()
      reads this
    {
      && history != [] && last == history[|history| - 1].now
      && LeastHeadroom(capacity, refillPerSec, history, tokens)
      && Conforming(capacity, refillPerSec, history)
    }

    constructor (capacity: real, refillPerSec: real, now: real)
      ensures Valid() && history == [Call(0.0, now, true)]
      ensures this.capacity == capacity && this.refillPerSec == refillPerSec
    {
      this.capacity, this.refillPerSec := capacity, refillPerSec;
      tokens, last := capacity, now;
      history := [Call(0.0, now, true)];
      new;
      HeadroomOfOne(capacity, refillPerSec, history[0]);
      assert history[0..] == [history[0]];
    }

    /**
      `allow_at`, for any clock reading and any cost: counted from creation and from every earlier
      call, what was admitted since and the cost are within the capacity and the refill since.
     */
    method AllowAt(cost: real, now: real) returns (ok: bool)
      requires Valid()
      modifies this
      ensures Valid() && history == old(history) + [Call(cost, now, ok)]
      ensures ok <==> Fits(capacity, refillPerSec, old(history), cost, now)
      ensures ok <==> cost <= capacity &&
                      forall i :: 0 <= i < |old(history)| ==>
                        Spent(old(history)[i..]) + cost <=
                        capacity + refillPerSec * Elapsed(Until(old(history), i, now))
    {
      FitsMeans(capacity, refillPerSec, history, cost, now);
      hide LeastHeadroom, LeastAt, Fits, Conforming, Since, Spent, Elapsed, Until;
      var elapsed := Since(last, now);
      RefillTracks(capacity, refillPerSec, history, tokens, now);
      last := now;
      var refilled := tokens + elapsed * refillPerSec;
      tokens := if refilled < capacity then refilled else capacity;
      LeastDecides(capacity, refillPerSec, history, cost, now, tokens);
      ghost var before := tokens;
      if tokens >= cost {
        tokens := tokens - cost;
        ok := true;
      } else {
        ok := false;
      }
      DecisionTracks(capacity, refillPerSec, history, before, Call(cost, now, ok));
      ConformingExtends(capacity, refillPerSec, history, Call(cost, now, ok));
      history := history + [Call(cost, now, ok)];
    }
  }

  /** Refilling adds the same to the headroom of every point; the cap adds the present one. */
  lemma RefillTracks(capacity: real, refill: real, h: seq<Call>, tokens: real, now: real)
    requires h != [] && LeastHeadroom(capacity, refill, h, tokens)
    ensures var refilled := tokens + Refilled(refill, Since(h[|h| - 1].now, now));
            LeastAt(capacity, refill, h, now, if refilled < capacity then refilled else capacity)
  {
    var tick := Call(0.0, now, false);
    hide Refilled;
    var more := Refilled(refill, Since(h[|h| - 1].now, now));
    forall i | 0 <= i < |h|
      ensures Headroom(capacity, refill, h[i..] + [tick]) == Headroom(capacity, refill, h[i..]) + more
    {
      HeadroomExtends(capacity, refill, h[i..], tick);
    }
    hide Headroom;
    var i :| 0 <= i < |h| && tokens == Headroom(capacity, refill, h[i..]);
    assert tokens + more == Headroom(capacity, refill, h[i..] + [tick]);
  }

  lemma LeastDecides(capacity: real, refill: real, h: seq<Call>, cost: real, now: real, tokens: real)
    requires LeastAt(capacity, refill, h, now, tokens)
    ensures cost <= tokens <==> Fits(capacity, refill, h, cost, now)
  {
    hide Headroom;
    var tick := Call(0.0, now, false);
    assert forall i :: 0 <= i < |h| ==> tokens <= Headroom(capacity, refill, h[i..] + [tick]);
  }

  /** Deducting an admitted cost keeps the token count the least headroom, the call itself included. */
  lemma DecisionTracks(capacity: real, refill: real, h: seq<Call>, tokens: real, c: Call)
    requires h != [] && LeastAt(capacity, refill, h, c.now, tokens)
    ensures LeastHeadroom(capacity, refill, h + [c], tokens - if c.ok then c.cost else 0.0)
  {
    hide Refilled, Since;
    var tick, g, n := Call(0.0, c.now, false), h + [c], |h|;
    var paid := if c.ok then c.cost else 0.0;
    forall i | 0 <= i < n
      ensures Headroom(capacity, refill, g[i..]) == Headroom(capacity, refill, h[i..] + [tick]) - paid
    {
      assert g[i..] == h[i..] + [c];
      HeadroomExtends(capacity, refill, h[i..], c);
      HeadroomExtends(capacity, refill, h[i..], tick);
    }
    hide Headroom;
    assert g[n..] == [c];
    HeadroomOfOne(capacity, refill, c);
    if tokens == capacity {
      assert tokens - paid == Headroom(capacity, refill, g[n..]);
    } else {
      var i :| 0 <= i < n && tokens == Headroom(capacity, refill, h[i..] + [tick]);
      assert tokens - paid == Headroom(capacity, refill, g[i..]);
    }
  }

  lemma ConformingExtends(capacity: real, refill: real, h: seq<Call>, c: Call)
    requires Conforming(capacity, refill, h) && (c.ok <==> Fits(capacity, refill, h, c.cost, c.now))
    ensures Conforming(capacity, refill, h + [c])
  {
    hide Fits;
    var g := h + [c];
    assert g[..|h|] == h;
    assert forall k :: 0 < k < |h| ==> g[..k] == h[..k];
  }

  // ----- consequences for whole runs

  /** With a clock that never runs backwards, the time seen to pass is the time on the clock. */
  lemma {:induction false} MonotoneElapsed(h: seq<Call>)
    requires h != [] && Monotone(h)
    ensures Elapsed(h) == h[|h| - 1].now - h[0].now
  {
    if |h| > 1 {
      MonotoneElapsed(h[1..]);
    }
  }

  lemma {:induction false} ElapsedNonNegative(h: seq<Call>)
    ensures Elapsed(h) >= 0.0
  {
    if |h| >= 2 {
      ElapsedNonNegative(h[1..]);
    }
  }

  /** An admitted call ends a stretch that is within the rate. */
  lemma AdmittedEndsWithinRate(capacity: real, refill: real, h: seq<Call>, i: nat, j: nat)
    requires Conforming(capacity, refill, h) && 0 < i <= j < |h| && h[j].ok
    ensures Headroom(capacity, refill, h[i..j + 1]) >= 0.0
  {
    var c := h[j];
    var tick := Call(0.0, c.now, false);
    hide Refilled;
    assert Fits(capacity, refill, h[..j], c.cost, c.now);
    if i == j {
      assert h[i..j + 1] == [c];
      HeadroomOfOne(capacity, refill, c);
    } else {
      var v := h[i..j];
      assert h[..j][i..] == v && h[i..j + 1] == v + [c];
      hide Headroom;
      assert c.cost <= Headroom(capacity, refill, v + [tick]);
      HeadroomExtends(capacity, refill, v, tick);
      HeadroomExtends(capacity, refill, v, c);
    }
  }

  lemma {:induction false} WindowWithinRefill(capacity: real, refill: real, h: seq<Call>, i: nat, j: nat)
    requires capacity >= 0.0 && refill >= 0.0 && Conforming(capacity, refill, h)
    requires 0 < i <= j < |h|
    ensures Spent(h[i..j + 1]) <= capacity + Refilled(refill, Elapsed(h[i..j + 1]))
    decreases j
  {
    hide Refilled, Conforming, Spent, Elapsed;
    if h[j].ok {
      AdmittedEndsWithinRate(capacity, refill, h, i, j);
    } else if i == j {
      assert h[i..j + 1] == [h[j]];
      HeadroomOfOne(capacity, refill, h[j]);
    } else {
      WindowWithinRefill(capacity, refill, h, i, j - 1);
      var v := h[i..j];
      assert h[i..j + 1] == v + [h[j]];
      HeadroomExtends(capacity, refill, v, h[j]);
      RefilledAdds(refill, Since(h[j - 1].now, h[j].now), 0.0);
    }
  }

  /**
    The rate bound: in any stretch of any run, what is admitted is at most the capacity plus the
    refill over the time that passed within the stretch.
   */
  lemma WindowBound(capacity: real, refill: real, h: seq<Call>, i: nat, j: nat)
    requires capacity >= 0.0 && refill >= 0.0 && Conforming(capacity, refill, h)
    requires 0 < i <= j < |h|
    ensures Spent(h[i..j + 1]) <= capacity + refill * Elapsed(h[i..j + 1])
  {
    hide Conforming, Spent, Elapsed;
    RefilledIsRateTimesTime(refill, Elapsed(h[i..j + 1]));
    WindowWithinRefill(capacity, refill, h, i, j);
  }

  /** The same in clock time, for a stretch in which the clock never runs backwards. */
  lemma ClockWindowBound(capacity: real, refill: real, h: seq<Call>, i: nat, j: nat)
    requires capacity >= 0.0 && refill >= 0.0 && Conforming(capacity, refill, h)
    requires forall a, b :: i <= a <= b <= j < |h| ==> h[a].now <= h[b].now
    requires 0 < i <= j < |h|
    ensures Spent(h[i..j + 1]) <= capacity + refill * (h[j].now - h[i].now)
  {
    WindowBound(capacity, refill, h, i, j);
    hide Conforming, Spent, Elapsed;
    var v := h[i..j + 1];
    MonotoneElapsed(v);
    assert Elapsed(v) == h[j].now - h[i].now;
  }

  // ----- exactly when the bound holds in clock time

  /** The readings behind the first, which is the one at creation, never decrease. */
  predicate SteadyAfterCreation(times: seq<real>) {
    forall i, j :: 0 < i <= j < |times| ==> times[i] <= times[j]
  }

  /** A run of a new bucket in which the clock shows these readings; the costs are anyone's choice. */
  ghost predicate RunOver(capacity: real, refill: real, times: seq<real>, h: seq<Call>) {
    && |h| == |times| > 0 && h[0] == Call(0.0, times[0], true)
    && (forall k :: 0 <= k < |h| ==> h[k].now == times[k])
    && Conforming(capacity, refill, h)
  }

  /** In every window of clock time, at most the capacity and the refill over that time is admitted. */
  ghost predicate ClockBounded(capacity: real, refill: real, h: seq<Call>) {
    forall i, j :: 0 < i <= j < |h| ==> Spent(h[i..j + 1]) <= capacity + refill * (h[j].now - h[i].now)
  }

  /** Everything is free but the call `at`, which costs all the bucket holds. */
  function Burst(capacity: real, times: seq<real>, at: nat): (h: seq<Call>)
    ensures |h| == |times|
    ensures forall k :: 0 <= k < |h| ==> h[k] == Call(if k == at then capacity else 0.0, times[k], true)
  {
    seq(|times|, k requires 0 <= k < |times| => Call(if k == at then capacity else 0.0, times[k], true))
  }

  lemma {:induction false} BurstSpends(capacity: real, times: seq<real>, at: nat, m: nat, k: nat)
    requires m <= k <= |times|
    ensures Spent(Burst(capacity, times, at)[m..k]) == if m <= at < k then capacity else 0.0
    decreases k - m
  {
    if m < k {
      var v := Burst(capacity, times, at)[m..k];
      assert v[1..] == Burst(capacity, times, at)[m + 1..k];
      BurstSpends(capacity, times, at, m + 1, k);
    }
  }

  lemma BurstFits(capacity: real, refill: real, times: seq<real>, at: nat, k: nat)
    requires capacity > 0.0 && refill > 0.0 && 0 < k < |times|
    ensures var h := Burst(capacity, times, at); Fits(capacity, refill, h[..k], h[k].cost, h[k].now)
  {
    var h := Burst(capacity, times, at);
    var tick := Call(0.0, h[k].now, false);
    forall i | 0 <= i < k
      ensures h[k].cost <= Headroom(capacity, refill, h[..k][i..] + [tick])
    {
      var v := h[i..k];
      assert h[..k][i..] == v;
      BurstSpends(capacity, times, at, i, k);
      ElapsedNonNegative(v);
      RefilledAdds(refill, Elapsed(v), 0.0);
      RefilledAdds(refill, Since(v[|v| - 1].now, tick.now), 0.0);
      hide Refilled, Spent, Elapsed, Since;
      HeadroomExtends(capacity, refill, v, tick);
    }
  }

  /** The call before the first backward step of the clock. */
  lemma BackwardStep(times: seq<real>) returns (d: nat)
    requires !SteadyAfterCreation(times)
    ensures 0 < d < |times| - 1 && times[d + 1] < times[d]
  {
    var i, j :| 0 < i <= j < |times| && times[i] > times[j];
    d := i;
    while times[d + 1] >= times[d]
      invariant i <= d < j && times[d] >= times[i]
      decreases j - d
    {
      d := d + 1;
    }
  }

  /**
    For given clock readings, the bound in clock time holds of every window of every run exactly
    when the readings after creation never decrease. Where one does, spending everything just before
    it overdraws the window around it.
   */
  lemma ClockBoundExactlyWhen(capacity: real, refill: real, times: seq<real>)
    requires capacity > 0.0 && refill > 0.0 && times != []
    ensures (forall h :: RunOver(capacity, refill, times, h) ==> ClockBounded(capacity, refill, h)) <==>
            SteadyAfterCreation(times)
  {
    hide SteadyAfterCreation, RunOver, ClockBounded, Burst;
    if SteadyAfterCreation(times) {
      forall h | RunOver(capacity, refill, times, h)
        ensures ClockBounded(capacity, refill, h)
      {
        SteadyRunsAreBounded(capacity, refill, times, h);
      }
    } else {
      var d := BackwardStep(times);
      BurstIsARun(capacity, refill, times, d);
      BurstOverdraws(capacity, refill, times, d);
    }
  }

  lemma BurstOverdraws(capacity: real, refill: real, times: seq<real>, d: nat)
    requires refill > 0.0 && 0 < d < |times| - 1 && times[d + 1] < times[d]
    ensures !ClockBounded(capacity, refill, Burst(capacity, times, d))
  {
    var h, j := Burst(capacity, times, d), d + 1;
    BurstSpends(capacity, times, d, d, j + 1);
    BackwardRefillIsNegative(refill, h[j].now - h[d].now);
    hide Refilled, Spent, Burst;
    assert Spent(h[d..j + 1]) > capacity + refill * (h[j].now - h[d].now);
  }

  lemma BackwardRefillIsNegative(refill: real, time: real)
    requires refill > 0.0 && time < 0.0
    ensures refill * time < 0.0
  {
  }

  lemma BurstIsARun(capacity: real, refill: real, times: seq<real>, at: nat)
    requires capacity > 0.0 && refill > 0.0 && 0 < at < |times|
    ensures RunOver(capacity, refill, times, Burst(capacity, times, at))
  {
    hide Fits;
    var h := Burst(capacity, times, at);
    forall k | 0 < k < |h|
      ensures Fits(capacity, refill, h[..k], h[k].cost, h[k].now)
    {
      BurstFits(capacity, refill, times, at, k);
    }
  }

  lemma SteadyRunsAreBounded(capacity: real, refill: real, times: seq<real>, h: seq<Call>)
    requires capacity > 0.0 && refill > 0.0 && RunOver(capacity, refill, times, h) && SteadyAfterCreation(times)
    ensures ClockBounded(capacity, refill, h)
  {
    forall i, j | 0 < i <= j < |h|
      ensures Spent(h[i..j + 1]) <= capacity + refill * (h[j].now - h[i].now)
    {
      hide Refilled, Conforming, Spent, Elapsed;
      ClockWindowBound(capacity, refill, h, i, j);
    }
  }

  /** The history fixes every decision: two conforming runs over the same calls are the same run. */
  lemma {:induction false} ConformingIsDeterministic(capacity: real, refill: real, g: seq<Call>, h: seq<Call>)
    requires Conforming(capacity, refill, g) && Conforming(capacity, refill, h)
    requires |g| == |h| > 0 && g[0] == h[0]
    requires forall k :: 0 <= k < |g| ==> g[k].cost == h[k].cost && g[k].now == h[k].now
    ensures g == h
    decreases |g|
  {
    if |g| > 1 {
      var n := |g| - 1;
      assert forall k :: 0 < k < n ==> g[..n][..k] == g[..k] && h[..n][..k] == h[..k];
      ConformingIsDeterministic(capacity, refill, g[..n], h[..n]);
      assert g[n].ok <==> h[n].ok;
      assert g == g[..n] + [g[n]] && h == h[..n] + [h[n]];
    }
  }

  /** A clock that is read as 1, 1, 0, 1 second, by a bucket of one token refilled at one a second. */
  const BACK_AND_FORTH := [Call(0.0, 1.0, true), Call(1.0, 1.0, true), Call(0.0, 0.0, true), Call(1.0, 1.0, true)]

  /**
    Without the monotone clock the bound in clock time is false: going back and forth refills the
    bucket, and two full costs are admitted at one and the same reading.
   */
  lemma BackwardClockRefills()
    ensures Conforming(1.0, 1.0, BACK_AND_FORTH)
    ensures var h := BACK_AND_FORTH;
            h[1].now == h[3].now && Spent(h[1..4]) > 1.0 + 1.0 * (h[3].now - h[1].now)
  {
    var h := BACK_AND_FORTH;
    BackAndForthDecisions();
    assert h[1..4] == [h[1], h[2], h[3]];
    ThreeCalls(h[1], h[2], h[3]);
  }

  lemma BackAndForthDecisions()
    ensures forall k :: 0 < k < 4 ==> Fits(1.0, 1.0, BACK_AND_FORTH[..k], BACK_AND_FORTH[k].cost, BACK_AND_FORTH[k].now)
  {
    var h := BACK_AND_FORTH;
    var a, b, c := h[0], h[1], h[2];
    assert h[..1] == [a] && h[..2] == [a, b] && h[..3] == [a, b, c];
    var t1, t0 := Call(0.0, 1.0, false), Call(0.0, 0.0, false);
    assert [a, b, c][0..] + [t1] == [a] + [b, c, t1] && [a, b, c][1..] + [t1] == [b, c, t1];
    assert [a, b, c][2..] + [t1] == [c, t1];
    assert [a, b][0..] + [t0] == [a, b, t0] && [a, b][1..] + [t0] == [b, t0];
    assert [a][0..] + [t1] == [a, t1];
    TwoCalls(a, t1);
    TwoCalls(b, t0);
    TwoCalls(c, t1);
    ThreeCalls(a, b, t0);
    ThreeCalls(b, c, t1);
    assert ([a] + [b, c, t1])[1..] == [b, c, t1];
  }

  lemma TwoCalls(a: Call, b: Call)
    ensures Spent([a, b]) == (if a.ok then a.cost else 0.0) + if b.ok then b.cost else 0.0
    ensures Elapsed([a, b]) == Since(a.now, b.now)
  {
    assert [a, b][1..] == [b] && [b][1..] == [];
    assert Spent([b]) == (if b.ok then b.cost else 0.0) + Spent([]);
    assert Elapsed([b]) == 0.0;
  }

  lemma ThreeCalls(a: Call, b: Call, c: Call)
    ensures Spent([a, b, c]) == (if a.ok then a.cost else 0.0) + Spent([b, c])
    ensures Elapsed([a, b, c]) == Since(a.now, b.now) + Elapsed([b, c])
    ensures Spent([b, c]) == (if b.ok then b.cost else 0.0) + if c.ok then c.cost else 0.0
    ensures Elapsed([b, c]) == Since(b.now, c.now)
  {
    assert [a, b, c][1..] == [b, c];
    TwoCalls(b, c);
  }
}
