/**
  The relay-carried rendezvous driver, `run_rendezvous` of crates/agent-core/src/disco.rs. Clock
  readings are `real` seconds of a clock that never runs backwards. The code reads the clock twice
  when a frame arrives: `now`, which it stores, and the later reading inside `t.elapsed()`, which it
  compares; the reply goes out later still. The thread may be held up in between, and the bounds
  below say what that costs.
 */
module Rendezvous {
  import opened Octets

  const INITIATE_INTERVAL := 5.0
  const RENDEZVOUS_DEBOUNCE := 5.0

  type Key = Bytes
  type Endpoint = Bytes

  /** A reaction to a frame from `src`: the reading stored, the reading compared, the end; and whether it replied. */
  datatype Reaction = Reaction(src: Key, now: real, check: real, done: real, replied: bool)

  /** One round of advertisements: when it was found due, when it was over, and to whom it sent. */
  datatype Round = Round(check: real, done: real, sent: seq<Key>)

  /** What the roster says about a peer: its key, and whether it has a direct endpoint. */
  datatype Peer = Peer(key: Key, endpoint: Option<Endpoint>)

  // ----- what a run of the driver leaves behind

  predicate Ordered(rs: seq<Reaction>) {
    (forall i :: 0 <= i < |rs| ==> rs[i].now <= rs[i].check <= rs[i].done) &&
    (forall i, j :: 0 <= i < j < |rs| ==> rs[i].done <= rs[j].now)
  }

  /** Reactions to one key: the later comparison is five seconds after any earlier stored reading. */
  predicate Debounced(rs: seq<Reaction>) {
    forall i, j :: 0 <= i < j < |rs| && rs[i].src == rs[j].src ==> rs[j].check >= rs[i].now + 5.0
  }

  predicate Spaced(rounds: seq<Round>) {
    (forall i :: 0 <= i < |rounds| ==> rounds[i].check <= rounds[i].done) &&
    (forall i, j :: 0 <= i < j < |rounds| ==> rounds[j].check >= rounds[i].done + 5.0)
  }

  /** The stored reading of the last reaction to a key. */
  function LastNow(rs: seq<Reaction>, k: Key): Option<real> {
    if rs == [] then None
    else if rs[|rs| - 1].src == k then Some(rs[|rs| - 1].now)
    else LastNow(rs[..|rs| - 1], k)
  }

  lemma {:induction false} LastNowIsLast(rs: seq<Reaction>, k: Key)
    requires Ordered(rs)
    ensures LastNow(rs, k).None? ==> forall i :: 0 <= i < |rs| ==> rs[i].src != k
    ensures LastNow(rs, k).Some? ==> exists i :: 0 <= i < |rs| && rs[i].src == k && rs[i].now == LastNow(rs, k).value
    ensures LastNow(rs, k).Some? ==> forall i :: 0 <= i < |rs| && rs[i].src == k ==> rs[i].now <= LastNow(rs, k).value
  {
    if rs != [] && rs[|rs| - 1].src != k {
      var front := rs[..|rs| - 1];
      LastNowIsLast(front, k);
      if LastNow(rs, k).Some? {
        var i :| 0 <= i < |front| && front[i].src == k && front[i].now == LastNow(rs, k).value;
        assert rs[i] == front[i];
      }
      assert forall i :: 0 <= i < |front| ==> rs[i] == front[i];
    }
  }

  /** `relay_only_pubkeys`. */
  function RelayOnly(peers: seq<Peer>): seq<Key> {
    if peers == [] then []
    else RelayOnly(peers[..|peers| - 1]) +
         if peers[|peers| - 1].endpoint.None? then [peers[|peers| - 1].key] else []
  }

  /** How often a key is listed. */
  function Times(keys: seq<Key>, k: Key): nat {
    multiset(keys)[k]
  }

  /** How many entries have the key and no direct endpoint. */
  function Endpointless(peers: seq<Peer>, k: Key): nat {
    if peers == [] then 0
    else Endpointless(peers[..|peers| - 1], k) +
         if peers[|peers| - 1] == Peer(k, None) then 1 else 0
  }

  /** A key is listed once for every entry that has it and no direct endpoint. */
  lemma {:induction false} RelayOnlyLists(peers: seq<Peer>, k: Key)
    ensures Times(RelayOnly(peers), k) == Endpointless(peers, k)
  {
    if peers != [] {
      var front, last := peers[..|peers| - 1], peers[|peers| - 1];
      RelayOnlyLists(front, k);
      assert RelayOnly(front) + [] == RelayOnly(front);
    }
  }

  /** In a roster without repeated keys, once at most. */
  lemma {:induction false} DistinctKeysAreListedOnce(peers: seq<Peer>, k: Key)
    requires forall i, j :: 0 <= i < j < |peers| ==> peers[i].key != peers[j].key
    ensures Times(RelayOnly(peers), k) <= 1
    ensures (forall i :: 0 <= i < |peers| ==> peers[i].key != k) ==> Times(RelayOnly(peers), k) == 0
  {
    if peers != [] {
      var front, last := peers[..|peers| - 1], peers[|peers| - 1];
      DistinctKeysAreListedOnce(front, k);
      assert forall i :: 0 <= i < |front| ==> front[i] == peers[i];
      assert RelayOnly(front) + [] == RelayOnly(front);
    }
  }

  class Driver {
    var lastInitiate: Option<real>
    var recent: map<Key, real>
    ghost var clock: real
    ghost var reactions: seq<Reaction>
    ghost var rounds: seq<Round>

    ghost predicate Valid()
      reads this
    {
      && Ordered(reactions) && Debounced(reactions) && Spaced(rounds)
      && (forall r :: r in reactions ==> r.done <= clock)
      && (forall r :: r in rounds ==> r.done <= clock)
      && (forall k :: (if k in recent then Some(recent[k]) else None) == LastNow(reactions, k))
      && lastInitiate == if rounds == [] then None else Some(rounds[|rounds| - 1].done)
    }

    constructor (start: real)
      ensures Valid() && reactions == [] && rounds == [] && clock == start
    {
      lastInitiate, recent := None, map[];
      clock, reactions, rounds := start, [], [];
    }

    /** The top of the loop: advertise to every relay-only peer when five seconds have passed. */
    method Initiate(check: real, done: real, reflexive: Option<Endpoint>, peers: seq<Peer>) returns (sent: seq<Key>)
      requires Valid() && clock <= check <= done
      modifies this
      ensures Valid() && reactions == old(reactions) && clock == done
      ensures var due := old(rounds) == [] || check >= old(rounds)[|old(rounds)| - 1].done + 5.0;
              rounds == (if due then old(rounds) + [Round(check, done, sent)] else old(rounds)) &&
              sent == if due && reflexive.Some? then RelayOnly(peers) else []
    {
      hide Ordered, Debounced, Spaced, LastNow;
      sent := [];
      if lastInitiate.None? || check - lastInitiate.value >= INITIATE_INTERVAL {
        if reflexive.Some? {
          for i := 0 to |peers|
            invariant sent == RelayOnly(peers[..i])
          {
            assert peers[..i + 1][..i] == peers[..i];
            if peers[i].endpoint.None? {
              sent := sent + [peers[i].key];
            }
          }
          assert peers[..|peers|] == peers;
        }
        lastInitiate := Some(done);
        RoundExtends(rounds, Round(check, done, sent));
        rounds := rounds + [Round(check, done, sent)];
      }
      clock := done;
    }

    /** A frame from `src` arrives: hole-punch and reciprocate, unless `src` was reacted to lately. */
    method OnRendezvous(src: Key, now: real, check: real, done: real, reflexive: Option<Endpoint>)
      returns (react: bool, reply: bool)
      requires Valid() && clock <= now <= check <= done
      modifies this
      ensures Valid() && rounds == old(rounds) && clock == done
      ensures react <==> match LastNow(old(reactions), src)
                         case None => true
                         case Some(t) => check >= t + 5.0
      ensures reply <==> react && reflexive.Some?
      ensures reactions == old(reactions) + if react then [Reaction(src, now, check, done, reply)] else []
    {
      hide Ordered, Debounced, Spaced, LastNow;
      assert (if src in recent then Some(recent[src]) else None) == LastNow(reactions, src);
      if src in recent && check - recent[src] < RENDEZVOUS_DEBOUNCE {
        react := false;
      } else {
        recent := recent[src := now];
        react := true;
      }
      reply := react && reflexive.Some?;
      if react {
        ReactionExtends(reactions, Reaction(src, now, check, done, reply), clock);
        reactions := reactions + [Reaction(src, now, check, done, reply)];
      }
      clock := done;
    }
  }

  lemma AppendReaction(rs: seq<Reaction>, r: Reaction)
    requires Ordered(rs) && Debounced(rs) && r.now <= r.check <= r.done
    requires forall x :: x in rs ==> x.done <= r.now
    requires forall x :: x in rs && x.src == r.src ==> r.check >= x.now + 5.0
    ensures Ordered(rs + [r]) && Debounced(rs + [r])
  {
    assert forall i :: 0 <= i < |rs| ==> rs[i] in rs;
  }

  lemma AppendRound(rounds: seq<Round>, r: Round)
    requires Spaced(rounds) && r.check <= r.done
    requires forall x :: x in rounds ==> r.check >= x.done + 5.0
    ensures Spaced(rounds + [r])
  {
    assert forall i :: 0 <= i < |rounds| ==> rounds[i] in rounds;
  }

  lemma RoundExtends(rounds: seq<Round>, r: Round)
    requires Spaced(rounds) && r.check <= r.done
    requires rounds != [] ==> r.check >= rounds[|rounds| - 1].done + 5.0
    ensures Spaced(rounds + [r])
  {
    if rounds != [] {
      var last := rounds[|rounds| - 1];
      assert forall i :: 0 <= i < |rounds| - 1 ==> last.check >= rounds[i].done + 5.0;
    }
  }

  lemma ReactionExtends(rs: seq<Reaction>, r: Reaction, clock: real)
    requires Ordered(rs) && Debounced(rs) && r.now <= r.check <= r.done && clock <= r.now
    requires forall x :: x in rs ==> x.done <= clock
    requires LastNow(rs, r.src).Some? ==> r.check >= LastNow(rs, r.src).value + 5.0
    ensures Ordered(rs + [r]) && Debounced(rs + [r])
    ensures forall k :: LastNow(rs + [r], k) == if k == r.src then Some(r.now) else LastNow(rs, k)
  {
    LastNowIsLast(rs, r.src);
    hide Ordered, Debounced;
    AppendReaction(rs, r);
    assert (rs + [r])[..|rs|] == rs;
  }

  // ----- spacing

  /** `n` may be the next reaction of a run. */
  predicate Follows(rs: seq<Reaction>, n: Reaction) {
    Ordered(rs + [n]) && Debounced(rs + [n])
  }

  /** What a reaction guarantees to the next one to the same key: five seconds less its own hold-up. */
  function Gap(r: Reaction): real {
    if r.done - r.now < 5.0 then 5.0 - (r.done - r.now) else 0.0
  }

  lemma LastFollows(front: seq<Reaction>, last: Reaction)
    requires Ordered(front + [last]) && Debounced(front + [last])
    ensures Ordered(front) && Debounced(front) && last.now <= last.check <= last.done
    ensures forall x :: x in front ==> x.done <= last.now
    ensures forall x :: x in front && x.src == last.src ==> last.check >= x.now + 5.0
  {
    var rs := front + [last];
    assert rs[|front|] == last && forall i :: 0 <= i < |front| ==> rs[i] == front[i];
  }

  /** After any run, every admissible next reaction to a key comes `g` later exactly when `g` is within the gap. */
  lemma SpacingIsExact(rs: seq<Reaction>, r: Reaction, g: real)
    requires Ordered(rs + [r]) && Debounced(rs + [r])
    ensures (forall n :: Follows(rs + [r], n) && n.src == r.src ==> n.check - r.done >= g) <==> g <= Gap(r)
  {
    var run := rs + [r];
    LastFollows(rs, r);
    var c := r.done + Gap(r);
    var w := Reaction(r.src, r.done, c, c, false);
    assert forall x :: x in run ==> x in rs || x == r;
    assert forall x :: x in rs ==> x.now <= x.done by {
      assert forall i :: 0 <= i < |rs| ==> rs[i].now <= rs[i].done;
    }
    hide Ordered, Debounced;
    AppendReaction(run, w);
    assert Follows(run, w);
    forall n | Follows(run, n) && n.src == r.src
      ensures n.check - r.done >= Gap(r)
    {
      LastFollows(run, n);
      assert r in run;
    }
  }

  /** The promised five seconds follow a reaction, whatever comes next, exactly when nothing held it up. */
  lemma FiveSecondsExactlyWhenPrompt(rs: seq<Reaction>, r: Reaction)
    requires Ordered(rs + [r]) && Debounced(rs + [r])
    ensures (forall n :: Follows(rs + [r], n) && n.src == r.src ==> n.check - r.done >= 5.0) <==>
            r.now == r.done
  {
    LastFollows(rs, r);
    hide Follows, Ordered, Debounced;
    SpacingIsExact(rs, r, 5.0);
  }

  // ----- rate bounds

  /** The reactions to `src` under way at some time within [lo, hi]. */
  function Hits(rs: seq<Reaction>, src: Key, lo: real, hi: real): seq<Reaction> {
    if rs == [] then []
    else
      var last := rs[|rs| - 1];
      Hits(rs[..|rs| - 1], src, lo, hi) + if last.src == src && last.check <= hi && lo <= last.done then [last] else []
  }

  lemma {:induction false} HitsAreMembers(rs: seq<Reaction>, src: Key, lo: real, hi: real)
    ensures forall x :: x in Hits(rs, src, lo, hi) ==> x in rs && x.src == src && x.check <= hi && lo <= x.done
  {
    if rs != [] {
      var front := rs[..|rs| - 1];
      HitsAreMembers(front, src, lo, hi);
      assert rs == front + [rs[|rs| - 1]];
    }
  }

  lemma {:induction false} HitsInherit(rs: seq<Reaction>, src: Key, lo: real, hi: real)
    requires Ordered(rs) && Debounced(rs)
    ensures Ordered(Hits(rs, src, lo, hi)) && Debounced(Hits(rs, src, lo, hi))
  {
    if rs != [] {
      hide Ordered, Debounced;
      var front, last := rs[..|rs| - 1], rs[|rs| - 1];
      assert rs == front + [last];
      LastFollows(front, last);
      HitsInherit(front, src, lo, hi);
      HitsAreMembers(front, src, lo, hi);
      AppendReaction(Hits(front, src, lo, hi), last);
      assert Hits(front, src, lo, hi) + [] == Hits(front, src, lo, hi);
    }
  }

  /** Whole steps of length `gap` in a window. */
  function Steps(w: real, gap: real): int
    requires gap > 0.0
  {
    (w / gap).Floor
  }

  lemma StepsBound(n: int, w: real, gap: real)
    requires gap > 0.0 && gap * n as real <= w
    ensures n <= Steps(w, gap)
  {
    var q := w / gap;
    assert q * gap == w;
    if q < n as real {
      assert (n as real - q) * gap > 0.0;
    }
  }

  lemma OneMoreStep(gap: real, k: nat)
    requires k > 0
    ensures gap * k as real == gap * (k - 1) as real + gap
  {
    assert k as real == (k - 1) as real + 1.0;
  }

  lemma {:induction false} Climb(h: seq<Reaction>, src: Key, gap: real, k: nat)
    requires Ordered(h) && Debounced(h) && 0 < k < |h|
    requires forall i :: 0 <= i < |h| ==> h[i].src == src && h[i].done + gap <= h[i].now + 5.0
    ensures h[k].check >= h[0].done + gap * k as real
  {
    OneMoreStep(gap, k);
    assert h[k].check >= h[k - 1].now + 5.0 >= h[k - 1].done + gap;
    if k > 1 {
      Climb(h, src, gap, k - 1);
      assert h[k - 1].done >= h[k - 1].check >= h[0].done + gap * (k - 1) as real;
    }
  }

  lemma ClimbWithin(h: seq<Reaction>, src: Key, d: real, lo: real, hi: real)
    requires Ordered(h) && Debounced(h) && lo <= hi && 0.0 <= d < 5.0
    requires forall x :: x in h ==> x.src == src && x.check <= hi && lo <= x.done && x.done - x.now <= d
    ensures |h| <= Steps(hi - lo, 5.0 - d) + 1
  {
    hide Ordered, Debounced, Steps;
    assert forall i :: 0 <= i < |h| ==> h[i] in h;
    if |h| > 1 {
      var gap := 5.0 - d;
      Climb(h, src, gap, |h| - 1);
      StepsBound(|h| - 1, hi - lo, gap);
    } else {
      StepsBound(0, hi - lo, 5.0 - d);
    }
  }

  /**
    When no reaction to a key is held up for more than `d` seconds: at most one of them for each
    5 - d seconds begun, for every arrival pattern. Without hold-ups that is one for each five.
   */
  lemma ReactionsBound(rs: seq<Reaction>, src: Key, d: real, lo: real, hi: real)
    requires Ordered(rs) && Debounced(rs) && lo <= hi && 0.0 <= d < 5.0
    requires forall r :: r in rs && r.src == src ==> r.done - r.now <= d
    ensures |Hits(rs, src, lo, hi)| <= Steps(hi - lo, 5.0 - d) + 1
  {
    HitsInherit(rs, src, lo, hi);
    HitsAreMembers(rs, src, lo, hi);
    hide Ordered, Debounced, Steps, Hits;
    ClimbWithin(Hits(rs, src, lo, hi), src, d, lo, hi);
  }

  lemma {:induction false} AnyClimb(h: seq<Reaction>, src: Key, k: nat)
    requires Ordered(h) && Debounced(h) && 0 < 2 * k < |h|
    requires forall i :: 0 <= i < |h| ==> h[i].src == src
    ensures h[2 * k].check >= h[0].done + 5.0 * k as real
  {
    assert h[2 * k].check >= h[2 * k - 1].now + 5.0 && h[2 * k - 1].now >= h[2 * k - 2].done;
    if k > 1 {
      AnyClimb(h, src, k - 1);
    }
  }

  lemma AnyWindow(h: seq<Reaction>, src: Key, lo: real, hi: real, k: nat)
    requires Ordered(h) && Debounced(h) && lo <= hi && (|h| == 2 * k + 1 || |h| == 2 * k + 2)
    requires forall x :: x in h ==> x.src == src && x.check <= hi && lo <= x.done
    ensures k <= Steps(hi - lo, 5.0)
  {
    assert forall i :: 0 <= i < |h| ==> h[i] in h;
    if k > 0 {
      AnyClimb(h, src, k);
    }
    StepsBound(k, hi - lo, 5.0);
  }

  /** However long the thread is held up: at most twice as many. */
  lemma AnyReactionsBound(rs: seq<Reaction>, src: Key, lo: real, hi: real)
    requires Ordered(rs) && Debounced(rs) && lo <= hi
    ensures |Hits(rs, src, lo, hi)| <= 2 * (Steps(hi - lo, 5.0) + 1)
  {
    HitsInherit(rs, src, lo, hi);
    HitsAreMembers(rs, src, lo, hi);
    hide Ordered, Debounced, Steps, Hits;
    StepsBound(0, hi - lo, 5.0);
    var h := Hits(rs, src, lo, hi);
    if h != [] {
      AnyWindow(h, src, lo, hi, (|h| - 1) / 2);
    }
  }

  /** A hold-up of nearly five seconds lets two reactions follow each other within a tenth of one. */
  lemma HoldUpDefeatsSpacing(src: Key)
    ensures var rs := [Reaction(src, 0.0, 0.0, 0.0, true), Reaction(src, 0.1, 5.0, 5.0, true),
                       Reaction(src, 5.1, 5.1, 5.1, true)];
            Ordered(rs) && Debounced(rs) && |Hits(rs, src, 5.0, 5.1)| > Steps(5.1 - 5.0, 5.0) + 1
  {
    var a, b, c := Reaction(src, 0.0, 0.0, 0.0, true), Reaction(src, 0.1, 5.0, 5.0, true),
      Reaction(src, 5.1, 5.1, 5.1, true);
    assert [a, b, c][..2] == [a, b] && [a, b][..1] == [a] && [a][..0] == [];
    assert Hits([a], src, 5.0, 5.1) == [] + [];
    assert Hits([a, b], src, 5.0, 5.1) == [b];
    assert Hits([a, b, c], src, 5.0, 5.1) == [b] + [c];
  }

  /** The advertisement rounds under way at some time within [lo, hi]. */
  function RoundsIn(rounds: seq<Round>, lo: real, hi: real): seq<Round> {
    if rounds == [] then []
    else
      var last := rounds[|rounds| - 1];
      RoundsIn(rounds[..|rounds| - 1], lo, hi) + if last.check <= hi && lo <= last.done then [last] else []
  }

  lemma {:induction false} RoundsInAreMembers(rounds: seq<Round>, lo: real, hi: real)
    ensures forall r :: r in RoundsIn(rounds, lo, hi) ==> r in rounds && r.check <= hi && lo <= r.done
  {
    if rounds != [] {
      var front := rounds[..|rounds| - 1];
      RoundsInAreMembers(front, lo, hi);
      assert rounds == front + [rounds[|rounds| - 1]];
    }
  }

  lemma LastRoundFollows(front: seq<Round>, last: Round)
    requires Spaced(front + [last])
    ensures Spaced(front) && last.check <= last.done
    ensures forall r :: r in front ==> last.check >= r.done + 5.0
  {
    var rounds := front + [last];
    assert rounds[|front|] == last && forall i :: 0 <= i < |front| ==> rounds[i] == front[i];
  }

  lemma {:induction false} RoundsInherit(rounds: seq<Round>, lo: real, hi: real)
    requires Spaced(rounds)
    ensures Spaced(RoundsIn(rounds, lo, hi))
  {
    if rounds != [] {
      hide Spaced;
      var front, last := rounds[..|rounds| - 1], rounds[|rounds| - 1];
      assert rounds == front + [last];
      LastRoundFollows(front, last);
      RoundsInherit(front, lo, hi);
      RoundsInAreMembers(front, lo, hi);
      AppendRound(RoundsIn(front, lo, hi), last);
      assert RoundsIn(front, lo, hi) + [] == RoundsIn(front, lo, hi);
    }
  }

  lemma {:induction false} RoundsClimb(h: seq<Round>, k: nat)
    requires Spaced(h) && 0 < k < |h|
    ensures h[k].check >= h[0].done + 5.0 * k as real
  {
    if k > 1 {
      RoundsClimb(h, k - 1);
    }
  }

  lemma RoundsClimbWithin(h: seq<Round>, lo: real, hi: real)
    requires Spaced(h) && lo <= hi && forall r :: r in h ==> r.check <= hi && lo <= r.done
    ensures |h| <= Steps(hi - lo, 5.0) + 1
  {
    hide Spaced, Steps;
    StepsBound(0, hi - lo, 5.0);
    if |h| > 1 {
      assert h[0] in h && h[|h| - 1] in h;
      RoundsClimb(h, |h| - 1);
      StepsBound(|h| - 1, hi - lo, 5.0);
    }
  }

  /** Advertisement rounds keep their distance however the thread is held up: the reading stored is the last one. */
  lemma RoundsBound(rounds: seq<Round>, lo: real, hi: real)
    requires Spaced(rounds) && lo <= hi
    ensures |RoundsIn(rounds, lo, hi)| <= Steps(hi - lo, 5.0) + 1
  {
    RoundsInherit(rounds, lo, hi);
    RoundsInAreMembers(rounds, lo, hi);
    hide Spaced, RoundsIn, Steps;
    RoundsClimbWithin(RoundsIn(rounds, lo, hi), lo, hi);
  }

  // ----- frames sent to one peer

  function Replies(h: seq<Reaction>): nat {
    if h == [] then 0 else Replies(h[..|h| - 1]) + if h[|h| - 1].replied then 1 else 0
  }

  /** The advertisements rounds sent to `k`, with every repetition in a round. */
  function Adverts(h: seq<Round>, k: Key): nat {
    if h == [] then 0 else Adverts(h[..|h| - 1], k) + Times(h[|h| - 1].sent, k)
  }

  lemma {:induction false} RepliesAtMost(h: seq<Reaction>)
    ensures Replies(h) <= |h|
  {
    if h != [] {
      RepliesAtMost(h[..|h| - 1]);
    }
  }

  lemma {:induction false} AdvertsAtMost(h: seq<Round>, k: Key, m: nat)
    requires forall r :: r in h ==> Times(r.sent, k) <= m
    ensures Adverts(h, k) <= m * |h|
  {
    if h != [] {
      AdvertsAtMost(h[..|h| - 1], k, m);
      assert h[|h| - 1] in h;
      assert m * |h| == m * (|h| - 1) + m;
    }
  }

  /** Every frame that may have gone to `k` within [lo, hi]: it is sent while its reaction or round is under way. */
  function FramesTo(rs: seq<Reaction>, rounds: seq<Round>, k: Key, lo: real, hi: real): nat {
    Replies(Hits(rs, k, lo, hi)) + Adverts(RoundsIn(rounds, lo, hi), k)
  }

  /** No reaction to `k` is held up for more than `d`, and no round lists `k` more than `m` times. */
  ghost predicate Regular(rs: seq<Reaction>, rounds: seq<Round>, k: Key, d: real, m: nat) {
    (forall r :: r in rs && r.src == k ==> r.done - r.now <= d) && (forall r :: r in rounds ==> Times(r.sent, k) <= m)
  }

  /** The frames to one peer in a window of length w: a reply for each 5 - d seconds begun, m adverts for each five. */
  function FrameLimit(w: real, d: real, m: nat): int
    requires d < 5.0
  {
    Steps(w, 5.0 - d) + 1 + m * (Steps(w, 5.0) + 1)
  }

  lemma FramesBound(rs: seq<Reaction>, rounds: seq<Round>, k: Key, d: real, m: nat, lo: real, hi: real)
    requires Ordered(rs) && Debounced(rs) && Spaced(rounds) && lo <= hi && 0.0 <= d < 5.0
    requires Regular(rs, rounds, k, d, m)
    ensures FramesTo(rs, rounds, k, lo, hi) <= FrameLimit(hi - lo, d, m)
  {
    hide Ordered, Debounced, Spaced, Steps, Hits, RoundsIn, Times;
    ReactionsBound(rs, k, d, lo, hi);
    RepliesAtMost(Hits(rs, k, lo, hi));
    RoundsBound(rounds, lo, hi);
    RoundsInAreMembers(rounds, lo, hi);
    var n, bound := |RoundsIn(rounds, lo, hi)|, Steps(hi - lo, 5.0) + 1;
    AdvertsAtMost(RoundsIn(rounds, lo, hi), k, m);
    assert m * n <= m * bound;
  }

  // ----- two nodes answering each other

  /** The replies of a whole run to one key. */
  function RepliesTo(rs: seq<Reaction>, k: Key): nat {
    if rs == [] then 0
    else RepliesTo(rs[..|rs| - 1], k) + if rs[|rs| - 1].src == k && rs[|rs| - 1].replied then 1 else 0
  }

  lemma OneMoreReaction(rs: seq<Reaction>, r: Reaction, k: Key)
    ensures RepliesTo(rs + [r], k) == RepliesTo(rs, k) + if r.src == k && r.replied then 1 else 0
    ensures RepliesTo(rs + [], k) == RepliesTo(rs, k)
  {
    assert (rs + [r])[..|rs|] == rs && rs + [] == rs;
  }

  lemma OneMoreRound(rounds: seq<Round>, r: Round, k: Key)
    ensures Adverts(rounds + [r], k) == Adverts(rounds, k) + Times(r.sent, k)
  {
    assert (rounds + [r])[..|rounds|] == rounds;
  }

  /** A node, the peer it is paired with, and the frames from that peer: under way, heard, unanswered, lost. */
  class Node {
    const driver: Driver
    const peer: Key
    ghost var inbox: nat
    ghost var heard: nat
    ghost var unanswered: nat
    ghost var lost: nat

    constructor (peer: Key, start: real)
      ensures driver.Valid() && driver.reactions == [] && driver.rounds == [] && fresh(driver)
      ensures this.peer == peer && inbox == heard == unanswered == lost == 0
    {
      this.peer := peer;
      driver := new Driver(start);
      inbox, heard, unanswered, lost := 0, 0, 0, 0;
    }

    /** Frames sent to the peer so far. */
    ghost function Sent(): nat
      reads driver
    {
      RepliesTo(driver.reactions, peer) + Adverts(driver.rounds, peer)
    }

    /** Every frame of the other node is under way, heard or lost; every frame heard is answered or not. */
    ghost predicate Accounts(other: Node)
      reads this, driver, other, other.driver
    {
      && driver.Valid() && this != other && driver != other.driver
      && other.Sent() == inbox + heard + lost
      && heard == RepliesTo(driver.reactions, peer) + unanswered
    }

    /** A frame from the peer arrives. */
    method Hear(other: Node, now: real, check: real, done: real, reflexive: Option<Endpoint>)
      requires Accounts(other) && other.Accounts(this) && inbox > 0 && driver.clock <= now <= check <= done
      modifies this, driver, other`inbox
      ensures Accounts(other) && other.Accounts(this)
      ensures inbox == old(inbox) - 1 && heard == old(heard) + 1 && lost == old(lost)
      ensures other.inbox == old(other.inbox) + Sent() - old(Sent()) && other.inbox <= old(other.inbox) + 1
    {
      hide LastNow, RepliesTo, Adverts, Ordered, Debounced, Spaced;
      OneMoreReaction(driver.reactions, Reaction(peer, now, check, done, reflexive.Some?), peer);
      var react, reply := driver.OnRendezvous(peer, now, check, done, reflexive);
      inbox, heard := inbox - 1, heard + 1;
      if reply {
        other.inbox := other.inbox + 1;
      } else {
        unanswered := unanswered + 1;
      }
    }

    /** A frame from anyone else arrives. */
    method HearAnother(other: Node, src: Key, now: real, check: real, done: real, reflexive: Option<Endpoint>)
      requires Accounts(other) && other.Accounts(this) && src != peer && driver.clock <= now <= check <= done
      modifies driver
      ensures Accounts(other) && other.Accounts(this) && Sent() == old(Sent())
    {
      hide LastNow, RepliesTo, Adverts, Ordered, Debounced, Spaced;
      OneMoreReaction(driver.reactions, Reaction(src, now, check, done, reflexive.Some?), peer);
      var react, reply := driver.OnRendezvous(src, now, check, done, reflexive);
    }

    method Advertise(other: Node, check: real, done: real, reflexive: Option<Endpoint>, peers: seq<Peer>)
      requires Accounts(other) && other.Accounts(this) && driver.clock <= check <= done
      modifies driver, other`inbox
      ensures Accounts(other) && other.Accounts(this)
      ensures other.inbox == old(other.inbox) + Sent() - old(Sent())
    {
      hide LastNow, RepliesTo, Adverts, RelayOnly, Times, Ordered, Debounced, Spaced;
      ghost var before := driver.rounds;
      var sent := driver.Initiate(check, done, reflexive, peers);
      OneMoreRound(before, Round(check, done, sent), peer);
      if driver.rounds != before {
        other.inbox := other.inbox + Times(sent, peer);
      }
    }

    /** The relay drops a frame on its way here. */
    ghost method Lose(other: Node)
      requires Accounts(other) && other.Accounts(this) && inbox > 0
      modifies this
      ensures Accounts(other) && other.Accounts(this) && inbox == old(inbox) - 1 && lost == old(lost) + 1
    {
      inbox, lost := inbox - 1, lost + 1;
    }
  }

  /**
    Two nodes that answer each other, after any interleaving of arrivals, losses and rounds: no frame
    is made but by an advertisement, so every advertised frame is still on its way in one form or
    another, lost, or left unanswered; and in every window both together stay within the limit.
   */
  lemma MutualReciprocation(x: Node, y: Node, d: real, m: nat, lo: real, hi: real)
    requires x.Accounts(y) && y.Accounts(x) && lo <= hi && 0.0 <= d < 5.0
    requires Regular(x.driver.reactions, x.driver.rounds, x.peer, d, m)
    requires Regular(y.driver.reactions, y.driver.rounds, y.peer, d, m)
    ensures Adverts(x.driver.rounds, x.peer) + Adverts(y.driver.rounds, y.peer) ==
            x.inbox + y.inbox + x.lost + y.lost + x.unanswered + y.unanswered
    ensures FramesTo(x.driver.reactions, x.driver.rounds, x.peer, lo, hi) +
            FramesTo(y.driver.reactions, y.driver.rounds, y.peer, lo, hi) <= 2 * FrameLimit(hi - lo, d, m)
  {
    hide Regular, FramesTo, FrameLimit, RepliesTo, Adverts;
    FramesBound(x.driver.reactions, x.driver.rounds, x.peer, d, m, lo, hi);
    FramesBound(y.driver.reactions, y.driver.rounds, y.peer, d, m, lo, hi);
  }
}
