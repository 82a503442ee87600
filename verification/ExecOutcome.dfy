/**
  The bounded outcome queue of crates/agent-core/src/exec_outcome.rs and its delivery loop,
  `deliver_outcomes` of crates/agent-core/src/adapters.rs.
 */
module ExecOutcome {
  import opened Octets

  const MAX_QUEUED := 256

  datatype ExecOutcome = ExecOutcome(grantId: Bytes, terminationReason: string, exitCode: Option<int>,
                                     bytesOut: Option<int>, measuredBy: Option<Bytes>)

  /** "pep:", the prefix that names the enforcement point. */
  const PEP: Bytes := [112, 101, 112, 58]

  function FromExit(grantId: Bytes, code: int, nodeId: Bytes, bytes: int): ExecOutcome {
    ExecOutcome(grantId, if code == 0 then "completed" else "failed", Some(code), Some(bytes), Some(PEP + nodeId))
  }

  function RefusedOutcome(grantId: Bytes, reason: string, nodeId: Bytes): ExecOutcome {
    ExecOutcome(grantId, reason, None, None, Some(PEP + nodeId))
  }

  // ----- a queue as a sequence

  function FirstOf<T>(s: seq<T>): seq<T> {
    if |s| <= MAX_QUEUED then s else s[..MAX_QUEUED]
  }

  function LastOf<T>(s: seq<T>): seq<T> {
    if |s| <= MAX_QUEUED then s else s[|s| - MAX_QUEUED..]
  }

  /** A bounded queue shared by every connection and by the delivery loop. */
  class OutcomeQueue {
    var inner: seq<ExecOutcome>

    ghost predicate Valid()
      reads this
    {
      |inner| <= MAX_QUEUED
    }

    constructor ()
      ensures Valid() && inner == []
    {
      inner := [];
    }

    /** `push`: the oldest makes room, and the caller is told. */
    method Push(outcome: ExecOutcome) returns (dropped: bool)
      requires Valid()
      modifies this
      ensures Valid() && inner == LastOf(old(inner) + [outcome])
      ensures inner == (if old(|inner|) < 256 then old(inner) else old(inner)[1..]) + [outcome]
      ensures dropped <==> old(|inner|) == 256
    {
      dropped := |inner| >= MAX_QUEUED;
      if dropped {
        inner := inner[1..];
      }
      inner := inner + [outcome];
    }

    method Drain() returns (all: seq<ExecOutcome>)
      requires Valid()
      modifies this
      ensures Valid() && inner == [] && all == old(inner)
    {
      all := inner;
      inner := [];
    }

    /** `requeue_front`: the newest makes room. */
    method RequeueFront(outcome: ExecOutcome)
      requires Valid()
      modifies this
      ensures Valid() && inner == FirstOf([outcome] + old(inner))
      ensures inner == [outcome] + if old(|inner|) < 256 then old(inner) else old(inner)[..255]
    {
      if |inner| >= MAX_QUEUED {
        inner := inner[..|inner| - 1];
      }
      inner := [outcome] + inner;
    }

    /** A run of pushes leaves the newest 256 of everything queued before and pushed since. */
    method PushAll(outcomes: seq<ExecOutcome>)
      requires Valid()
      modifies this
      ensures Valid() && inner == LastOf(old(inner) + outcomes)
    {
      ghost var before := inner;
      assert before + [] == before;
      for i := 0 to |outcomes|
        invariant Valid() && inner == LastOf(before + outcomes[..i])
      {
        LastOfGrows(before + outcomes[..i], outcomes[i]);
        assert before + outcomes[..i + 1] == before + outcomes[..i] + [outcomes[i]];
        var _ := Push(outcomes[i]);
      }
      assert outcomes[..|outcomes|] == outcomes;
    }

    /** Requeueing a batch from its back to its front: `for left in batch.into_iter().rev()`. */
    method RequeueAll(batch: seq<ExecOutcome>)
      requires Valid()
      modifies this
      ensures Valid() && inner == FirstOf(batch + old(inner))
    {
      ghost var before := inner;
      assert [] + before == before;
      for i := |batch| downto 0
        invariant Valid() && inner == FirstOf(batch[i..] + before)
      {
        FirstOfGrows(batch[i], batch[i + 1..] + before);
        assert batch[i..] + before == [batch[i]] + (batch[i + 1..] + before);
        RequeueFront(batch[i]);
      }
    }
  }

  lemma LastOfGrows<T>(s: seq<T>, x: T)
    ensures LastOf(LastOf(s) + [x]) == LastOf(s + [x])
  {
  }

  lemma FirstOfGrows<T>(x: T, s: seq<T>)
    ensures FirstOf([x] + FirstOf(s)) == FirstOf([x] + s)
  {
  }

  // ----- delivery

  /** How the control plane answered one POST, if it did. */
  datatype Reply = Status(code: nat) | TransportError

  predicate Success(r: Reply) {
    r.Status? && 200 <= r.code < 300
  }

  predicate ClientError(r: Reply) {
    r.Status? && 400 <= r.code < 500
  }

  /** Delivery stops here: neither success nor a decision by the control plane. */
  predicate Stops(r: Reply) {
    !Success(r) && !ClientError(r)
  }

  /** The first `n` posts that did not stop delivery; `n` when none of them did. */
  function Settled(reply: nat -> Reply, n: nat): (k: nat)
    ensures k <= n
    ensures forall i :: 0 <= i < k ==> !Stops(reply(i))
    ensures k < n ==> Stops(reply(k))
  {
    if n == 0 then 0
    else var k := Settled(reply, n - 1); if k < n - 1 || Stops(reply(n - 1)) then k else n
  }

  /** What settles an outcome, and what stops delivery, by status code. */
  lemma SettledMeans(reply: nat -> Reply, n: nat)
    ensures var k := Settled(reply, n);
            k <= n &&
            (forall i :: 0 <= i < k ==>
               reply(i).Status? && (200 <= reply(i).code < 300 || 400 <= reply(i).code < 500)) &&
            (k < n ==> reply(k).TransportError? || reply(k).code < 200 || 300 <= reply(k).code < 400 ||
                       reply(k).code >= 500)
  {
  }

  /** The posts answered with a status from 200 to 299. */
  ghost function SuccessfulPosts(reply: nat -> Reply, n: nat): set<nat> {
    set i: nat | i < n && reply(i).Status? && 200 <= reply(i).code < 300
  }

  lemma {:induction false} SuccessesAreCounted(reply: nat -> Reply, n: nat)
    ensures Successes(reply, n) == |SuccessfulPosts(reply, n)|
  {
    if n == 0 {
      assert SuccessfulPosts(reply, n) == {};
    } else {
      var few := SuccessfulPosts(reply, n - 1);
      SuccessesAreCounted(reply, n - 1);
      assert n - 1 !in few;
      assert SuccessfulPosts(reply, n) == if Success(reply(n - 1)) then few + {n - 1} else few;
    }
  }

  function Successes(reply: nat -> Reply, n: nat): nat {
    if n == 0 then 0 else Successes(reply, n - 1) + if Success(reply(n - 1)) then 1 else 0
  }

  /** Everything other tasks pushed during the first `n` posts, in order. */
  function Arrived(arrivals: nat -> seq<ExecOutcome>, n: nat): seq<ExecOutcome> {
    if n == 0 then [] else Arrived(arrivals, n - 1) + arrivals(n - 1)
  }

  /** Batch by batch, each behind all earlier ones. */
  lemma {:induction false} ArrivedInOrder(arrivals: nat -> seq<ExecOutcome>, n: nat, i: nat)
    requires i < n
    ensures |Arrived(arrivals, i)| + |arrivals(i)| <= |Arrived(arrivals, n)|
    ensures Arrived(arrivals, n)[|Arrived(arrivals, i)|..][..|arrivals(i)|] == arrivals(i)
    ensures |Arrived(arrivals, 0)| == 0 && |Arrived(arrivals, i + 1)| == |Arrived(arrivals, i)| + |arrivals(i)|
  {
    if i < n - 1 {
      ArrivedInOrder(arrivals, n - 1, i);
    }
  }

  lemma NothingYet(reply: nat -> Reply, arrivals: nat -> seq<ExecOutcome>)
    ensures LastOf(Arrived(arrivals, 0)) == [] && Settled(reply, 0) == 0 && Successes(reply, 0) == 0
  {
  }

  lemma OneMore(reply: nat -> Reply, arrivals: nat -> seq<ExecOutcome>, k: nat)
    requires Settled(reply, k) == k
    ensures LastOf(LastOf(Arrived(arrivals, k)) + arrivals(k)) == LastOf(Arrived(arrivals, k + 1))
    ensures !Stops(reply(k)) ==> Settled(reply, k + 1) == k + 1
    ensures Successes(reply, k + 1) == Successes(reply, k) + if Success(reply(k)) then 1 else 0
  {
    LastOfConcat(Arrived(arrivals, k), arrivals(k));
  }

  // ----- requeueing while others push

  /** A queue during a requeue: in front what was put back, behind it what others queued. */
  datatype Shared<T> = Shared(mine: seq<T>, others: seq<T>)

  function Whole<T>(s: Shared<T>): seq<T> {
    s.mine + s.others
  }

  /** Others push: the overflow falls off the front, where what was put back stands. */
  function Arrive<T>(s: Shared<T>, pushed: seq<T>): Shared<T> {
    var all := s.others + pushed;
    var over := |s.mine| + |all| - MAX_QUEUED;
    if over <= 0 then Shared(s.mine, all)
    else if over <= |s.mine| then Shared(s.mine[over..], all)
    else Shared([], all[over - |s.mine|..])
  }

  /** One more outcome is put back: the overflow falls off the back. */
  function PutBack<T>(s: Shared<T>, x: T): Shared<T> {
    Shared([x] + s.mine, if |Whole(s)| >= MAX_QUEUED && s.others != [] then s.others[..|s.others| - 1] else s.others)
  }

  /** After putting `back` back from its end, others pushing `between(i)` just before call `i`. */
  function After<T>(back: seq<T>, queued: seq<T>, between: nat -> seq<T>): (s: Shared<T>)
    ensures |s.mine| <= |back|
  {
    if back == [] then Shared([], queued)
    else
      var s := After(back[1..], queued, between);
      PutBack(if |back| == 1 then s else Arrive(s, between(|back| - 1)), back[0])
  }

  /** How much others push before the calls 1 up to `n`. */
  function Pushed<T>(between: nat -> seq<T>, n: nat): (all: seq<T>) {
    if n <= 1 then [] else Pushed(between, n - 1) + between(n - 1)
  }

  /** Whenever others push during the requeue, everything so far still fits. */
  predicate RoomFor<T>(queued: nat, between: nat -> seq<T>, n: nat) {
    forall i :: 1 <= i < n && between(i) != [] ==> queued + i + |Pushed(between, i + 1)| <= MAX_QUEUED
  }

  lemma ArriveIsPush<T>(s: Shared<T>, pushed: seq<T>)
    requires |Whole(s)| <= MAX_QUEUED
    ensures Whole(Arrive(s, pushed)) == LastOf(Whole(s) + pushed) && |Whole(Arrive(s, pushed))| <= MAX_QUEUED
  {
    var all, over := s.others + pushed, |s.mine| + |s.others| + |pushed| - MAX_QUEUED;
    assert Whole(s) + pushed == s.mine + all;
    if over > |s.mine| {
      assert (s.mine + all)[over..] == all[over - |s.mine|..];
    } else if over > 0 {
      assert (s.mine + all)[over..] == s.mine[over..] + all;
    }
  }

  lemma PutBackIsRequeue<T>(s: Shared<T>, x: T)
    requires |Whole(s)| <= MAX_QUEUED && |s.mine| < MAX_QUEUED
    ensures Whole(PutBack(s, x)) == FirstOf([x] + Whole(s)) && |Whole(PutBack(s, x))| <= MAX_QUEUED
  {
    assert [x] + Whole(s) == ([x] + s.mine) + s.others;
  }

  lemma {:induction false} AfterFits<T>(back: seq<T>, queued: seq<T>, between: nat -> seq<T>)
    requires |back| <= MAX_QUEUED && |queued| <= MAX_QUEUED
    ensures |Whole(After(back, queued, between))| <= MAX_QUEUED
  {
    if back != [] {
      var s := After(back[1..], queued, between);
      AfterFits(back[1..], queued, between);
      if |back| == 1 {
        PutBackIsRequeue(s, back[0]);
      } else {
        ArriveIsPush(s, between(|back| - 1));
        PutBackIsRequeue(Arrive(s, between(|back| - 1)), back[0]);
      }
    }
  }

  lemma PutBackOnto<T>(s: Shared<T>, all: seq<T>, x: T)
    requires Whole(s) == FirstOf(all) && |s.mine| < MAX_QUEUED
    ensures PutBack(s, x).mine == [x] + s.mine && Whole(PutBack(s, x)) == FirstOf([x] + all)
  {
    PutBackIsRequeue(s, x);
    FirstOfGrows(x, all);
  }

  lemma RoomSoFar<T>(queued: nat, between: nat -> seq<T>, j: nat)
    requires j > 1
    ensures RoomFor(queued, between, j) <==>
            RoomFor(queued, between, j - 1) &&
            (between(j - 1) != [] ==> queued + j - 1 + |Pushed(between, j)| <= MAX_QUEUED)
  {
    hide Pushed;
  }

  /** One call, pushes before it included, that finds room. */
  lemma RoomyCall<T>(s: Shared<T>, queued: seq<T>, pushed: seq<T>, more: seq<T>, x: T)
    requires Whole(s) == FirstOf(s.mine + (queued + pushed)) && |s.mine| < MAX_QUEUED
    requires more != [] ==> |s.mine| + |queued| + |pushed + more| <= MAX_QUEUED
    ensures var t := PutBack(Arrive(s, more), x);
            t.mine == [x] + s.mine && Whole(t) == FirstOf(([x] + s.mine) + (queued + (pushed + more)))
  {
    var all := s.mine + (queued + pushed);
    RoomForPushes(s, all, more, |all| + |more|);
    hide Whole, FirstOf, PutBack, Arrive;
    PutBackOnto(Arrive(s, more), all + more, x);
    PushedOnto(s.mine, queued, pushed, more);
    PushedOnto([x], s.mine, queued + (pushed + more), []);
  }

  lemma AfterOneCall<T>(x: T, queued: seq<T>, between: nat -> seq<T>)
    requires |queued| <= MAX_QUEUED
    ensures After([x], queued, between).mine == [x]
    ensures Whole(After([x], queued, between)) == FirstOf([x] + queued)
  {
    assert [x][1..] == [] && After([x], queued, between) == PutBack(Shared([], queued), x);
    assert Whole(Shared([], queued)) == queued && [x] + [] == [x];
    PutBackIsRequeue(Shared([], queued), x);
  }

  lemma AfterCall<T>(x: T, put: seq<T>, queued: seq<T>, between: nat -> seq<T>)
    requires put != []
    ensures After([x] + put, queued, between) == PutBack(Arrive(After(put, queued, between), between(|put|)), x)
    ensures Pushed(between, |put| + 1) == Pushed(between, |put|) + between(|put|)
  {
    assert ([x] + put)[1..] == put;
  }

  /** While there was room, nothing put back was lost, and what others queued was only cut short at its end. */
  lemma {:induction false} RoomKeepsAll<T>(back: seq<T>, queued: seq<T>, between: nat -> seq<T>)
    requires 1 <= |back| <= MAX_QUEUED && |queued| <= MAX_QUEUED && RoomFor(|queued|, between, |back|)
    ensures After(back, queued, between).mine == back
    ensures Whole(After(back, queued, between)) == FirstOf(back + (queued + Pushed(between, |back|)))
  {
    var x, put := back[0], back[1..];
    assert back == [x] + put;
    if put == [] {
      AfterOneCall(x, queued, between);
      assert [x] + (queued + []) == [x] + queued;
    } else {
      RoomSoFar(|queued|, between, |back|);
      hide Whole, FirstOf, PutBack, Arrive, RoomFor;
      RoomKeepsAll(put, queued, between);
      AfterCall(x, put, queued, between);
      hide After, Pushed;
      RoomyCall(After(put, queued, between), queued, Pushed(between, |put|), between(|put|), x);
    }
  }

  lemma PushedOnto<T>(put: seq<T>, queued: seq<T>, pushed: seq<T>, more: seq<T>)
    ensures (put + (queued + pushed)) + more == put + (queued + (pushed + more))
    ensures (put + queued) + pushed == put + (queued + pushed)
  {
    assert (put + (queued + pushed)) + more == put + (queued + (pushed + more));
  }

  lemma RoomForPushes<T>(s: Shared<T>, all: seq<T>, more: seq<T>, total: nat)
    requires Whole(s) == FirstOf(all) && total == |all| + |more| && (more != [] ==> total <= MAX_QUEUED)
    ensures Arrive(s, more).mine == s.mine && Whole(Arrive(s, more)) == FirstOf(all + more)
    ensures |Whole(Arrive(s, more))| <= MAX_QUEUED
  {
    if more == [] {
      assert s.others + more == s.others && all + more == all;
    } else {
      assert FirstOf(all) == all;
      assert s.mine + (s.others + more) == all + more;
    }
  }

  /** A push that does not fit drops something put back, and nothing brings it in again. */
  lemma {:induction false} NoRoomLoses<T>(back: seq<T>, queued: seq<T>, between: nat -> seq<T>)
    requires 1 < |back| <= MAX_QUEUED && |queued| <= MAX_QUEUED && !RoomFor(|queued|, between, |back|)
    ensures |After(back, queued, between).mine| < |back|
  {
    var x, put := back[0], back[1..];
    assert back == [x] + put;
    var s, more := After(put, queued, between), between(|put|);
    RoomSoFar(|queued|, between, |back|);
    AfterCall(x, put, queued, between);
    ArriveKeepsFew(s, more);
    OneIsPutBack(Arrive(s, more), x);
    hide RoomFor, After, Arrive, PutBack, Pushed, Whole, FirstOf;
    if RoomFor(|queued|, between, |put|) {
      RoomKeepsAll(put, queued, between);
      var all := put + (queued + Pushed(between, |put|));
      NoRoomForPushes(s, all, more, |all| + |more|);
    } else {
      RoomForOne(|queued|, between);
      NoRoomLoses(put, queued, between);
    }
  }

  lemma RoomForOne<T>(queued: nat, between: nat -> seq<T>)
    ensures RoomFor(queued, between, 1)
  {
  }

  lemma OneIsPutBack<T>(s: Shared<T>, x: T)
    ensures |PutBack(s, x).mine| == |s.mine| + 1
  {
  }

  lemma NoRoomForPushes<T>(s: Shared<T>, all: seq<T>, more: seq<T>, total: nat)
    requires Whole(s) == FirstOf(all) && total == |all| + |more| > MAX_QUEUED && more != [] && s.mine != []
    ensures |Arrive(s, more).mine| < |s.mine|
  {
  }

  /**
    Everything put back is in the queue afterwards exactly when no push during the requeue came upon
    too full a queue; then the queue is the first 256 of what was put back and what others queued.
   */
  lemma NothingLostExactlyWhen<T>(back: seq<T>, queued: seq<T>, between: nat -> seq<T>)
    requires 1 <= |back| <= MAX_QUEUED && |queued| <= MAX_QUEUED
    ensures var s, n := After(back, queued, between), |back|;
            (s.mine == back <==> RoomFor(|queued|, between, n)) &&
            (s.mine == back ==> Whole(s) == FirstOf(back + (queued + Pushed(between, n))))
  {
    if RoomFor(|queued|, between, |back|) {
      RoomKeepsAll(back, queued, between);
    } else {
      RoomForOne(|queued|, between);
      hide RoomFor;
      NoRoomLoses(back, queued, between);
    }
  }

  /** One push into a full queue between the two calls drops the outcome just put back. */
  lemma PushDuringRequeueLoses<T>(failed: T, left: T, queued: seq<T>, between: nat -> seq<T>)
    requires |queued| == MAX_QUEUED && |between(1)| == 1
    ensures After([left, failed], queued, between).mine == [left]
  {
    var s0: Shared<T> := Shared([], queued);
    var s1 := After([failed], queued, between);
    assert [failed][1..] == [] && [left, failed][1..] == [failed];
    assert After([], queued, between) == s0 && |Whole(s0)| == MAX_QUEUED;
    assert s1 == PutBack(s0, failed) && s1.mine == [failed] + [] && |s1.others| == MAX_QUEUED - 1;
    assert Arrive(s1, between(1)).mine == [];
  }

  /** The failing arm: the failed outcome first, then the rest from its back, each under a lock of its own. */
  method RequeueAfterFailure(queue: OutcomeQueue, failed: ExecOutcome, rest: seq<ExecOutcome>,
                             between: nat -> seq<ExecOutcome>)
    requires queue.Valid() && 1 + |rest| <= MAX_QUEUED
    modifies queue
    ensures queue.Valid() && queue.inner == Whole(After(rest + [failed], old(queue.inner), between))
  {
    ghost var queued := queue.inner;
    AfterOneCall(failed, queued, between);
    hide FirstOf, LastOf, Whole, After;
    queue.RequeueFront(failed);
    assert rest[|rest|..] + [failed] == [failed];
    for i := |rest| downto 0
      invariant queue.Valid() && queue.inner == Whole(After(rest[i..] + [failed], queued, between))
    {
      TailSplits(rest, failed, i);
      AfterNextCall(rest[i], rest[i + 1..] + [failed], queued, between);
      queue.PushAll(between(|rest| - i));
      queue.RequeueFront(rest[i]);
    }
  }

  lemma TailSplits<T>(s: seq<T>, last: T, i: nat)
    requires i < |s|
    ensures s[i..] + [last] == [s[i]] + (s[i + 1..] + [last])
  {
  }

  lemma AfterNextCall<T>(x: T, put: seq<T>, queued: seq<T>, between: nat -> seq<T>)
    requires 1 <= |put| < MAX_QUEUED && |queued| <= MAX_QUEUED
    ensures Whole(After([x] + put, queued, between)) ==
            FirstOf([x] + LastOf(Whole(After(put, queued, between)) + between(|put|)))
  {
    var s, pushed := After(put, queued, between), between(|put|);
    AfterCall(x, put, queued, between);
    hide LastOf, FirstOf, Whole, PutBack, Arrive, After;
    AfterFits(put, queued, between);
    ArriveIsPush(s, pushed);
    ArriveKeepsFew(s, pushed);
    PutBackIsRequeue(Arrive(s, pushed), x);
  }

  lemma ArriveKeepsFew<T>(s: Shared<T>, pushed: seq<T>)
    ensures |Arrive(s, pushed).mine| <= |s.mine|
  {
  }

  /**
    `deliver_outcomes`. While post `i` is in flight, other tasks push `arrivals(i)`. Of the drained
    batch, the settled prefix was posted once each and is gone, `delivered` of it successfully. If
    delivery stopped, the outcome it stopped at and the rest are put back, the one that failed behind
    the rest, while other tasks push `between(i)` before requeue call `i`: all of them are in the
    queue, ahead of what arrived, exactly when these pushes found room.
   */
  method DeliverOutcomes(queue: OutcomeQueue, reply: nat -> Reply, arrivals: nat -> seq<ExecOutcome>,
                         between: nat -> seq<ExecOutcome>)
    returns (delivered: nat, ghost posted: seq<ExecOutcome>)
    requires queue.Valid()
    modifies queue
    ensures queue.Valid()
    ensures var n, k := |old(queue.inner)|, Settled(reply, |old(queue.inner)|);
            delivered == |set i: nat | i < k && reply(i).Status? && 200 <= reply(i).code < 300| &&
            (forall i :: 0 <= i < k ==>
               reply(i).Status? && (200 <= reply(i).code < 300 || 400 <= reply(i).code < 500)) &&
            (k < n ==> reply(k).TransportError? || reply(k).code < 200 || 300 <= reply(k).code < 400 ||
                       reply(k).code >= 500)
    ensures var batch := old(queue.inner);
            var k := Settled(reply, |batch|);
            delivered == Successes(reply, k) &&
            if k == |batch| then posted == batch && queue.inner == LastOf(Arrived(arrivals, k))
            else
              var back, queued := batch[k + 1..] + [batch[k]], LastOf(Arrived(arrivals, k + 1));
              var s := After(back, queued, between);
              posted == batch[..k + 1] && queue.inner == s.mine + s.others &&
              (s.mine == back <==> RoomFor(|queued|, between, |back|)) &&
              (s.mine == back ==> queue.inner == FirstOf(back + (queued + Pushed(between, |back|))))
  {
    hide LastOf, FirstOf, Arrived, Settled, Successes, After, RoomFor, Pushed;
    SettledMeans(reply, |queue.inner|);
    SuccessesAreCounted(reply, Settled(reply, |queue.inner|));
    var pending := queue.Drain();
    NothingYet(reply, arrivals);
    ghost var batch := pending;
    delivered, posted := 0, [];
    var k := 0;
    while pending != []
      invariant queue.Valid() && k <= |batch| && pending == batch[k..] && posted == batch[..k]
      invariant Settled(reply, k) == k && delivered == Successes(reply, k)
      invariant queue.inner == LastOf(Arrived(arrivals, k))
    {
      var outcome := pending[0];
      pending := pending[1..];
      posted := posted + [outcome];
      assert posted == batch[..k + 1];
      OneMore(reply, arrivals, k);
      queue.PushAll(arrivals(k));
      var sent := reply(k);
      if Success(sent) {
        delivered := delivered + 1;
      } else if !ClientError(sent) {
        SettledStops(reply, k, |batch|);
        NothingLostExactlyWhen(pending + [outcome], queue.inner, between);
        RequeueAfterFailure(queue, outcome, pending, between);
        return;
      }
      k := k + 1;
    }
  }

  lemma {:induction false} LastOfConcat<T>(s: seq<T>, t: seq<T>)
    ensures LastOf(LastOf(s) + t) == LastOf(s + t)
    decreases |t|
  {
    if t == [] {
      assert LastOf(s) + t == LastOf(s) && s + t == s;
    } else {
      var n := |t| - 1;
      LastOfConcat(s, t[..n]);
      LastOfGrows(s + t[..n], t[n]);
      LastOfGrows(LastOf(s) + t[..n], t[n]);
      assert s + t == s + t[..n] + [t[n]] && LastOf(s) + t == LastOf(s) + t[..n] + [t[n]];
    }
  }

  lemma {:induction false} SettledStops(reply: nat -> Reply, k: nat, n: nat)
    requires k < n && Settled(reply, k) == k && Stops(reply(k))
    ensures Settled(reply, n) == k
  {
    if n > k + 1 {
      SettledStops(reply, k, n - 1);
    }
  }

  // ----- order

  /** The documented order: the failed outcome goes back to the front of the rest. */
  function IntendedAfterFailure(failed: ExecOutcome, rest: seq<ExecOutcome>, arrived: seq<ExecOutcome>)
    : seq<ExecOutcome>
  {
    FirstOf([failed] + rest + arrived)
  }

  /**
    What the code requeues is the documented order exactly when nothing, or nothing different,
    was waiting behind the outcome that failed.
   */
  lemma OrderSurvivesFailureWhen(failed: ExecOutcome, rest: seq<ExecOutcome>, arrived: seq<ExecOutcome>)
    requires 1 + |rest| <= MAX_QUEUED
    ensures FirstOf(rest + [failed] + arrived) == IntendedAfterFailure(failed, rest, arrived) <==>
            forall o :: o in rest ==> o == failed
  {
    var actual, intended := FirstOf(rest + [failed] + arrived), FirstOf([failed] + rest + arrived);
    var n := 1 + |rest|;
    assert actual[..n] == rest + [failed] && intended[..n] == [failed] + rest;
    if forall o :: o in rest ==> o == failed {
      assert forall i :: 0 <= i < |rest| ==> rest[i] in rest;
      assert rest + [failed] == [failed] + rest;
    }
    if actual == intended {
      assert rest + [failed] == [failed] + rest;
      RotationFixes(rest, failed);
    }
  }

  lemma {:induction false} RotationFixes<T>(s: seq<T>, x: T)
    requires s + [x] == [x] + s
    ensures forall y :: y in s ==> y == x
  {
    if s != [] {
      assert (s + [x])[0] == s[0] && s[0] == x;
      assert (s + [x])[1..] == s[1..] + [x] && ([x] + s)[1..] == s == [x] + s[1..];
      RotationFixes(s[1..], x);
    }
  }

  /** A run in which the first of two outcomes is answered with a 503: they come back in the wrong order. */
  method OrderIsLost(queue: OutcomeQueue, a: ExecOutcome, b: ExecOutcome, reply: nat -> Reply)
    requires queue.inner == [a, b] && reply(0) == Status(503)
    modifies queue
    ensures queue.inner == [b, a] && (a != b ==> queue.inner != IntendedAfterFailure(a, [b], []))
  {
    var quiet := Nobody;
    var _, posted := DeliverOutcomes(queue, reply, quiet, quiet);
    SettledStops(reply, 0, 2);
    NobodyPushes(0, 2);
    assert [a, b][1..] + [[a, b][0]] == [b, a];
    assert [b, a] + ([] + []) == [b, a];
  }

  /** No other task pushes anything. */
  function Nobody(i: nat): seq<ExecOutcome> {
    []
  }

  lemma NobodyPushes(queued: nat, n: nat)
    ensures RoomFor(queued, Nobody, n) && Pushed(Nobody, n) == [] && Arrived(Nobody, n) == []
  {
    if n > 0 {
      NobodyPushes(queued, n - 1);
    }
  }

  /**
    With the rest requeued before the failed head, as the queue's own test does it, a batch goes
    back in order in front of whatever arrived since it was drained.
   */
  method RequeueInOrder(queue: OutcomeQueue, batch: seq<ExecOutcome>)
    requires queue.Valid() && batch != []
    modifies queue
    ensures queue.Valid() && queue.inner == FirstOf(batch + old(queue.inner))
    ensures |batch| <= MAX_QUEUED ==> batch <= queue.inner
  {
    ghost var arrived := queue.inner;
    queue.RequeueAll(batch[1..]);
    FirstOfGrows(batch[0], batch[1..] + arrived);
    assert batch + arrived == [batch[0]] + (batch[1..] + arrived);
    queue.RequeueFront(batch[0]);
  }
}
