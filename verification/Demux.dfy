/**
  Receive demultiplexing of crates/agent-core/src/pump.rs: `peer_by_source`, `rx_candidates` and the
  trial loop of `spawn_rx`. Which tunnel accepts a datagram is boringtun's business and is a
  parameter.
 */
module Demux {
  import opened Octets
  import opened Roster
  import Stun

  // ----- the order of trial

  /** Everything but the guess. */
  function Except<T(==)>(guess: Option<T>): T -> bool {
    x => guess.None? || x != guess.value
  }

  /** The guess first, then every other peer in roster order. */
  function Candidates<T(==)>(s: seq<T>, guess: Option<T>): seq<T> {
    (if guess.Some? then [guess.value] else []) + Retain(s, Except(guess))
  }

  /** The first candidate that accepts. */
  function FirstAccepting<T>(cands: seq<T>, accepts: T -> bool): Option<T> {
    if cands == [] then None
    else if accepts(cands[0]) then Some(cands[0])
    else FirstAccepting(cands[1..], accepts)
  }

  /** Every peer is tried once and nobody else is: the candidates are the roster, reordered. */
  lemma CandidatesPermuteTheRoster<T>(s: seq<T>, guess: Option<T>)
    requires Distinct(s) && (guess.Some? ==> guess.value in s)
    ensures var c := Candidates(s, guess);
            Distinct(c) && multiset(c) == multiset(s) && (guess.Some? ==> c[0] == guess.value)
  {
    var c, r := Candidates(s, guess), Retain(s, Except(guess));
    RetainDistinct(s, Except(guess));
    if guess.Some? {
      GuessAndRest(s, guess);
      assert guess.value !in r;
      assert multiset(c) == multiset{guess.value} + multiset(r);
    } else {
      RetainEverything(s, Except(guess));
      assert c == r;
    }
  }

  /** Everybody who is tried: the roster, and the guess even if it has left the roster in the meantime. */
  function WithGuess<T(==)>(s: seq<T>, guess: Option<T>): seq<T> {
    if guess.Some? && guess.value !in s then [guess.value] + s else s
  }

  /** Whether or not the guess is still in the roster: everybody to be tried is a candidate once, the guess first. */
  lemma CandidatesPermuteTheTried<T>(s: seq<T>, guess: Option<T>)
    requires Distinct(s)
    ensures var c := Candidates(s, guess);
            Distinct(c) && multiset(c) == multiset(WithGuess(s, guess)) && (guess.Some? ==> c[0] == guess.value)
    ensures guess.Some? && guess.value !in s ==> Candidates(s, guess) == [guess.value] + s
  {
    if guess.Some? && guess.value !in s {
      RetainEverything(s, Except(guess));
    } else {
      CandidatesPermuteTheRoster(s, guess);
    }
  }

  lemma {:induction false} RetainEverything<T>(s: seq<T>, keep: T -> bool)
    requires forall x :: x in s ==> keep(x)
    ensures Retain(s, keep) == s
  {
    if s != [] {
      var front, last := s[..|s| - 1], s[|s| - 1];
      assert s == front + [last];
      RetainEverything(front, keep);
    }
  }

  lemma {:induction false} GuessAndRest<T>(s: seq<T>, guess: Option<T>)
    requires Distinct(s) && guess.Some? && guess.value in s
    ensures multiset(s) == multiset{guess.value} + multiset(Retain(s, Except(guess)))
  {
    var front, last := s[..|s| - 1], s[|s| - 1];
    var rest := Retain(front, Except(guess));
    assert s == front + [last];
    if last == guess.value {
      assert last !in front;
      RetainEverything(front, Except(guess));
      assert Retain(s, Except(guess)) == front;
      hide Distinct, Retain;
      assert multiset(s) == multiset(front) + multiset{last};
    } else {
      assert guess.value in front && Distinct(front);
      GuessAndRest(front, guess);
      SnocBags(s, front, last, Retain(s, Except(guess)), rest, guess.value);
    }
  }

  lemma SnocBags<T>(s: seq<T>, front: seq<T>, last: T, r: seq<T>, rest: seq<T>, g: T)
    requires s == front + [last] && r == rest + [last] && multiset(front) == multiset{g} + multiset(rest)
    ensures multiset(s) == multiset{g} + multiset(r)
  {
    assert multiset(s) == multiset(front) + multiset{last};
    assert multiset(r) == multiset(rest) + multiset{last};
  }

  lemma RetainDistinct<T>(s: seq<T>, keep: T -> bool)
    requires Distinct(s)
    ensures Distinct(Retain(s, keep)) && forall x :: x in Retain(s, keep) ==> keep(x)
  {
    var idx := RetainPicks(s, keep);
    var r := Retain(s, keep);
    assert forall i, j :: 0 <= i < j < |r| ==> r[i] == s[idx[i]] && r[j] == s[idx[j]] && idx[i] < idx[j];
  }

  lemma {:induction false} FirstAcceptingFinds<T>(cands: seq<T>, accepts: T -> bool)
    ensures match FirstAccepting(cands, accepts)
            case None => forall x :: x in cands ==> !accepts(x)
            case Some(x) => x in cands && accepts(x)
  {
    if cands != [] {
      assert cands == [cands[0]] + cands[1..];
      FirstAcceptingFinds(cands[1..], accepts);
    }
  }

  /** It is the first: everything before it does not accept. */
  lemma {:induction false} FirstAcceptingIsFirst<T>(cands: seq<T>, accepts: T -> bool)
    ensures var r := FirstAccepting(cands, accepts);
            r.Some? ==> exists i :: 0 <= i < |cands| && cands[i] == r.value && accepts(cands[i]) &&
                                    forall j :: 0 <= j < i ==> !accepts(cands[j])
  {
    if cands != [] && !accepts(cands[0]) && FirstAccepting(cands, accepts).Some? {
      var rest := cands[1..];
      FirstAcceptingIsFirst(rest, accepts);
      var i :| 0 <= i < |rest| && rest[i] == FirstAccepting(rest, accepts).value && accepts(rest[i]) &&
               forall j :: 0 <= j < i ==> !accepts(rest[j]);
      assert cands[i + 1] == rest[i] && forall j :: 0 < j < i + 1 ==> cands[j] == rest[j - 1];
    }
  }

  lemma {:induction false} FirstAcceptingJoins<T>(a: seq<T>, b: seq<T>, accepts: T -> bool)
    ensures FirstAccepting(a + b, accepts) ==
            if FirstAccepting(a, accepts).Some? then FirstAccepting(a, accepts) else FirstAccepting(b, accepts)
  {
    if a == [] {
      assert a + b == b;
    } else {
      assert (a + b)[1..] == a[1..] + b;
      FirstAcceptingJoins(a[1..], b, accepts);
    }
  }

  lemma {:induction false} RejectingIsNoLoss<T>(s: seq<T>, guess: Option<T>, accepts: T -> bool)
    requires guess.Some? ==> !accepts(guess.value)
    ensures FirstAccepting(Retain(s, Except(guess)), accepts) == FirstAccepting(s, accepts)
  {
    if s != [] {
      var front, last := s[..|s| - 1], s[|s| - 1];
      var kept := if Except(guess)(last) then [last] else [];
      RejectingIsNoLoss(front, guess, accepts);
      assert s == front + [last];
      FirstAcceptingJoins(front, [last], accepts);
      FirstAcceptingJoins(Retain(front, Except(guess)), kept, accepts);
      assert [last][1..] == [];
    }
  }

  /** The guess if it accepts, else the first in roster order that does. */
  lemma GuessElseFirst<T>(s: seq<T>, guess: Option<T>, accepts: T -> bool)
    ensures FirstAccepting(Candidates(s, guess), accepts) ==
            if guess.Some? && accepts(guess.value) then guess else FirstAccepting(s, accepts)
  {
    var rest := Retain(s, Except(guess));
    if guess.Some? {
      FirstAcceptingJoins([guess.value], rest, accepts);
      assert [guess.value][1..] == [];
    } else {
      assert Candidates(s, guess) == rest;
    }
    if guess.None? || !accepts(guess.value) {
      RejectingIsNoLoss(s, guess, accepts);
    }
  }

  /** Whatever the guesses, the outcome is the same when no two peers accept one datagram. */
  lemma GuessNeverChangesTheOutcome<T>(s: seq<T>, g1: Option<T>, g2: Option<T>, accepts: T -> bool)
    requires Distinct(s) && (g1.Some? ==> g1.value in s) && (g2.Some? ==> g2.value in s)
    requires forall x, y :: x in s && y in s && accepts(x) && accepts(y) ==> x == y
    ensures FirstAccepting(Candidates(s, g1), accepts) == FirstAccepting(Candidates(s, g2), accepts)
  {
    var c1, c2 := Candidates(s, g1), Candidates(s, g2);
    CandidatesAreTheRoster(s, g1);
    CandidatesAreTheRoster(s, g2);
    hide Candidates, Distinct;
    FirstAcceptingFinds(c1, accepts);
    FirstAcceptingFinds(c2, accepts);
  }

  lemma CandidatesAreTheRoster<T>(s: seq<T>, guess: Option<T>)
    requires Distinct(s) && (guess.Some? ==> guess.value in s)
    ensures forall x :: x in Candidates(s, guess) <==> x in s
  {
    CandidatesAreTheTried(s, guess);
  }

  lemma CandidatesAreTheTried<T>(s: seq<T>, guess: Option<T>)
    requires Distinct(s)
    ensures forall x :: x in Candidates(s, guess) <==> x in WithGuess(s, guess)
  {
    CandidatesPermuteTheTried(s, guess);
    var c, t := Candidates(s, guess), WithGuess(s, guess);
    assert forall x :: x in c <==> x in multiset(c);
    assert forall x :: x in t <==> x in multiset(t);
  }

  // ----- the code

  /**
    `tunn.decapsulate`: a rejection, or an acceptance that may end in decrypted data and leaves the
    tunnel with or without an established session.
   */
  datatype Verdict = Rejected | Accepted(data: bool, established: bool)

  /** The first entry known at the very endpoint; failing that the first at the same host; failing that a sole entry. */
  ghost predicate IsGuess(peers: seq<PeerEntry>, src: SocketAddr, guess: Option<PeerEntry>)
    reads peers
  {
    if exists e :: e in peers && e.endpoint == Some(src) then
      exists i :: 0 <= i < |peers| && guess == Some(peers[i]) && peers[i].endpoint == Some(src) &&
                  forall j :: 0 <= j < i ==> peers[j].endpoint != Some(src)
    else if exists e :: e in peers && e.endpoint.Some? && e.endpoint.value.ip == src.ip then
      exists i :: 0 <= i < |peers| && guess == Some(peers[i]) &&
                  peers[i].endpoint.Some? && peers[i].endpoint.value.ip == src.ip &&
                  forall j :: 0 <= j < i ==> peers[j].endpoint.None? || peers[j].endpoint.value.ip != src.ip
    else guess == if |peers| == 1 then Some(peers[0]) else None
  }

  predicate SameHost(endpoint: Option<SocketAddr>, src: SocketAddr) {
    endpoint.Some? && endpoint.value.ip == src.ip
  }

  /** `peer_by_source`. */
  method PeerBySource(peers: seq<PeerEntry>, src: SocketAddr) returns (guess: Option<PeerEntry>)
    ensures IsGuess(peers, src, guess) && (guess.Some? ==> guess.value in peers)
  {
    for i := 0 to |peers|
      invariant forall j :: 0 <= j < i ==> peers[j].endpoint != Some(src)
    {
      if peers[i].endpoint == Some(src) {
        return Some(peers[i]);
      }
    }
    for i := 0 to |peers|
      invariant forall j :: 0 <= j < i ==> !SameHost(peers[j].endpoint, src)
    {
      if SameHost(peers[i].endpoint, src) {
        return Some(peers[i]);
      }
    }
    guess := if |peers| == 1 then Some(peers[0]) else None;
  }

  /**
    `rx_candidates`, which locks the roster twice: `peers` is what the guess is taken from, `later`
    what the others are taken from. The result is a permutation of `later`, the guess in front and
    the others in roster order behind it, unless the guess has been removed in between: then, and
    only then, it stands in front of all of `later` although it is no peer any more.
   */
  method RxCandidates(peers: seq<PeerEntry>, later: seq<PeerEntry>, src: SocketAddr)
    returns (v: seq<PeerEntry>, guess: Option<PeerEntry>)
    requires Distinct(later)
    ensures IsGuess(peers, src, guess) && (guess.Some? ==> guess.value in peers)
    ensures Distinct(v) && multiset(v) == multiset(WithGuess(later, guess)) && (guess.Some? ==> v[0] == guess.value)
    ensures multiset(v) == multiset(later) <==> guess.None? || guess.value in later
    ensures (if guess.Some? then v[1..] else v) == Retain(later, Except(guess))
    ensures v == Candidates(later, guess)
  {
    var hit := PeerBySource(peers, src);
    guess := hit;
    v := [];
    if hit.Some? {
      v := [hit.value];
    }
    v := v + Retain(later, Except(hit));
    CandidatesPermuteTheTried(later, guess);
    hide IsGuess, Distinct;
    if guess.Some? && guess.value !in later {
      assert multiset(v) == multiset{guess.value} + multiset(later);
    }
  }

  function Accepts(decap: PeerEntry -> Verdict): PeerEntry -> bool {
    (e: PeerEntry) => decap(e).Accepted?
  }

  /** The trial loop: tunnels that reject are passed over. */
  method Trial(candidates: seq<PeerEntry>, decap: PeerEntry -> Verdict) returns (r: Option<PeerEntry>)
    ensures r == FirstAccepting(candidates, Accepts(decap))
    ensures r.None? ==> forall i :: 0 <= i < |candidates| ==> decap(candidates[i]).Rejected?
    ensures r.Some? ==> exists i :: 0 <= i < |candidates| && r == Some(candidates[i]) &&
                                    decap(candidates[i]).Accepted? &&
                                    forall j :: 0 <= j < i ==> decap(candidates[j]).Rejected?
  {
    for i := 0 to |candidates|
      invariant FirstAccepting(candidates, Accepts(decap)) == FirstAccepting(candidates[i..], Accepts(decap))
      invariant forall j :: 0 <= j < i ==> decap(candidates[j]).Rejected?
    {
      if decap(candidates[i]).Accepted? {
        return Some(candidates[i]);
      }
    }
    r := None;
  }

  /** The entry whose tunnel takes the datagram, if any does. */
  method Handler(peers: seq<PeerEntry>, later: seq<PeerEntry>, src: SocketAddr, decap: PeerEntry -> Verdict)
    returns (r: Option<PeerEntry>, ghost guess: Option<PeerEntry>)
    requires Distinct(later)
    ensures IsGuess(peers, src, guess) && (guess.Some? ==> guess.value in peers)
    ensures r == FirstAccepting(Candidates(later, guess), Accepts(decap))
    ensures guess.Some? && decap(guess.value).Accepted? ==> r == guess
    ensures r.Some? && (guess.None? || decap(guess.value).Rejected?) ==>
              exists i :: 0 <= i < |later| && r == Some(later[i]) &&
                          forall j :: 0 <= j < i ==> decap(later[j]).Rejected?
    ensures r.Some? ==> r.value in WithGuess(later, guess) && decap(r.value).Accepted?
    ensures r.None? ==> forall e :: e in WithGuess(later, guess) ==> decap(e).Rejected?
  {
    hide IsGuess;
    hide Candidates, Distinct, FirstAccepting, Retain, WithGuess;
    var candidates, hit := RxCandidates(peers, later, src);
    guess := hit;
    r := Trial(candidates, decap);
    HandledMeans(later, guess, decap);
  }

  lemma HandledMeans(later: seq<PeerEntry>, guess: Option<PeerEntry>, decap: PeerEntry -> Verdict)
    requires Distinct(later)
    ensures var r := FirstAccepting(Candidates(later, guess), Accepts(decap));
            && (guess.Some? && decap(guess.value).Accepted? ==> r == guess)
            && (r.Some? && (guess.None? || decap(guess.value).Rejected?) ==>
                  exists i :: 0 <= i < |later| && r == Some(later[i]) &&
                              forall j :: 0 <= j < i ==> decap(later[j]).Rejected?)
            && (r.Some? ==> r.value in WithGuess(later, guess) && decap(r.value).Accepted?)
            && (r.None? ==> forall e :: e in WithGuess(later, guess) ==> decap(e).Rejected?)
  {
    CandidatesAreTheTried(later, guess);
    hide Candidates, Distinct, FirstAccepting, Retain, WithGuess;
    FirstAcceptingFinds(Candidates(later, guess), Accepts(decap));
    GuessElseFirst(later, guess, Accepts(decap));
    FirstAcceptingIsFirst(later, Accepts(decap));
  }

  /**
    One datagram in `spawn_rx`; `before` is the roster when the guess was taken. A STUN message
    touches no peer, and a WireGuard message is never taken for one. Otherwise the entry it is handed
    to accepts it, learns the source as its endpoint and is the only one touched; it is the first to
    accept, the guess before all others. Nobody is touched only when every tunnel tried rejects it;
    and where just one accepts, it is that one, whatever the endpoint table said.
   */
  method RxDatagram(roster: Roster, before: seq<PeerEntry>, src: SocketAddr, datagram: Stun.Packet,
                    decap: PeerEntry -> Verdict, now: real)
    returns (handled: Option<PeerEntry>, ghost guess: Option<PeerEntry>)
    requires roster.Valid()
    modifies roster.peers, before
    ensures roster.Valid() && roster.peers == old(roster.peers)
    ensures Stun.IsStun(datagram) ==> handled.None?
    ensures guess.Some? ==> guess.value in before
    ensures !Stun.IsStun(datagram) ==> (guess.Some? ==> guess.value in before) && old(IsGuess(before, src, guess)) &&
                                       handled == FirstAccepting(Candidates(roster.peers, guess), Accepts(decap))
    ensures !Stun.IsStun(datagram) && guess.Some? && decap(guess.value).Accepted? ==> handled == guess
    ensures handled.Some? && (guess.None? || decap(guess.value).Rejected?) ==>
              exists i :: 0 <= i < |roster.peers| && handled == Some(roster.peers[i]) &&
                          forall j :: 0 <= j < i ==> decap(roster.peers[j]).Rejected?
    ensures handled.Some? ==>
              var e := handled.value;
              && e in WithGuess(roster.peers, guess) && decap(e).Accepted? && e.endpoint == Some(src)
              && e.lastActivity == (if decap(e).data then now else old(e.lastActivity))
              && e.tunnel == old(e.tunnel) && e.established == decap(e).established
    ensures forall e :: (e in roster.peers || e in before) && handled != Some(e) ==> e.Unchanged()
    ensures !Stun.IsStun(datagram) && handled.None? ==>
              forall e :: e in WithGuess(roster.peers, guess) ==> decap(e).Rejected?
    ensures forall e :: !Stun.IsStun(datagram) && OnlyAcceptor(WithGuess(roster.peers, guess), decap, e) ==>
                        handled == Some(e)
    ensures Stun.IsWireGuard(datagram) ==> handled == FirstAccepting(Candidates(roster.peers, guess), Accepts(decap))
  {
    Stun.WireGuardIsNotStun(datagram);
    hide Stun.IsStun, Stun.IsWireGuard;
    if Stun.IsStun(datagram) {
      return None, None;
    }
    hide Candidates, Distinct, FirstAccepting, IsGuess, Retain;
    handled, guess := Handler(before, roster.peers, src, decap);
    if handled.Some? {
      Learn(handled.value, src, decap(handled.value).data, decap(handled.value).established, now);
    }
  }

  /** What an accepted datagram does to the entry; the session is boringtun's, and may be established by it. */
  method Learn(entry: PeerEntry, src: SocketAddr, data: bool, established: bool, now: real)
    modifies entry`endpoint, entry`lastActivity, entry`established
    ensures entry.endpoint == Some(src) && entry.established == established
    ensures entry.lastActivity == (if data then now else old(entry.lastActivity))
  {
    entry.endpoint := Some(src);
    entry.established := established;
    if data {
      entry.lastActivity := now;
    }
  }

  /**
    A whole life of a session: a datagram establishes it, nothing more moves for the limit, and the
    sweep gives the entry a fresh tunnel under a new index while it keeps the endpoint it learned.
   */
  method EstablishedThenIdle(roster: Roster, src: SocketAddr, datagram: Stun.Packet, decap: PeerEntry -> Verdict,
                             now: real, limit: real)
    returns (handled: Option<PeerEntry>)
    requires roster.Valid() && limit >= 0.0
    requires forall e :: e in roster.peers ==> e.lastActivity <= now
    modifies roster`index, roster.peers
    ensures roster.Valid() && roster.peers == old(roster.peers)
    ensures handled.Some? ==>
              var e := handled.value;
              && e in roster.peers && decap(e).Accepted? && e.endpoint == Some(src) && !e.established
              && (if decap(e).established then e.tunnel > old(roster.index) else e.tunnel == old(e.tunnel))
  {
    hide Candidates, FirstAccepting, IsGuess;
    ghost var guess;
    handled, guess := RxDatagram(roster, roster.peers, src, datagram, decap, now);
    if handled.Some? {
      var snapshot := [handled.value];
      assert handled.value in snapshot;
      roster.TeardownIdle(snapshot, now + limit, limit);
    }
  }

  /** `e` is the one entry whose tunnel accepts. */
  predicate OnlyAcceptor(peers: seq<PeerEntry>, decap: PeerEntry -> Verdict, e: PeerEntry) {
    e in peers && decap(e).Accepted? && forall x :: x in peers && decap(x).Accepted? ==> x == e
  }
}
