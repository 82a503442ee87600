/**
  The peer roster of crates/agent-core/src/pump.rs and the filter in front of it in
  crates/agent-core/src/dataplane.rs. Text has been parsed: a `PeerInfo` carries what its address,
  key and endpoint parse to. boringtun's tunnel state is reduced to its index and whether a
  handshake was completed.
 */
module Roster {
  import opened Octets

  datatype SocketAddr = SocketAddr(ip: IpAddr, port: nat)

  datatype PeerInfo = PeerInfo(nodeId: string, publicKeyB64: string, publicKey: Option<Bytes>,
                               overlayIp: Option<IpAddr>, endpoint: Option<SocketAddr>)

  datatype DialablePeer = DialablePeer(nodeId: string, publicKeyB64: string, publicKey: Bytes,
                                       overlayIp: IpAddr, endpoint: Option<SocketAddr>)

  // ----- dataplane.rs

  function ToDialable(p: PeerInfo, selfOverlay: IpAddr): Option<DialablePeer> {
    if p.overlayIp.None? || p.overlayIp.value == selfOverlay || p.publicKey.None? then None
    else Some(DialablePeer(p.nodeId, p.publicKeyB64, p.publicKey.value, p.overlayIp.value, p.endpoint))
  }

  function DialablePeers(list: seq<PeerInfo>, selfOverlay: IpAddr): (r: seq<DialablePeer>)
    ensures |r| <= |list| && forall d :: d in r ==> d.overlayIp != selfOverlay
    ensures forall d :: d in r <==> exists p :: p in list && ToDialable(p, selfOverlay) == Some(d)
  {
    if list == [] then []
    else
      var d := ToDialable(list[0], selfOverlay);
      assert list == [list[0]] + list[1..];
      (if d.Some? then [d.value] else []) + DialablePeers(list[1..], selfOverlay)
  }

  /** Field by field: the peers whose address and key parse and whose address is not ours, with what they parse to. */
  lemma DialableMeans(list: seq<PeerInfo>, selfOverlay: IpAddr, d: DialablePeer)
    ensures d in DialablePeers(list, selfOverlay) <==>
            d.overlayIp != selfOverlay &&
            exists p :: p in list && p.overlayIp == Some(d.overlayIp) && p.publicKey == Some(d.publicKey) &&
                        p.nodeId == d.nodeId && p.publicKeyB64 == d.publicKeyB64 && p.endpoint == d.endpoint
  {
    hide DialablePeers;
    forall p: PeerInfo
      ensures ToDialable(p, selfOverlay) == Some(d) <==>
              d.overlayIp != selfOverlay && p.overlayIp == Some(d.overlayIp) && p.publicKey == Some(d.publicKey) &&
              p.nodeId == d.nodeId && p.publicKeyB64 == d.publicKeyB64 && p.endpoint == d.endpoint
    {
    }
    hide ToDialable;
    if d.overlayIp != selfOverlay && exists p :: p in list && p.overlayIp == Some(d.overlayIp) &&
                                                 p.publicKey == Some(d.publicKey) && p.nodeId == d.nodeId &&
                                                 p.publicKeyB64 == d.publicKeyB64 && p.endpoint == d.endpoint {
      var p :| p in list && p.overlayIp == Some(d.overlayIp) && p.publicKey == Some(d.publicKey) &&
               p.nodeId == d.nodeId && p.publicKeyB64 == d.publicKeyB64 && p.endpoint == d.endpoint;
      assert ToDialable(p, selfOverlay) == Some(d);
    }
  }

  /** In list order. */
  lemma {:induction false} DialableInOrder(a: seq<PeerInfo>, b: seq<PeerInfo>, selfOverlay: IpAddr)
    ensures DialablePeers(a + b, selfOverlay) == DialablePeers(a, selfOverlay) + DialablePeers(b, selfOverlay)
  {
    if a == [] {
      assert a + b == b;
    } else {
      assert (a + b)[1..] == a[1..] + b;
      DialableInOrder(a[1..], b, selfOverlay);
    }
  }

  // ----- keys

  function KeysOf(ds: seq<DialablePeer>): (r: seq<string>)
    ensures |r| == |ds| && forall i :: 0 <= i < |ds| ==> r[i] == ds[i].publicKeyB64
  {
    seq(|ds|, i requires 0 <= i < |ds| => ds[i].publicKeyB64)
  }

  predicate Distinct<T(==)>(s: seq<T>) {
    forall i, j :: 0 <= i < j < |s| ==> s[i] != s[j]
  }

  /** The peers of a list whose keys are not known yet. */
  function NewPeers(ds: seq<DialablePeer>, known: set<string>): (r: seq<DialablePeer>)
    ensures |r| <= |ds| && forall d :: d in r <==> d in ds && d.publicKeyB64 !in known
    ensures forall k :: k in KeysOf(r) <==> k in KeysOf(ds) && k !in known
  {
    if ds == [] then []
    else
      var front, last := ds[..|ds| - 1], ds[|ds| - 1];
      var r := NewPeers(front, known);
      assert ds == front + [last];
      assert KeysOf(ds) == KeysOf(front) + [last.publicKeyB64];
      if last.publicKeyB64 in known then r
      else
        assert KeysOf(r + [last]) == KeysOf(r) + [last.publicKeyB64];
        r + [last]
  }

  lemma {:induction false} NewPeersInOrder(a: seq<DialablePeer>, b: seq<DialablePeer>, known: set<string>)
    ensures NewPeers(a + b, known) == NewPeers(a, known) + NewPeers(b, known)
    decreases |b|
  {
    if b == [] {
      assert a + b == a;
    } else {
      assert (a + b)[..|a + b| - 1] == a + b[..|b| - 1];
      NewPeersInOrder(a, b[..|b| - 1], known);
    }
  }

  /** A list without repeated keys contributes no repeated keys. */
  lemma {:induction false} NewPeersDistinct(ds: seq<DialablePeer>, known: set<string>)
    requires Distinct(KeysOf(ds))
    ensures Distinct(KeysOf(NewPeers(ds, known)))
  {
    if ds != [] {
      var front, last := ds[..|ds| - 1], ds[|ds| - 1];
      assert forall i :: 0 <= i < |front| ==> KeysOf(front)[i] == KeysOf(ds)[i];
      NewPeersDistinct(front, known);
      var r := NewPeers(front, known);
      assert last.publicKeyB64 !in KeysOf(front);
      if last.publicKeyB64 !in known {
        assert KeysOf(r + [last]) == KeysOf(r) + [last.publicKeyB64];
      }
    }
  }

  lemma AppendDistinct<T>(a: seq<T>, b: seq<T>)
    requires Distinct(a) && forall x :: x in b ==> x !in a
    ensures Distinct(a + b) <==> Distinct(b)
  {
    if Distinct(a + b) {
      forall i, j | 0 <= i < j < |b|
        ensures b[i] != b[j]
      {
        assert (a + b)[|a| + i] != (a + b)[|a| + j];
      }
    }
    if Distinct(b) {
      forall i, j | 0 <= i < j < |a + b|
        ensures (a + b)[i] != (a + b)[j]
      {
        if i < |a| <= j {
          assert b[j - |a|] in b && a[i] in a;
        }
      }
    }
  }

  /**
    Adding keeps keys distinct exactly when the peers it adds have distinct keys, which a list
    without repeated keys guarantees.
   */
  lemma AdditionKeepsKeysDistinct(keys: seq<string>, ds: seq<DialablePeer>)
    requires Distinct(keys)
    ensures var added := KeysOf(NewPeers(ds, SetOf(keys)));
            (Distinct(keys + added) <==> Distinct(added)) && (Distinct(KeysOf(ds)) ==> Distinct(keys + added))
  {
    AppendDistinct(keys, KeysOf(NewPeers(ds, SetOf(keys))));
    if Distinct(KeysOf(ds)) {
      NewPeersDistinct(ds, SetOf(keys));
    }
  }

  /** A single event's list, as `peer_added` brings it, repeats no key. */
  lemma SingletonRepeatsNoKey(p: PeerInfo, selfOverlay: IpAddr)
    ensures Distinct(KeysOf(DialablePeers([p], selfOverlay)))
  {
    assert [p][1..] == [] && DialablePeers([], selfOverlay) == [];
  }

  lemma SingletonIsNewWhen(p: PeerInfo, selfOverlay: IpAddr, known: set<string>)
    ensures var d := ToDialable(p, selfOverlay);
            NewPeers(DialablePeers([p], selfOverlay), known) ==
            if d.Some? && d.value.publicKeyB64 !in known then [d.value] else []
  {
    assert [p][1..] == [] && DialablePeers([], selfOverlay) == [];
    var d := ToDialable(p, selfOverlay);
    if d.Some? {
      assert [d.value][..0] == [] && NewPeers([d.value][..0], known) == [];
    }
  }

  /** Two list entries with one unknown key are both added. */
  lemma RepeatedKeyIsAddedTwice(d: DialablePeer)
    ensures !Distinct(KeysOf(NewPeers([d, d], {})))
  {
    assert [d, d][..1] == [d] && [d][..0] == [];
    assert NewPeers([d], {}) == [] + [d];
    assert NewPeers([d, d], {}) == [d] + [d];
    assert KeysOf([d] + [d])[0] == KeysOf([d] + [d])[1];
  }

  function SetOf(keys: seq<string>): set<string> {
    set k | k in keys
  }

  // ----- `Vec::retain`

  function Retain<T>(s: seq<T>, keep: T -> bool): (r: seq<T>)
    ensures |r| <= |s|
  {
    if s == [] then []
    else Retain(s[..|s| - 1], keep) + if keep(s[|s| - 1]) then [s[|s| - 1]] else []
  }

  /** Each element is kept or not by itself, and the order is that of the original. */
  lemma {:induction false} RetainInOrder<T>(a: seq<T>, b: seq<T>, keep: T -> bool)
    ensures Retain(a + b, keep) == Retain(a, keep) + Retain(b, keep)
    ensures |a| == 1 ==> Retain(a, keep) == if keep(a[0]) then a else []
    decreases |b|
  {
    if |a| == 1 {
      assert a[..0] == [] && a == [a[0]];
    }
    if b == [] {
      assert a + b == a;
    } else {
      assert (a + b)[..|a + b| - 1] == a + b[..|b| - 1];
      RetainInOrder(a, b[..|b| - 1], keep);
    }
  }

  /** What is retained stands at increasing positions of the original, and is to be kept. */
  lemma {:induction false} RetainPicks<T>(s: seq<T>, keep: T -> bool) returns (idx: seq<nat>)
    ensures |idx| == |Retain(s, keep)|
    ensures forall i :: 0 <= i < |idx| ==> idx[i] < |s| && s[idx[i]] == Retain(s, keep)[i] && keep(s[idx[i]])
    ensures forall i, j :: 0 <= i < j < |idx| ==> idx[i] < idx[j]
  {
    if s == [] {
      idx := [];
    } else {
      var n := |s| - 1;
      var r := Retain(s[..n], keep);
      var front := RetainPicks(s[..n], keep);
      assert Retain(s, keep) == r + if keep(s[n]) then [s[n]] else [];
      hide Retain;
      idx := if keep(s[n]) then front + [n] else front;
      forall i | 0 <= i < |idx|
        ensures idx[i] < |s| && s[idx[i]] == Retain(s, keep)[i] && keep(s[idx[i]])
      {
        if i < |front| {
          assert idx[i] == front[i] && s[front[i]] == s[..n][front[i]] && Retain(s, keep)[i] == r[i];
        }
      }
    }
  }

  /** Everything to be kept is retained; the length is the same exactly when everything was. */
  lemma {:induction false} RetainKeepsAll<T>(s: seq<T>, keep: T -> bool)
    ensures forall x :: x in s && keep(x) ==> x in Retain(s, keep)
    ensures |Retain(s, keep)| == |s| <==> forall x :: x in s ==> keep(x)
  {
    if s != [] {
      var front, last := s[..|s| - 1], s[|s| - 1];
      assert s == front + [last];
      RetainKeepsAll(front, keep);
    }
  }

  // ----- pump.rs

  class PeerEntry {
    const peer: DialablePeer
    var endpoint: Option<SocketAddr>
    /** The index the entry's current tunnel was made with, and whether it has a session. */
    var tunnel: nat
    var established: bool
    var lastActivity: real

    constructor (peer: DialablePeer, tunnel: nat, now: real)
      ensures this.peer == peer && this.tunnel == tunnel && endpoint == peer.endpoint
      ensures !established && lastActivity == now
    {
      this.peer, this.tunnel := peer, tunnel;
      endpoint, established, lastActivity := peer.endpoint, false, now;
    }

    twostate predicate Unchanged()
      reads this
    {
      unchanged(this)
    }

    /** What a sweep does to the entry, drawing indices between `low` and `high`. */
    twostate predicate SweptAt(now: real, limit: real, low: nat, high: nat)
      reads this
    {
      if old(established) && now - old(lastActivity) >= limit
      then !established && lastActivity == now && low < tunnel <= high && endpoint == old(endpoint)
      else Unchanged()
    }
  }

  function EntryKeys(es: seq<PeerEntry>): (r: seq<string>)
    ensures |r| == |es| && forall i :: 0 <= i < |es| ==> r[i] == es[i].peer.publicKeyB64
  {
    seq(|es|, i requires 0 <= i < |es| => es[i].peer.publicKeyB64)
  }

  /** Retaining keeps whatever was distinct distinct. */
  lemma RetainKeepsDistinct(es: seq<PeerEntry>, keep: PeerEntry -> bool)
    ensures Distinct(es) ==> Distinct(Retain(es, keep))
    ensures Distinct(EntryKeys(es)) ==> Distinct(EntryKeys(Retain(es, keep)))
    ensures (forall i, j :: 0 <= i < j < |es| ==> es[i].tunnel != es[j].tunnel) ==>
              var r := Retain(es, keep); forall i, j :: 0 <= i < j < |r| ==> r[i].tunnel != r[j].tunnel
    ensures forall e :: e in Retain(es, keep) ==> e in es
  {
    var idx := RetainPicks(es, keep);
    var r := Retain(es, keep);
    assert forall i, j :: 0 <= i < j < |r| ==> r[i] == es[idx[i]] && r[j] == es[idx[j]] && idx[i] < idx[j];
    if Distinct(EntryKeys(es)) {
      forall i, j | 0 <= i < j < |r|
        ensures EntryKeys(r)[i] != EntryKeys(r)[j]
      {
        assert EntryKeys(es)[idx[i]] != EntryKeys(es)[idx[j]];
      }
    }
  }

  /** After pruning to the live keys and adding the missing ones, exactly the live keys are left. */
  lemma ReconciledKeys(es: seq<PeerEntry>, ds: seq<DialablePeer>, k: string)
    ensures var kept := EntryKeys(Retain(es, (e: PeerEntry) => e.peer.publicKeyB64 in SetOf(KeysOf(ds))));
            k in kept + KeysOf(NewPeers(ds, SetOf(kept))) <==> k in KeysOf(ds)
  {
    var keep := (e: PeerEntry) => e.peer.publicKeyB64 in SetOf(KeysOf(ds));
    var r := Retain(es, keep);
    var idx := RetainPicks(es, keep);
    if k in EntryKeys(r) {
      var i :| 0 <= i < |r| && EntryKeys(r)[i] == k;
      assert keep(es[idx[i]]);
    }
  }

  lemma {:induction false} SameKnownSameNew(ds: seq<DialablePeer>, known: set<string>, others: set<string>)
    requires forall d :: d in ds ==> (d.publicKeyB64 in known <==> d.publicKeyB64 in others)
    ensures NewPeers(ds, known) == NewPeers(ds, others)
  {
    if ds != [] {
      var front, last := ds[..|ds| - 1], ds[|ds| - 1];
      assert ds == front + [last];
      SameKnownSameNew(front, known, others);
    }
  }

  /** Of the listed peers, those unknown after pruning to the listed keys are those unknown before. */
  lemma PruningForgetsNoLiveKey(es: seq<PeerEntry>, ds: seq<DialablePeer>)
    ensures var kept := Retain(es, (e: PeerEntry) => e.peer.publicKeyB64 in SetOf(KeysOf(ds)));
            NewPeers(ds, SetOf(EntryKeys(kept))) == NewPeers(ds, SetOf(EntryKeys(es)))
  {
    var keep := (e: PeerEntry) => e.peer.publicKeyB64 in SetOf(KeysOf(ds));
    var kept := Retain(es, keep);
    var idx := RetainPicks(es, keep);
    RetainKeepsAll(es, keep);
    hide Retain, NewPeers;
    forall d | d in ds
      ensures d.publicKeyB64 in EntryKeys(kept) <==> d.publicKeyB64 in EntryKeys(es)
    {
      var k := d.publicKeyB64;
      var n :| 0 <= n < |ds| && ds[n] == d;
      assert KeysOf(ds)[n] == k;
      if k in EntryKeys(es) {
        var i :| 0 <= i < |es| && EntryKeys(es)[i] == k;
        assert keep(es[i]) && es[i] in kept;
        var j :| 0 <= j < |kept| && kept[j] == es[i];
        assert EntryKeys(kept)[j] == k;
      }
      if k in EntryKeys(kept) {
        var j :| 0 <= j < |kept| && EntryKeys(kept)[j] == k;
        assert EntryKeys(es)[idx[j]] == k;
      }
    }
    SameKnownSameNew(ds, SetOf(EntryKeys(kept)), SetOf(EntryKeys(es)));
  }

  class Roster {
    const selfOverlay: IpAddr
    var peers: seq<PeerEntry>
    /** The counter tunnel indices are drawn from. */
    var index: nat

    /** What every run keeps: no entry is ourselves, and live tunnels have indices of their own. */
    ghost predicate Valid()
      reads this, peers
    {
      && Distinct(peers)
      && (forall e :: e in peers ==> e.peer.overlayIp != selfOverlay && e.tunnel <= index)
      && (forall i, j :: 0 <= i < j < |peers| ==> peers[i].tunnel != peers[j].tunnel)
    }

    /** What runs over lists without repeated keys keep as well. */
    predicate UniqueKeys()
      reads this
    {
      Distinct(EntryKeys(peers))
    }

    constructor (selfOverlay: IpAddr)
      ensures Valid() && UniqueKeys() && peers == [] && index == 0 && this.selfOverlay == selfOverlay
    {
      this.selfOverlay, peers, index := selfOverlay, [], 0;
    }

    /** The entries behind the first `n` were made for `ds`, under consecutive indices. */
    ghost predicate MadeFor(n: nat, ds: seq<DialablePeer>, firstIndex: nat, now: real)
      reads this, peers
    {
      |peers| == n + |ds| && index == firstIndex + |ds| &&
      forall i :: 0 <= i < |ds| ==>
        var e := peers[n + i];
        e.peer == ds[i] && e.endpoint == ds[i].endpoint && e.tunnel == firstIndex + 1 + i &&
        !e.established && e.lastActivity == now
    }

    method AddEntry(d: DialablePeer, now: real, ghost n: nat, ghost made: seq<DialablePeer>, ghost firstIndex: nat)
      requires Valid() && d.overlayIp != selfOverlay && MadeFor(n, made, firstIndex, now)
      modifies this
      ensures Valid() && |peers| == |old(peers)| + 1 && peers[..|old(peers)|] == old(peers)
      ensures fresh(peers[|old(peers)|])
      ensures MadeFor(n, made + [d], firstIndex, now)
    {
      index := index + 1;
      var e := new PeerEntry(d, index, now);
      peers := peers + [e];
    }

    lemma NothingMade(now: real)
      ensures MadeFor(|peers|, [], index, now)
    {
    }

    lemma MadeForKeys(n: nat, made: seq<DialablePeer>, firstIndex: nat, now: real)
      requires MadeFor(n, made, firstIndex, now)
      ensures EntryKeys(peers) == EntryKeys(peers[..n]) + KeysOf(made)
    {
    }

    /**
      `add_tunn_peers`: entries for exactly the dialable peers with unknown keys, each with the next
      index; the keys known are those at the start, so a repeated key in the list is added twice.
     */
    method AddTunnPeers(list: seq<PeerInfo>, now: real) returns (added: seq<IpAddr>)
      requires Valid()
      modifies this
      ensures Valid() && |peers| >= |old(peers)| && peers[..|old(peers)|] == old(peers)
      ensures forall i :: |old(peers)| <= i < |peers| ==> fresh(peers[i])
      ensures var new_ := NewPeers(DialablePeers(list, selfOverlay), SetOf(EntryKeys(old(peers))));
              && MadeFor(|old(peers)|, new_, old(index), now) && added == OverlaysOf(new_)
              && EntryKeys(peers) == EntryKeys(old(peers)) + KeysOf(new_)
              && (old(UniqueKeys()) ==> (UniqueKeys() <==> Distinct(KeysOf(new_))))
      ensures index == old(index) + |added| && |peers| == |old(peers)| + |added|
      ensures old(UniqueKeys()) && Distinct(KeysOf(DialablePeers(list, selfOverlay))) ==> UniqueKeys()
    {
      hide Distinct, NewPeers, DialablePeers, SetOf;
      ghost var n, firstIndex, keys := |peers|, index, EntryKeys(peers);
      var dialable := DialablePeers(list, selfOverlay);
      var known := SetOf(EntryKeys(peers));
      added := AddUnknown(dialable, known, now);
      MadeForKeys(n, NewPeers(dialable, known), firstIndex, now);
      if Distinct(keys) {
        AdditionKeepsKeysDistinct(keys, dialable);
      }
    }

    method AddUnknown(dialable: seq<DialablePeer>, known: set<string>, now: real) returns (added: seq<IpAddr>)
      requires Valid() && forall d :: d in dialable ==> d.overlayIp != selfOverlay
      modifies this
      ensures Valid() && |peers| >= |old(peers)| && peers[..|old(peers)|] == old(peers)
      ensures forall i :: |old(peers)| <= i < |peers| ==> fresh(peers[i])
      ensures MadeFor(|old(peers)|, NewPeers(dialable, known), old(index), now)
      ensures added == OverlaysOf(NewPeers(dialable, known))
    {
      NothingMade(now);
      hide Valid, Distinct, NewPeers, MadeFor, OverlaysOf;
      NewPeersNone(known);
      ghost var before := peers;
      ghost var made: seq<DialablePeer> := [];
      added := [];
      assert dialable[..0] == [];
      for n := 0 to |dialable|
        invariant Valid() && |peers| >= |before| && peers[..|before|] == before
        invariant forall i :: |before| <= i < |peers| ==> fresh(peers[i])
        invariant made == NewPeers(dialable[..n], known) && added == OverlaysOf(made)
        invariant MadeFor(|before|, made, old(index), now)
      {
        var d := dialable[n];
        NewPeersSnoc(dialable, n, known);
        if d.publicKeyB64 in known {
          assert made == NewPeers(dialable[..n + 1], known);
        } else {
          AddEntry(d, now, |before|, made, old(index));
          OverlaysSnoc(made, d);
          added := added + [d.overlayIp];
          made := made + [d];
        }
      }
      assert dialable[..|dialable|] == dialable;
    }

    /**
      `reconcile_peers`: afterwards the keys are exactly the dialable keys of the list; survivors are
      the very entries they were, untouched and in order; the counts add up.
     */
    method ReconcilePeers(list: seq<PeerInfo>, now: real) returns (added: seq<IpAddr>, removed: nat)
      requires Valid()
      modifies this
      ensures Valid()
      ensures forall k :: k in EntryKeys(peers) <==> k in KeysOf(DialablePeers(list, selfOverlay))
      ensures var live := SetOf(KeysOf(DialablePeers(list, selfOverlay)));
              var kept := Retain(old(peers), (e: PeerEntry) => e.peer.publicKeyB64 in live);
              && |peers| == |kept| + |added| && peers[..|kept|] == kept && removed == |old(peers)| - |kept|
              && (forall i :: |kept| <= i < |peers| ==> fresh(peers[i]))
      ensures |peers| == |old(peers)| - removed + |added|
      ensures index == old(index) + |added|
      ensures var new_ := NewPeers(DialablePeers(list, selfOverlay), SetOf(EntryKeys(old(peers))));
              MadeFor(|old(peers)| - removed, new_, old(index), now) &&
              (old(UniqueKeys()) ==> (UniqueKeys() <==> Distinct(KeysOf(new_))))
      ensures old(UniqueKeys()) && Distinct(KeysOf(DialablePeers(list, selfOverlay))) ==> UniqueKeys()
    {
      hide Distinct, Retain, NewPeers, DialablePeers, MadeFor;
      var dialable := DialablePeers(list, selfOverlay);
      var live := SetOf(KeysOf(dialable));
      ghost var original := peers;
      PruningForgetsNoLiveKey(original, dialable);
      removed := Prune((e: PeerEntry) => e.peer.publicKeyB64 in SetOf(KeysOf(dialable)));
      added := AddTunnPeers(list, now);
      forall k
        ensures k in EntryKeys(peers) <==> k in KeysOf(dialable)
      {
        ReconciledKeys(original, dialable, k);
      }
    }

    /**
      A `peer_added` event: a list of one, which repeats no key, so keys stay unique; an entry is made
      exactly for a dialable peer with an unknown key.
     */
    method PeerAdded(p: PeerInfo, now: real) returns (added: nat)
      requires Valid()
      modifies this
      ensures Valid() && |peers| == |old(peers)| + added && peers[..|old(peers)|] == old(peers)
      ensures old(UniqueKeys()) ==> UniqueKeys()
      ensures var d := ToDialable(p, selfOverlay);
              if d.Some? && d.value.publicKeyB64 !in EntryKeys(old(peers))
              then added == 1 && fresh(peers[|peers| - 1]) && peers[|peers| - 1].peer == d.value
              else added == 0
    {
      hide Distinct, NewPeers, DialablePeers, KeysOf, ToDialable;
      SingletonRepeatsNoKey(p, selfOverlay);
      ghost var d, known, n, first := ToDialable(p, selfOverlay), SetOf(EntryKeys(peers)), |peers|, index;
      ghost var new_ := if d.Some? && d.value.publicKeyB64 !in known then [d.value] else [];
      SingletonIsNewWhen(p, selfOverlay, known);
      assert d.Some? ==> (d.value.publicKeyB64 in known <==> d.value.publicKeyB64 in EntryKeys(peers));
      hide EntryKeys, SetOf;
      var overlays := AddTunnPeers([p], now);
      assert MadeFor(n, new_, first, now) && |overlays| == |new_|;
      added := |overlays|;
    }

    /** `guard.retain(…)` and the count of what it dropped. */
    method Prune(keep: PeerEntry -> bool) returns (removed: nat)
      requires Valid()
      modifies this`peers
      ensures Valid() && peers == Retain(old(peers), keep) && removed == |old(peers)| - |peers|
      ensures old(UniqueKeys()) ==> UniqueKeys()
    {
      RetainKeepsDistinct(peers, keep);
      var before := |peers|;
      peers := Retain(peers, keep);
      removed := before - |peers|;
    }

    /** `remove_peer_by_node_id`: every entry of the node goes, every other stays, untouched and in order. */
    method RemovePeerByNodeId(nodeId: string) returns (any: bool)
      requires Valid()
      modifies this`peers
      ensures Valid() && peers == Retain(old(peers), (e: PeerEntry) => e.peer.nodeId != nodeId)
      ensures any <==> exists e :: e in old(peers) && e.peer.nodeId == nodeId
      ensures old(UniqueKeys()) ==> UniqueKeys()
    {
      RetainKeepsAll(peers, (e: PeerEntry) => e.peer.nodeId != nodeId);
      var removed := Prune((e: PeerEntry) => e.peer.nodeId != nodeId);
      any := removed != 0;
    }

    /**
      One sweep of `teardown_idle`: a session idle for the limit gives way to a fresh tunnel under a
      new index, at the same entry and with the endpoint it learned; nothing else is touched.
     */
    method TeardownIdle(snapshot: seq<PeerEntry>, now: real, limit: real)
      requires Valid() && Distinct(snapshot)
      modifies this`index, snapshot
      ensures Valid() && index >= old(index) && peers == old(peers)
      ensures forall e :: e in snapshot ==> e.SweptAt(now, limit, old(index), index)
    {
      for i := 0 to |snapshot|
        invariant Valid() && index >= old(index)
        invariant forall j :: 0 <= j < i ==> snapshot[j].SweptAt(now, limit, old(index), index)
        invariant forall j :: i <= j < |snapshot| ==> snapshot[j].Unchanged()
      {
        var entry := snapshot[i];
        if entry.established && now - entry.lastActivity >= limit {
          index := index + 1;
          entry.tunnel := index;
          entry.established := false;
          entry.lastActivity := now;
        }
      }
    }
  }

  function OverlaysOf(ds: seq<DialablePeer>): seq<IpAddr> {
    seq(|ds|, i requires 0 <= i < |ds| => ds[i].overlayIp)
  }

  lemma OverlaysSnoc(ds: seq<DialablePeer>, d: DialablePeer)
    ensures OverlaysOf(ds + [d]) == OverlaysOf(ds) + [d.overlayIp]
  {
  }

  lemma NewPeersNone(known: set<string>)
    ensures NewPeers([], known) == [] && OverlaysOf([]) == []
  {
  }

  lemma NewPeersSnoc(ds: seq<DialablePeer>, n: nat, known: set<string>)
    requires n < |ds|
    ensures NewPeers(ds[..n + 1], known) ==
            NewPeers(ds[..n], known) + if ds[n].publicKeyB64 in known then [] else [ds[n]]
  {
    assert ds[..n + 1][..n] == ds[..n];
  }
}
