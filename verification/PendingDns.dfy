/**
  Forwarded DNS queries of crates/agent-core/src/pump.rs: `dns_forward`, `dns_reply`, `dns_fail`
  and the table of parked requests between them, with one thread forwarding.
 */
module PendingDns {
  import opened Octets
  import opened DnsMessage
  import opened DnsResponder
  import opened IpFraming

  const PENDING_WINDOW := 256

  datatype Parked = Parked(request: Bytes, query: Bytes)

  class Pending {
    const hookInstalled: bool
    const selfIp: IpAddr
    var nextToken: nat
    var pending: map<nat, Parked>
    /** Every request ever parked, in token order: token `t` names `issued[t - 1]`. */
    ghost var issued: seq<Parked>
    /** The tokens taken out by `dns_reply` or `dns_fail`, in order. */
    ghost var consumed: seq<nat>

    /** Issued, not yet consumed, and among the newest 257. */
    ghost predicate Outstanding(t: nat)
      reads this
    {
      1 <= t <= |issued| && |issued| <= t + 256 && t !in consumed
    }

    /**
      The table is exactly the unbounded map of unanswered requests cut to the newest 257, and
      no token was ever consumed twice.
     */
    ghost predicate Valid()
      reads this
    {
      && nextToken == |issued| + 1
      && (forall t: nat :: t in pending <==> Outstanding(t))
      && (forall t :: t in pending ==> pending[t] == issued[t - 1])
      && (forall i, j :: 0 <= i < j < |consumed| ==> consumed[i] != consumed[j])
      && (forall t :: t in consumed ==> 1 <= t <= |issued|)
      && (forall p :: p in issued ==> DnsQueryPayload(p.request, selfIp) == Some(p.query))
    }

    constructor (hookInstalled: bool, selfIp: IpAddr)
      ensures Valid() && issued == [] && consumed == []
      ensures this.hookInstalled == hookInstalled && this.selfIp == selfIp
    {
      this.hookInstalled, this.selfIp := hookInstalled, selfIp;
      nextToken, pending := 1, map[];
      issued, consumed := [], [];
    }

    lemma TableIsBounded()
      requires Valid()
      ensures |pending| <= 257
    {
      FewBetween(pending.Keys, if |issued| >= PENDING_WINDOW then |issued| - PENDING_WINDOW else 0, PENDING_WINDOW + 1);
    }

    /** `dns_forward`: reap what fell out of the window, then park. */
    method Forward(request: Bytes, query: Bytes) returns (token: Option<nat>)
      requires Valid() && DnsQueryPayload(request, selfIp) == Some(query)
      modifies this
      ensures Valid() && consumed == old(consumed)
      ensures !hookInstalled ==> token == None && issued == old(issued) && pending == old(pending)
      ensures hookInstalled ==> issued == old(issued) + [Parked(request, query)] &&
                                token == Some(|issued|) && token.value in pending
    {
      hide DnsQueryPayload;
      if !hookInstalled {
        return None;
      }
      var t := nextToken;
      nextToken := nextToken + 1;
      var low := if t >= PENDING_WINDOW then t - PENDING_WINDOW else 0;
      pending := map k | k in pending && k >= low :: pending[k];
      pending := pending[t := Parked(request, query)];
      issued := issued + [Parked(request, query)];
      token := Some(t);
    }

    method Take(token: nat) returns (p: Option<Parked>)
      requires Valid()
      modifies this
      ensures Valid() && issued == old(issued)
      ensures p == if old(Outstanding(token)) then Some(issued[token - 1]) else None
      ensures consumed == old(consumed) + if p.Some? then [token] else []
    {
      hide DnsQueryPayload;
      if token !in pending {
        return None;
      }
      p := Some(pending[token]);
      pending := map k | k in pending && k != token :: pending[k];
      consumed := consumed + [token];
    }

    /**
      `dns_reply`: an outstanding token sends the response to the sender of its own request;
      any other token writes nothing.
     */
    method Reply(token: nat, response: Bytes) returns (written: Option<Bytes>)
      requires Valid()
      modifies this
      ensures Valid() && issued == old(issued)
      ensures consumed == old(consumed) + if old(Outstanding(token)) then [token] else []
      ensures written.Some? <==> old(Outstanding(token))
      ensures written.Some? ==>
                var request := issued[token - 1].request;
                Framed(request) && OurAddr(request) == selfIp &&
                DecodeDatagram(written.value) ==
                  if |response| <= LargestAnswer(request) then Some(IpFraming.Reply(request, response)) else None
    {
      hide DecodeDatagram, DnsQueryPayload, OurAddr, IpFraming.Reply;
      var p := Take(token);
      if p.None? {
        return None;
      }
      RecognisedQueriesCanBeAnswered(p.value.request, selfIp);
      written := BuildDnsReply(p.value.request, response);
    }

    /**
      `dns_fail`: an outstanding token gets its sender a SERVFAIL for the question asked, and is
      met with silence exactly when its query was malformed.
     */
    method Fail(token: nat, lossy: Lossy) returns (written: Option<Bytes>)
      requires Valid()
      modifies this
      ensures Valid() && issued == old(issued)
      ensures consumed == old(consumed) + if old(Outstanding(token)) then [token] else []
      ensures written.Some? <==> old(Outstanding(token)) && WellFormedQuery(issued[token - 1].query)
      ensures written.Some? && |issued[token - 1].query| <= 65507 ==>
                var Parked(request, query) := issued[token - 1];
                var d := DecodeDatagram(written.value);
                Framed(request) && d.Some? && d.value == IpFraming.Reply(request, d.value.payload) &&
                DecodeMessage(d.value.payload) ==
                  Some(Message(ResponseHeader(query, 2), [Asked(query)], [], [], []))
    {
      hide DecodeDatagram, DecodeMessage, DnsQueryPayload, WellFormedQuery, Asked, OurAddr;
      var p := Take(token);
      if p.None? {
        return None;
      }
      RecognisedQueriesCanBeAnswered(p.value.request, selfIp);
      var servfail := BuildServfail(p.value.query, lossy);
      if servfail.None? {
        return None;
      }
      written := BuildDnsReply(p.value.request, servfail.value);
    }
  }

  lemma {:induction false} FewBetween(s: set<nat>, low: nat, n: nat)
    requires forall t :: t in s ==> low <= t < low + n
    ensures |s| <= n
  {
    if n > 0 {
      var last := low + n - 1;
      FewBetween(s - {last}, low, n - 1);
      assert s <= (s - {last}) + {last};
    }
  }
}
