/** What crates/agent-core/src/pump.rs `spawn_tx` does with one packet read from the tun device. */
module TxPath {
  import opened Octets
  import opened DnsMessage
  import opened DnsResponder
  import opened IpFraming

  const MTU := 1420

  datatype Responder = Responder(selfIp: IpAddr, table: Table, forward: bool)

  /** `ToPeer` hands the packet to that roster entry's tunnel; `WriteTun` writes back to the device. */
  datatype Action = Drop | WriteTun(packet: Bytes) | Forward(request: Bytes, query: Bytes) | ToPeer(peer: nat)

  /** `dataplane::packet_dst`. */
  function PacketDst(packet: Bytes): Option<IpAddr> {
    if |packet| >= 20 && packet[0] / 16 == 4 then Some(V4(packet[16..20]))
    else if |packet| >= 40 && packet[0] / 16 == 6 then Some(V6(packet[24..40]))
    else None
  }

  /** Of whatever the datagram decoder reads, the destination is the one it reads. */
  lemma DatagramsGoToTheirDestination(packet: Bytes)
    requires DecodeDatagram(packet).Some?
    ensures PacketDst(packet) == Some(DecodeDatagram(packet).value.dst)
  {
  }

  /**
    Of an IPv4 header of any protocol, with any options and payload behind it, the destination is the
    address laid out behind the source.
   */
  lemma DestinationBehindSource4(first: Byte, front: Bytes, src: Octets4, dst: Octets4, rest: Bytes)
    requires 0x40 <= first < 0x50 && |front| == 11
    ensures PacketDst([first] + front + src + dst + rest) == Some(V4(dst))
  {
    var p := [first] + front + src + dst + rest;
    assert p[16..20] == dst && p[0] == first;
  }

  lemma DestinationBehindSource6(first: Byte, front: Bytes, src: Octets16, dst: Octets16, rest: Bytes)
    requires 0x60 <= first < 0x70 && |front| == 7
    ensures PacketDst([first] + front + src + dst + rest) == Some(V6(dst))
  {
    var p := [first] + front + src + dst + rest;
    assert p[24..40] == dst && p[0] == first;
  }

  /** A packet has no destination exactly when it is neither IPv4 nor IPv6 or has not all of the fixed header. */
  lemma NoDestinationWhen(packet: Bytes)
    ensures PacketDst(packet) == None <==>
            |packet| < 20 || !(0x40 <= packet[0] < 0x50 || (0x60 <= packet[0] < 0x70 && |packet| >= 40))
  {
  }

  /** `peer_by_overlay`: the first entry that owns the address. */
  method PeerByOverlay(overlays: seq<IpAddr>, dst: IpAddr) returns (r: Option<nat>)
    ensures r.None? ==> dst !in overlays
    ensures r.Some? ==> r.value < |overlays| && overlays[r.value] == dst && dst !in overlays[..r.value]
  {
    for i := 0 to |overlays|
      invariant dst !in overlays[..i]
    {
      if overlays[i] == dst {
        return Some(i);
      }
    }
    r := None;
  }

  /** The responder's table has an entry for the queried name. */
  predicate Owned(table: Table, query: Bytes, lossy: Lossy) {
    |query| >= 12 && DecodeName(query, 12, 0).Some? &&
    TableName(DecodeName(query, 12, 0).value.labels, lossy) in table
  }

  /** `packet` is our authoritative answer to the query `request` carries, sent back to its sender. */
  predicate AnswersQuery(packet: Bytes, request: Bytes, table: Table, query: Bytes, lossy: Lossy)
    requires Framed(request) && WellFormedQuery(query)
  {
    var d := DecodeDatagram(packet);
    d.Some? && d.value == Reply(request, d.value.payload) &&
    DecodeMessage(d.value.payload) == Some(ExpectedResponse(table, query, lossy))
  }

  /** What must happen to an intercepted query; silence is for malformed ones only. */
  predicate QueryHandled(a: Action, pkt: Bytes, responder: Responder, query: Bytes, lossy: Lossy)
    requires Framed(pkt)
  {
    if responder.forward && !Owned(responder.table, query, lossy) then a == Forward(pkt, query)
    else if WellFormedQuery(query) then a.WriteTun? && AnswersQuery(a.packet, pkt, responder.table, query, lossy)
    else a == Drop
  }

  /** Answering from the table: `respond`, then `build_dns_reply`. */
  method AnswerLocally(pkt: Bytes, responder: Responder, query: Bytes, lossy: Lossy) returns (a: Action)
    requires |pkt| <= MTU && DnsQueryPayload(pkt, responder.selfIp) == Some(query) && Framed(pkt)
    ensures if WellFormedQuery(query) then a.WriteTun? && AnswersQuery(a.packet, pkt, responder.table, query, lossy)
            else a == Drop
  {
    hide DecodeDatagram, DecodeMessage, ExpectedResponse, WellFormedQuery;
    var answer := Respond(responder.table, query, lossy);
    if answer.None? {
      return Drop;
    }
    var reply := BuildDnsReply(pkt, answer.value);
    if reply.None? {
      return Drop;
    }
    a := WriteTun(reply.value);
  }

  /**
    The packet decision. A DNS query for our own address never reaches a peer, and is answered
    end to end; a packet to ourselves is handed back unchanged; any other goes to the entry that
    owns its destination.
   */
  method Decide(pkt: Bytes, dns: Option<Responder>, selfOverlay: IpAddr, overlays: seq<IpAddr>, lossy: Lossy)
    returns (a: Action)
    ensures |pkt| > 1420 ==> a == Drop
    ensures |pkt| <= 1420 && dns.Some? && DnsQueryPayload(pkt, dns.value.selfIp).Some? ==>
              Framed(pkt) && OurAddr(pkt) == dns.value.selfIp &&
              QueryHandled(a, pkt, dns.value, DnsQueryPayload(pkt, dns.value.selfIp).value, lossy)
    ensures |pkt| <= 1420 && (dns.None? || DnsQueryPayload(pkt, dns.value.selfIp).None?) ==>
              match PacketDst(pkt)
              case None => a == Drop
              case Some(dst) =>
                if dst == selfOverlay then a == WriteTun(pkt)
                else if dst !in overlays then a == Drop
                else a.ToPeer? && a.peer < |overlays| && overlays[a.peer] == dst && dst !in overlays[..a.peer]
  {
    hide DnsQueryPayload, WellFormedQuery, AnswersQuery, OurAddr;
    if |pkt| > MTU {
      return Drop;
    }
    if dns.Some? {
      var responder := dns.value;
      var query := DnsQueryPayload(pkt, responder.selfIp);
      if query.Some? {
        RecognisedQueriesCanBeAnswered(pkt, responder.selfIp);
        var name := QueryName(query.value, lossy);
        var owned := name.Some? && name.value in responder.table;
        if !owned && responder.forward {
          return Forward(pkt, query.value);
        }
        a := AnswerLocally(pkt, responder, query.value, lossy);
        return;
      }
    }
    var dst := PacketDst(pkt);
    if dst.None? {
      return Drop;
    }
    if dst.value == selfOverlay {
      return WriteTun(pkt);
    }
    var entry := PeerByOverlay(overlays, dst.value);
    a := if entry.None? then Drop else ToPeer(entry.value);
  }
}
