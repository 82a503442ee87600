/**
  Raw IP/UDP framing of crates/agent-core/src/dns.rs: recognising a DNS query addressed to this
  node and wrapping the answer. The reference is a datagram decoder written from section 3.1 of
  RFC 791, RFC 768 and sections 3 and 8.1 of RFC 8200, which accepts a packet only when every
  length field equals the real length and the mandatory checksums verify.
 */
module IpFraming {
  import opened Octets
  import opened Checksum

  const UDP_PORT_DNS := 53
  const IPPROTO_UDP := 17

  datatype Datagram = Datagram(src: IpAddr, dst: IpAddr, srcPort: nat, dstPort: nat, payload: Bytes)

  // ----- the reference decoder

  /** A whole UDP segment: its length field is its length. */
  predicate WholeUdp(udp: Bytes) {
    |udp| >= 8 && BE16(udp[4], udp[5]) == |udp|
  }

  /** RFC 768: source, destination, a zero, the protocol and the UDP length. */
  function PseudoHeader4(src: Octets4, dst: Octets4, length: nat): Bytes {
    src + dst + [0, 17] + U16(length)
  }

  function DecodeV4(p: Bytes): Option<Datagram> {
    if |p| < 20 then None
    else
      var ihl := p[0] % 16 * 4;
      if p[0] / 16 != 4 || ihl < 20 || |p| < ihl || BE16(p[2], p[3]) != |p| then None
      else if BE16(p[6], p[7]) % 0x4000 != 0 || p[9] != 17 || !Verifies(p[..ihl]) then None
      else
        var src: Octets4, dst: Octets4, udp := p[12..16], p[16..20], p[ihl..];
        if !WholeUdp(udp) then None
        else if BE16(udp[6], udp[7]) != 0 && !Verifies(PseudoHeader4(src, dst, |udp|) + udp) then None
        else Some(Datagram(V4(src), V4(dst), BE16(udp[0], udp[1]), BE16(udp[2], udp[3]), udp[8..]))
  }

  function DecodeV6(p: Bytes): Option<Datagram> {
    if |p| < 48 || p[0] / 16 != 6 || BE16(p[4], p[5]) != |p| - 40 || p[6] != 17 then None
    else
      var src: Octets16, dst: Octets16, udp := p[8..24], p[24..40], p[40..];
      if !WholeUdp(udp) || BE16(udp[6], udp[7]) == 0 then None
      else if !Verifies(PseudoHeader6(src, dst, |udp|) + udp) then None
      else Some(Datagram(V6(src), V6(dst), BE16(udp[0], udp[1]), BE16(udp[2], udp[3]), udp[8..]))
  }

  /** Unfragmented; the UDP checksum verifies, or is absent, which RFC 768 allows over IPv4 only. */
  function DecodeDatagram(p: Bytes): Option<Datagram> {
    if |p| == 0 then None else if p[0] / 16 == 4 then DecodeV4(p) else DecodeV6(p)
  }

  // ----- recognising a query

  function UdpPayloadIfDns(udp: Bytes): Option<Bytes> {
    if |udp| < 8 then None
    else if BE16(udp[2], udp[3]) != UDP_PORT_DNS then None
    else
      var udpLen := BE16(udp[4], udp[5]);
      if udpLen < 8 || |udp| < udpLen then None else Some(udp[8..udpLen])
  }

  function HeaderLength(packet: Bytes): nat
    requires |packet| > 0
  {
    packet[0] % 16 * 4
  }

  function DnsQueryPayload(packet: Bytes, selfIp: IpAddr): (r: Option<Bytes>)
    ensures r.Some? ==> |r.value| + 28 <= |packet|
  {
    if |packet| == 0 then None
    else if packet[0] / 16 == 4 && selfIp.V4? then
      if |packet| < 20 then None
      else
        var ihl := HeaderLength(packet);
        if ihl < 20 || packet[9] != IPPROTO_UDP || |packet| < ihl + 8 then None
        else if packet[16..20] != selfIp.v4 then None
        else UdpPayloadIfDns(packet[ihl..])
    else if packet[0] / 16 == 6 && selfIp.V6? then
      if |packet| < 48 || packet[6] != IPPROTO_UDP then None
      else if packet[24..40] != selfIp.v6 then None
      else UdpPayloadIfDns(packet[40..])
    else None
  }

  /** Every datagram to port 53 of this node is recognised, and its payload is what is answered. */
  lemma QueriesToUsAreRecognised(packet: Bytes, selfIp: IpAddr)
    requires DecodeDatagram(packet).Some?
    requires var d := DecodeDatagram(packet).value; d.dst == selfIp && d.dstPort == 53
    ensures DnsQueryPayload(packet, selfIp) == Some(DecodeDatagram(packet).value.payload)
  {
    var udp := packet[UdpStart(packet)..];
    assert udp[8..] == udp[8..|udp|];
  }

  /** Where a recognised query came from: the address and port its reply must go to. */
  function QuerierAddr(packet: Bytes): IpAddr
    requires Framed(packet)
  {
    if packet[0] / 16 == 4 then V4(packet[12..16]) else V6(packet[8..24])
  }

  predicate Framed(packet: Bytes) {
    |packet| > 0 &&
    if packet[0] / 16 == 4 then HeaderLength(packet) >= 20 && |packet| >= HeaderLength(packet) + 8
    else packet[0] / 16 == 6 && |packet| >= 48 && packet[6] == IPPROTO_UDP
  }

  function UdpStart(packet: Bytes): (u: nat)
    requires Framed(packet)
    ensures 20 <= u && u + 8 <= |packet|
  {
    if packet[0] / 16 == 4 then HeaderLength(packet) else 40
  }

  function QuerierPort(packet: Bytes): nat
    requires Framed(packet)
  {
    var u := UdpStart(packet);
    BE16(packet[u], packet[u + 1])
  }

  function OurAddr(packet: Bytes): IpAddr
    requires Framed(packet)
  {
    if packet[0] / 16 == 4 then V4(packet[16..20]) else V6(packet[24..40])
  }

  /** A reply to a datagram goes back the way it came: its addresses swapped, from port 53 to the port it came from. */
  lemma RepliesGoBack(request: Bytes, answer: Bytes)
    requires DecodeDatagram(request).Some?
    ensures var d := DecodeDatagram(request).value;
            Framed(request) && Reply(request, answer) == Datagram(d.dst, d.src, 53, d.srcPort, answer)
  {
    var u := UdpStart(request);
    var udp := request[u..];
    assert udp[0] == request[u] && udp[1] == request[u + 1];
  }

  /** What is recognised, octet by octet: a UDP segment for port 53 of our address, within the packet. */
  lemma RecognisedExactlyWhen(packet: Bytes, selfIp: IpAddr)
    ensures DnsQueryPayload(packet, selfIp).Some? <==>
            |packet| >= 28 &&
            var u := if packet[0] < 0x50 then packet[0] % 16 * 4 else 40;
            (if selfIp.V4? then 0x45 <= packet[0] < 0x50 && packet[9] == 17 && packet[16..20] == selfIp.v4
             else |packet| >= 48 && 0x60 <= packet[0] < 0x70 && packet[6] == 17 && packet[24..40] == selfIp.v6) &&
            u + 8 <= |packet| && BE16(packet[u + 2], packet[u + 3]) == 53 &&
            8 <= BE16(packet[u + 4], packet[u + 5]) <= |packet| - u
  {
    if |packet| >= 28 {
      var u := if packet[0] < 0x50 then packet[0] % 16 * 4 else 40;
      if u + 8 <= |packet| {
        var udp := packet[u..];
        assert udp[2] == packet[u + 2] && udp[3] == packet[u + 3] && udp[4] == packet[u + 4] && udp[5] == packet[u + 5];
      }
    }
  }

  // ----- the reply, part by part

  function V4Front(total: nat): Bytes {
    [0x45, 0] + U16(total) + [0, 0, 0, 0, 64, IPPROTO_UDP]
  }

  function UdpSegment(port: Bytes, answer: Bytes, checksum: Bytes): Bytes {
    U16(UDP_PORT_DNS) + port + U16(8 + |answer|) + checksum + answer
  }

  function V4Reply(src: Octets4, dst: Octets4, port: Bytes, answer: Bytes, c: nat): Bytes {
    V4Front(28 + |answer|) + U16(c) + (src + dst) + UdpSegment(port, answer, [0, 0])
  }

  function V6Front(src: Octets16, dst: Octets16, length: nat): Bytes {
    [0x60, 0, 0, 0] + U16(length) + [IPPROTO_UDP, 64] + src + dst
  }

  /** A packet with a plain verified header and a UDP segment without checksum is read as what these say. */
  lemma PlainV4Decodes(p: Bytes, udp: Bytes)
    requires |p| >= 28 && p[0] == 0x45 && p[6] == 0 && p[7] == 0 && p[9] == IPPROTO_UDP && p[20..] == udp
    ensures BE16(p[2], p[3]) != |p| ==> DecodeDatagram(p) == None
    ensures BE16(p[2], p[3]) == |p| && Verifies(p[..20]) && WholeUdp(udp) && udp[6] == udp[7] == 0 ==>
              DecodeDatagram(p) == Some(Datagram(V4(p[12..16]), V4(p[16..20]), BE16(udp[0], udp[1]),
                                                 BE16(udp[2], udp[3]), udp[8..]))
  {
    hide Verifies, PseudoHeader4, WholeUdp;
  }

  lemma V4ReplyDecodes(src: Octets4, dst: Octets4, port: Bytes, answer: Bytes, c: nat)
    requires |port| == 2 && c == ONES - OnesSum(V4Front(28 + |answer|) + [0, 0] + (src + dst))
    ensures var d := DecodeDatagram(V4Reply(src, dst, port, answer, c));
            if 28 + |answer| < WORD
            then d == Some(Datagram(V4(src), V4(dst), UDP_PORT_DNS, BE16(port[0], port[1]), answer))
            else d == None
  {
    hide U16, OnesSum, DecodeDatagram, Verifies, WholeUdp;
    var p, udp := V4Reply(src, dst, port, answer, c), UdpSegment(port, answer, [0, 0]);
    assert p[2] == U16(28 + |answer|)[0] && p[3] == U16(28 + |answer|)[1];
    assert p[..20] == V4Front(28 + |answer|) + U16(c) + (src + dst) && p[20..] == udp;
    assert p[12..16] == src && p[16..20] == dst;
    assert |p| == 28 + |answer|;
    PlainV4Decodes(p, udp);
    hide V4Reply, V4Front, UdpSegment;
    if 28 + |answer| < WORD {
      StoredChecksumVerifies(V4Front(28 + |answer|), U16(c), src + dst);
      UdpSegmentFields(port, answer, [0, 0]);
    }
  }

  lemma UdpSegmentFields(port: Bytes, answer: Bytes, checksum: Bytes)
    requires |port| == 2 && |checksum| == 2 && 8 + |answer| < WORD
    ensures var udp := UdpSegment(port, answer, checksum);
            WholeUdp(udp) && udp[8..] == answer && udp[6] == checksum[0] && udp[7] == checksum[1] &&
            BE16(udp[0], udp[1]) == UDP_PORT_DNS && udp[2] == port[0] && udp[3] == port[1]
  {
    hide U16;
    var udp := UdpSegment(port, answer, checksum);
    assert udp[4] == U16(8 + |answer|)[0] && udp[5] == U16(8 + |answer|)[1];
  }

  lemma V6ReplyDecodes(src: Octets16, dst: Octets16, port: Bytes, answer: Bytes, c: nat)
    requires |port| == 2 && 0 < c <= ONES
    requires 8 + |answer| <= ONES ==>
               var s := OnesSum(PseudoHeader6(src, dst, 8 + |answer|) + UdpSegment(port, answer, [0, 0]));
               c == if s == ONES then ONES else ONES - s
    ensures var d := DecodeDatagram(V6Front(src, dst, 8 + |answer|) + UdpSegment(port, answer, U16(c)));
            if 8 + |answer| < WORD
            then d == Some(Datagram(V6(src), V6(dst), UDP_PORT_DNS, BE16(port[0], port[1]), answer))
            else d == None
  {
    hide U16, OnesSum;
    var p := V6Front(src, dst, 8 + |answer|) + UdpSegment(port, answer, U16(c));
    assert BE16(p[4], p[5]) == (8 + |answer|) % 0x1_0000;
    if 8 + |answer| < WORD {
      var udp := p[40..];
      assert udp == UdpSegment(port, answer, U16(c));
      UdpSegmentFields(port, answer, U16(c));
      assert p[8..24] == src && p[24..40] == dst;
      var front := PseudoHeader6(src, dst, |udp|) + (U16(UDP_PORT_DNS) + port + U16(|udp|));
      assert PseudoHeader6(src, dst, |udp|) + udp == front + U16(c) + answer;
      assert PseudoHeader6(src, dst, |udp|) + UdpSegment(port, answer, [0, 0]) == front + [0, 0] + answer;
      StoredChecksumVerifies(front, U16(c), answer);
    }
  }

  // ----- the builders

  method CopyInto(pkt: array<Byte>, at: nat, src: Bytes)
    requires at + |src| <= pkt.Length
    modifies pkt
    ensures pkt[..] == Splice(old(pkt[..]), at, src)
  {
    forall i | 0 <= i < |src| {
      pkt[at + i] := src[i];
    }
  }

  /** What the reply to `request` carrying `answer` decodes to. */
  function Reply(request: Bytes, answer: Bytes): Datagram
    requires Framed(request)
  {
    Datagram(OurAddr(request), QuerierAddr(request), 53, QuerierPort(request), answer)
  }

  /** The IPv4 header of the reply but for its checksum. */
  method FillFieldsV4(pkt: array<Byte>, src: Octets4, dst: Octets4)
    requires pkt.Length >= 28 && forall i :: 0 <= i < 20 ==> pkt[i] == 0
    modifies pkt
    ensures pkt[..20] == V4Front(pkt.Length) + [0, 0] + (src + dst)
    ensures forall i :: 20 <= i < pkt.Length ==> pkt[i] == old(pkt[i])
  {
    hide U16, Splice;
    pkt[0] := 0x45;
    CopyInto(pkt, 2, U16(pkt.Length));
    pkt[8] := 64;
    pkt[9] := IPPROTO_UDP;
    CopyInto(pkt, 12, src);
    CopyInto(pkt, 16, dst);
  }

  /** The IPv4 header of the reply, checksummed while its checksum field is still zero. */
  method FillHeaderV4(pkt: array<Byte>, src: Octets4, dst: Octets4) returns (ghost c: nat)
    requires pkt.Length >= 28 && forall i :: 0 <= i < 20 ==> pkt[i] == 0
    modifies pkt
    ensures c == ONES - OnesSum(V4Front(pkt.Length) + [0, 0] + (src + dst))
    ensures pkt[..20] == V4Front(pkt.Length) + U16(c) + (src + dst)
    ensures forall i :: 20 <= i < pkt.Length ==> pkt[i] == old(pkt[i])
  {
    hide U16, OnesSum, Splice;
    FillFieldsV4(pkt, src, dst);
    ghost var fields := pkt[..20];
    var cksum := IpChecksum(pkt[..20]);
    assert fields[..20] == fields;
    CopyInto(pkt, 10, U16(cksum));
    c := cksum;
    assert pkt[..10] == fields[..10] == V4Front(pkt.Length);
    assert pkt[12..20] == fields[12..] == src + dst;
  }

  /** The UDP header, its checksum field left zero, and the answer behind it. */
  method FillUdp(pkt: array<Byte>, at: nat, port: Bytes, answer: Bytes)
    requires |port| == 2 && pkt.Length == at + 8 + |answer| && pkt[at + 6] == 0 && pkt[at + 7] == 0
    modifies pkt
    ensures pkt[..at] == old(pkt[..at])
    ensures pkt[at..] == UdpSegment(port, answer, [0, 0])
  {
    hide U16, Splice;
    CopyInto(pkt, at, U16(UDP_PORT_DNS));
    CopyInto(pkt, at + 2, port);
    CopyInto(pkt, at + 4, U16(8 + |answer|));
    CopyInto(pkt, at + 8, answer);
  }

  method BuildReplyV4(request: Bytes, answer: Bytes) returns (r: Option<Bytes>)
    requires |request| > 0 && request[0] / 16 == 4
    ensures r.Some? <==> Framed(request)
    ensures r.Some? ==> |r.value| == 28 + |answer|
    ensures r.Some? ==> DecodeDatagram(r.value) == if |answer| <= 65507 then Some(Reply(request, answer)) else None
  {
    hide U16, DecodeDatagram, OnesSum, Splice, PseudoHeader6;
    var ihl := request[0] % 16 * 4;
    if ihl < 20 || |request| < ihl + 8 {
      return None;
    }
    var origSrc, origDst := request[12..16], request[16..20];
    var origSrcPort := [request[ihl], request[ihl + 1]];
    var pkt := new Byte[28 + |answer|](_ => 0);
    ghost var c := FillHeaderV4(pkt, origDst, origSrc);
    FillUdp(pkt, 20, origSrcPort, answer);
    assert pkt[..] == pkt[..20] + pkt[20..] == V4Reply(origDst, origSrc, origSrcPort, answer, c);
    V4ReplyDecodes(origDst, origSrc, origSrcPort, answer, c);
    r := Some(pkt[..]);
  }

  method FillHeaderV6(pkt: array<Byte>, src: Octets16, dst: Octets16, udpLen: nat)
    requires pkt.Length >= 40 && forall i :: 0 <= i < 40 ==> pkt[i] == 0
    modifies pkt
    ensures pkt[..40] == V6Front(src, dst, udpLen)
    ensures forall i :: 40 <= i < pkt.Length ==> pkt[i] == old(pkt[i])
  {
    hide U16, Splice;
    pkt[0] := 0x60;
    CopyInto(pkt, 4, U16(udpLen));
    pkt[6] := IPPROTO_UDP;
    pkt[7] := 64;
    CopyInto(pkt, 8, src);
    CopyInto(pkt, 24, dst);
  }

  method BuildReplyV6(request: Bytes, answer: Bytes) returns (r: Option<Bytes>)
    requires |request| > 0 && request[0] / 16 == 6
    ensures r.Some? <==> Framed(request)
    ensures r.Some? ==> |r.value| == 48 + |answer|
    ensures r.Some? ==> DecodeDatagram(r.value) == if |answer| <= 65527 then Some(Reply(request, answer)) else None
  {
    hide U16, DecodeDatagram, OnesSum, Splice, PseudoHeader6;
    if |request| < 48 || request[6] != IPPROTO_UDP {
      return None;
    }
    var origSrc, origDst := request[8..24], request[24..40];
    var origSrcPort := [request[40], request[41]];
    var pkt := new Byte[48 + |answer|](_ => 0);
    FillHeaderV6(pkt, origDst, origSrc, 8 + |answer|);
    FillUdp(pkt, 40, origSrcPort, answer);
    var cksum := Udp6Checksum(origDst, origSrc, pkt[40..]);
    CopyInto(pkt, 46, U16(cksum));
    assert pkt[40..] == UdpSegment(origSrcPort, answer, U16(cksum));
    assert pkt[..40] == V6Front(origDst, origSrc, 8 + |answer|);
    assert pkt[..] == pkt[..40] + pkt[40..];
    V6ReplyDecodes(origDst, origSrc, origSrcPort, answer, cksum);
    r := Some(pkt[..]);
  }

  /**
    `build_dns_reply`. For the family's largest answer or less, the reply is a well-formed
    datagram from (our address, 53) to the querier carrying exactly `answer`; for a longer
    answer the truncated length field makes it undecodable.
   */
  method BuildDnsReply(request: Bytes, answer: Bytes) returns (r: Option<Bytes>)
    ensures r.Some? <==> Framed(request)
    ensures r.Some? ==> DecodeDatagram(r.value) ==
                        if |answer| <= LargestAnswer(request) then Some(Reply(request, answer)) else None
  {
    if |request| == 0 {
      return None;
    }
    match request[0] / 16 {
      case 4 => r := BuildReplyV4(request, answer);
      case 6 => r := BuildReplyV6(request, answer);
      case _ => return None;
    }
  }

  function LargestAnswer(request: Bytes): nat
    requires |request| > 0
  {
    if request[0] / 16 == 4 then 65507 else 65527
  }

  /** An answer one octet too long, to any query: a reply is built, and nobody can read it. */
  method UnreadableReply(request: Bytes) returns (r: Option<Bytes>)
    requires Framed(request)
    ensures r.Some? && DecodeDatagram(r.value) == None
  {
    hide DecodeDatagram;
    r := BuildDnsReply(request, seq(LargestAnswer(request) + 1, _ => 0));
  }

  /**
    A recognised query is a UDP payload to port 53 of this node, found whole in the packet; its
    reply can always be framed, and comes from the address it was sent to.
   */
  lemma RecognisedQueriesCanBeAnswered(packet: Bytes, selfIp: IpAddr)
    requires DnsQueryPayload(packet, selfIp).Some?
    ensures Framed(packet) && OurAddr(packet) == selfIp
    ensures var u, q := UdpStart(packet), DnsQueryPayload(packet, selfIp).value;
            BE16(packet[u + 2], packet[u + 3]) == 53 && BE16(packet[u + 4], packet[u + 5]) == 8 + |q| &&
            u + 8 + |q| <= |packet| && q == packet[u + 8..u + 8 + |q|]
  {
    var u := UdpStart(packet);
    var udp, q := packet[u..], DnsQueryPayload(packet, selfIp).value;
    assert udp[2] == packet[u + 2] && udp[3] == packet[u + 3] && udp[4] == packet[u + 4] && udp[5] == packet[u + 5];
    assert UdpPayloadIfDns(udp) == Some(q);
    assert udp[8..8 + |q|] == packet[u + 8..u + 8 + |q|];
  }
}
