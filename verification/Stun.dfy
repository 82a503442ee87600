/**
  The STUN client of crates/agent-core/src/stun.rs against an encoder written from sections 6, 15
  and 15.2 of RFC 5389. Octets are bit-vectors here, since the address travels XOR-ed.
 */
module Stun {
  import opened Octets

  type Octet = bv8
  type Packet = seq<Octet>
  type TxId = t: Packet | |t| == 12 witness [0, 0, 0, 0, 0, 0, 0, 0, 0, 0, 0, 0]

  const COOKIE_BE: Packet := [0x21, 0x12, 0xA4, 0x42]
  const COOKIE_TOP: bv16 := 0x2112
  const XOR_MAPPED_ADDRESS := 0x0020

  /** A transport address; the octets are four for IPv4 and sixteen for IPv6. */
  datatype SocketAddr = SocketAddr(ip: Packet, port: bv16)

  function Len16(hi: Octet, lo: Octet): (n: nat)
    ensures n < 0x1_0000
  {
    hi as int * 256 + lo as int
  }

  function PortOf(hi: Octet, lo: Octet): bv16 {
    ((hi as bv16) << 8) | (lo as bv16)
  }

  function PortBytes(port: bv16): (p: Packet)
    ensures |p| == 2 && PortOf(p[0], p[1]) == port
  {
    [(port >> 8) as bv8, (port & 0xFF) as bv8]
  }

  /** XOR of two strings of equal length, octet by octet. */
  function Xor(a: Packet, key: Packet): (r: Packet)
    requires |a| <= |key|
    ensures |r| == |a| && forall i :: 0 <= i < |a| ==> r[i] == a[i] ^ key[i]
  {
    seq(|a|, i requires 0 <= i < |a| => a[i] ^ key[i])
  }

  lemma XorTwice(a: Packet, key: Packet)
    requires |a| <= |key|
    ensures Xor(Xor(a, key), key) == a
  {
    forall i | 0 <= i < |a|
      ensures (a[i] ^ key[i]) ^ key[i] == a[i]
    {
    }
  }

  // ----- the reference: RFC 5389 messages

  /** An attribute as it stands in a message. */
  datatype Attribute = Attribute(atype: Packet, length: Packet, value: Packet, padding: Packet)

  /** Section 15: values are padded to whole four-octet words, which the length does not count. */
  function PaddedWords(n: nat): (w: nat)
    ensures n <= 4 * w < n + 4
  {
    (n + 3) / 4
  }

  predicate ValidAttribute(a: Attribute) {
    |a.atype| == 2 && |a.length| == 2 && Len16(a.length[0], a.length[1]) == |a.value| &&
    |a.value| + |a.padding| == 4 * PaddedWords(|a.value|)
  }

  predicate HasType(a: Attribute, atype: nat)
    requires ValidAttribute(a)
  {
    Len16(a.atype[0], a.atype[1]) == atype
  }

  function EncodeAttribute(a: Attribute): Packet {
    a.atype + a.length + a.value + a.padding
  }

  function EncodeAttributes(attrs: seq<Attribute>): Packet {
    if attrs == [] then [] else EncodeAttribute(attrs[0]) + EncodeAttributes(attrs[1..])
  }

  predicate ValidAddr(addr: SocketAddr) {
    |addr.ip| == 4 || |addr.ip| == 16
  }

  /** Section 15.2: the cookie, and for IPv6 the transaction id behind it. */
  function AddrKey(txid: TxId): (k: Packet)
    ensures |k| == 16
  {
    COOKIE_BE + txid
  }

  /** Section 15.2: a zero octet, the family, the port and the address, both XOR-ed. */
  function XorMappedValue(addr: SocketAddr, txid: TxId): (v: Packet)
    requires ValidAddr(addr)
    ensures |v| == 4 + |addr.ip|
  {
    [0, if |addr.ip| == 4 then 0x01 else 0x02] + PortBytes(addr.port ^ COOKIE_TOP) + Xor(addr.ip, AddrKey(txid))
  }

  /** The attribute that carries the address: no padding is ever needed. */
  function XorMapped(addr: SocketAddr, txid: TxId): Attribute
    requires ValidAddr(addr)
  {
    Attribute([0x00, 0x20], [0x00, if |addr.ip| == 4 then 0x08 else 0x14], XorMappedValue(addr, txid), [])
  }

  /** Section 6: success response, message length, cookie, transaction id. */
  function SuccessHeader(length: Packet, txid: TxId): Packet
    requires |length| == 2
  {
    [0x01, 0x01] + length + [0x21, 0x12, 0xA4, 0x42] + txid
  }

  // ----- the client

  /** `is_stun`. */
  predicate IsStun(pkt: Packet) {
    |pkt| >= 20 && (pkt[0] & 0xC0) == 0 && pkt[1] == 0x01 && pkt[4..8] == COOKIE_BE
  }

  /** `binding_request`. */
  method BindingRequest(txid: TxId) returns (m: Packet)
    ensures m == [0x00, 0x01, 0x00, 0x00, 0x21, 0x12, 0xA4, 0x42] + txid && |m| == 20 && IsStun(m)
  {
    m := [0x00, 0x01];
    m := m + [0x00, 0x00];
    m := m + COOKIE_BE;
    m := m + txid;
    assert m[4..8] == COOKIE_BE;
  }

  /** `decode_xor_mapped`. */
  method DecodeXorMapped(val: Packet, txid: TxId) returns (r: Option<SocketAddr>)
    ensures r == MappedAddress(val, txid)
  {
    hide PortOf;
    if |val| < 8 {
      return None;
    }
    var port := PortOf(val[2], val[3]) ^ COOKIE_TOP;
    if val[1] == 0x01 {
      var a := new Octet[4](_ => 0);
      for j := 0 to 4
        invariant forall i :: 0 <= i < j ==> a[i] == val[4 + i] ^ COOKIE_BE[i]
      {
        a[j] := val[4 + j] ^ COOKIE_BE[j];
      }
      assert a[..] == Xor(val[4..8], AddrKey(txid));
      return Some(SocketAddr(a[..], port));
    }
    if val[1] == 0x02 && |val| >= 20 {
      var key := COOKIE_BE + txid;
      var a := new Octet[16](_ => 0);
      for j := 0 to 16
        invariant forall i :: 0 <= i < j ==> a[i] == val[4 + i] ^ key[i]
      {
        a[j] := val[4 + j] ^ key[j];
      }
      assert a[..] == Xor(val[4..20], AddrKey(txid));
      return Some(SocketAddr(a[..], port));
    }
    r := None;
  }

  /** The address an attribute value stands for; octets beyond the family's size are ignored. */
  function MappedAddress(val: Packet, txid: TxId): Option<SocketAddr> {
    var size := if |val| < 8 then 0 else if val[1] == 0x01 then 4 else if val[1] == 0x02 && |val| >= 20 then 16 else 0;
    if size == 0 then None
    else Some(SocketAddr(Xor(val[4..4 + size], AddrKey(txid)), PortOf(val[2], val[3]) ^ COOKIE_TOP))
  }

  lemma XorMappedFields(addr: SocketAddr, txid: TxId)
    requires ValidAddr(addr)
    ensures var v, n := XorMappedValue(addr, txid), |addr.ip|;
            v[1] == (if n == 4 then 0x01 else 0x02) && v[4..4 + n] == Xor(addr.ip, AddrKey(txid)) &&
            PortOf(v[2], v[3]) == addr.port ^ COOKIE_TOP
  {
    hide PortOf, PortBytes, Xor, AddrKey;
    var v, n := XorMappedValue(addr, txid), |addr.ip|;
    var port := PortBytes(addr.port ^ COOKIE_TOP);
    assert v[2] == port[0] && v[3] == port[1];
    assert v[4..4 + n] == Xor(addr.ip, AddrKey(txid));
  }

  /** The encoder's value is read back, for both families. */
  lemma MappedAddressRoundTrip(addr: SocketAddr, txid: TxId)
    requires ValidAddr(addr)
    ensures MappedAddress(XorMappedValue(addr, txid), txid) == Some(addr)
  {
    hide PortOf, Xor, AddrKey, XorMappedValue;
    XorMappedFields(addr, txid);
    XorTwice(addr.ip, AddrKey(txid));
    PortTwice(addr.port);
  }

  lemma PortTwice(port: bv16)
    ensures (port ^ COOKIE_TOP) ^ COOKIE_TOP == port
  {
  }

  /** The first attribute at or after `i` that carries the address decides; a cut one ends the walk. */
  function Walk(pkt: Packet, i: nat, txid: TxId): Option<SocketAddr>
    decreases |pkt| - i
  {
    if i + 4 > |pkt| then None
    else
      var alen := Len16(pkt[i + 2], pkt[i + 3]);
      if i + 4 + alen > |pkt| then None
      else if Len16(pkt[i], pkt[i + 1]) == 0x0020 then MappedAddress(pkt[i + 4..i + 4 + alen], txid)
      else Walk(pkt, i + 4 + 4 * PaddedWords(alen), txid)
  }

  /** A success response to `txid`. */
  predicate Answers(pkt: Packet, txid: TxId) {
    |pkt| >= 20 && Len16(pkt[0], pkt[1]) == 0x0101 && pkt[4..8] == [0x21, 0x12, 0xA4, 0x42] && pkt[8..20] == txid
  }

  /** `parse_binding_response`: in bounds and terminating on every octet string. */
  method ParseBindingResponse(pkt: Packet, txid: TxId) returns (r: Option<SocketAddr>)
    ensures r == if Answers(pkt, txid) then Walk(pkt, 20, txid) else None
  {
    hide Len16, PaddedWords, MappedAddress;
    if |pkt| < 20 || Len16(pkt[0], pkt[1]) != 0x0101 || pkt[4..8] != COOKIE_BE || pkt[8..20] != txid {
      return None;
    }
    var i := 20;
    while i + 4 <= |pkt|
      invariant 20 <= i && Walk(pkt, i, txid) == Walk(pkt, 20, txid)
      decreases |pkt| - i
    {
      var atype := Len16(pkt[i], pkt[i + 1]);
      var alen := Len16(pkt[i + 2], pkt[i + 3]);
      if i + 4 + alen > |pkt| {
        return None;
      }
      if atype == XOR_MAPPED_ADDRESS {
        r := DecodeXorMapped(pkt[i + 4..i + 4 + alen], txid);
        return;
      }
      i := i + (4 + 4 * PaddedWords(alen));
    }
    r := None;
  }

  // ----- round trip and soundness

  /** Any attributes of other types in front are stepped over. */
  lemma {:induction false} WalkSkips(front: Packet, attrs: seq<Attribute>, tail: Packet, txid: TxId)
    requires forall a :: a in attrs ==> ValidAttribute(a) && !HasType(a, XOR_MAPPED_ADDRESS)
    ensures var code := EncodeAttributes(attrs);
            Walk(front + code + tail, |front|, txid) == Walk(front + code + tail, |front| + |code|, txid)
    decreases |attrs|
  {
    hide EncodeAttribute, Walk, ValidAttribute, HasType;
    if attrs == [] {
      assert EncodeAttributes(attrs) == [];
    } else {
      var first, rest := EncodeAttribute(attrs[0]), EncodeAttributes(attrs[1..]);
      var pkt := front + EncodeAttributes(attrs) + tail;
      assert pkt == front + first + (rest + tail);
      assert pkt == (front + first) + rest + tail;
      WalkSkipsOne(front, attrs[0], rest + tail, txid);
      WalkSkips(front + first, attrs[1..], tail, txid);
    }
  }

  lemma WalkSkipsOne(front: Packet, a: Attribute, tail: Packet, txid: TxId)
    requires ValidAttribute(a) && !HasType(a, XOR_MAPPED_ADDRESS)
    ensures var code := EncodeAttribute(a);
            Walk(front + code + tail, |front|, txid) == Walk(front + code + tail, |front| + |code|, txid)
  {
    hide Len16, PaddedWords;
    var code, i := EncodeAttribute(a), |front|;
    var pkt := front + code + tail;
    assert pkt[i] == code[0] == a.atype[0] && pkt[i + 1] == code[1] == a.atype[1];
    assert pkt[i + 2] == code[2] == a.length[0] && pkt[i + 3] == code[3] == a.length[1];
  }

  lemma WalkFinds(front: Packet, addr: SocketAddr, tail: Packet, txid: TxId)
    requires ValidAddr(addr)
    ensures Walk(front + EncodeAttribute(XorMapped(addr, txid)) + tail, |front|, txid) == Some(addr)
  {
    hide PaddedWords, XorMappedValue, MappedAddress;
    var v, code, i := XorMappedValue(addr, txid), EncodeAttribute(XorMapped(addr, txid)), |front|;
    var pkt := front + code + tail;
    assert pkt[i] == code[0] == 0x00 && pkt[i + 1] == code[1] == 0x20;
    assert pkt[i + 2] == code[2] == 0x00 && pkt[i + 3] == code[3] == if |addr.ip| == 4 then 0x08 else 0x14;
    assert Len16(pkt[i + 2], pkt[i + 3]) == |v|;
    assert pkt[i + 4..i + 4 + |v|] == v;
    MappedAddressRoundTrip(addr, txid);
  }

  /**
    The round trip: a success response with any other attributes in front and anything behind
    gives back the address it was made for, to whoever holds its transaction id, and to no other.
   */
  lemma ResponseRoundTrip(txid: TxId, asked: TxId, length: Packet, attrs: seq<Attribute>, addr: SocketAddr,
                          tail: Packet)
    requires |length| == 2 && ValidAddr(addr)
    requires forall a :: a in attrs ==> ValidAttribute(a) && !HasType(a, XOR_MAPPED_ADDRESS)
    ensures ValidAttribute(XorMapped(addr, txid)) && HasType(XorMapped(addr, txid), XOR_MAPPED_ADDRESS)
    ensures var mapped := EncodeAttribute(XorMapped(addr, txid));
            var pkt := SuccessHeader(length, txid) + EncodeAttributes(attrs) + mapped + tail;
            IsStun(pkt) && (Answers(pkt, asked) <==> asked == txid) && Walk(pkt, 20, txid) == Some(addr)
  {
    hide Walk, IsStun, Answers, EncodeAttribute, EncodeAttributes, XorMappedValue, SuccessHeader;
    var header, code := SuccessHeader(length, txid), EncodeAttributes(attrs);
    var mapped := EncodeAttribute(XorMapped(addr, txid));
    var pkt := header + code + mapped + tail;
    assert pkt == header + code + (mapped + tail);
    WalkSkips(header, attrs, mapped + tail, txid);
    WalkFinds(header + code, addr, tail, txid);
    assert pkt == header + (code + mapped + tail);
    HeaderAnswers(length, txid, asked, code + mapped + tail);
  }

  lemma HeaderAnswers(length: Packet, txid: TxId, asked: TxId, body: Packet)
    requires |length| == 2
    ensures var pkt := SuccessHeader(length, txid) + body;
            |SuccessHeader(length, txid)| == 20 && IsStun(pkt) && (Answers(pkt, asked) <==> asked == txid)
  {
    var pkt := SuccessHeader(length, txid) + body;
    assert pkt[4..8] == COOKIE_BE && pkt[8..20] == txid;
    assert pkt[0] == 0x01 && pkt[1] == 0x01;
  }

  /**
    Soundness: an address is only ever read from an XOR-MAPPED-ADDRESS attribute that lies whole
    within the packet, `words` four-octet words behind the first attribute.
   */
  lemma {:induction false} WalkIsSound(pkt: Packet, i: nat, txid: TxId) returns (words: nat)
    requires Walk(pkt, i, txid).Some?
    ensures var k := i + 4 * words;
            k + 4 <= |pkt| && Len16(pkt[k], pkt[k + 1]) == XOR_MAPPED_ADDRESS &&
            var end := k + 4 + Len16(pkt[k + 2], pkt[k + 3]);
            end <= |pkt| && Walk(pkt, i, txid) == MappedAddress(pkt[k + 4..end], txid)
    decreases |pkt| - i
  {
    hide Len16, MappedAddress, PaddedWords;
    if Len16(pkt[i], pkt[i + 1]) == XOR_MAPPED_ADDRESS {
      words := 0;
    } else {
      var w := PaddedWords(Len16(pkt[i + 2], pkt[i + 3]));
      var more := WalkIsSound(pkt, i + 4 + 4 * w, txid);
      words := 1 + w + more;
    }
  }

  /** Twenty octets at least, the type's top bits clear, a Binding method and the cookie of RFC 5389 section 6. */
  lemma StunMeans(pkt: Packet)
    ensures IsStun(pkt) <==>
            |pkt| >= 20 && pkt[0] < 0x40 && pkt[1] == 0x01 &&
            pkt[4] == 0x21 && pkt[5] == 0x12 && pkt[6] == 0xA4 && pkt[7] == 0x42
  {
    if |pkt| >= 20 {
      assert (pkt[0] & 0xC0) == 0 <==> pkt[0] < 0x40;
      assert pkt[4..8] == [pkt[4], pkt[5], pkt[6], pkt[7]];
    }
  }

  /** The XOR-MAPPED-ADDRESS values of sections 2.2 and 2.3 of RFC 5769, which stand for port 32853. */
  const SAMPLE4: Packet := [0x00, 0x01, 0xA1, 0x47, 0xE1, 0x12, 0xA6, 0x43]
  const SAMPLE6: Packet := [0x00, 0x02, 0xA1, 0x47, 0x01, 0x13, 0xA9, 0xFA, 0xA5, 0xD3, 0xF1, 0x79,
                            0xBC, 0x25, 0xF4, 0xB5, 0xBE, 0xD2, 0xB9, 0xD9]
  const SAMPLE_ID: TxId := [0xB7, 0xE7, 0xA7, 0x01, 0xBC, 0x34, 0xD6, 0x86, 0xFA, 0x87, 0xDF, 0xAE]

  /** The samples are 192.0.2.1 and 2001:db8:1234:5678:11:2233:4455:6677. */
  lemma SampleAddresses()
    ensures MappedAddress(SAMPLE4, SAMPLE_ID) == Some(SocketAddr([192, 0, 2, 1], 32853))
    ensures MappedAddress(SAMPLE6, SAMPLE_ID) ==
            Some(SocketAddr([0x20, 0x01, 0x0D, 0xB8, 0x12, 0x34, 0x56, 0x78, 0x00, 0x11, 0x22, 0x33, 0x44, 0x55, 0x66,
                             0x77], 32853))
  {
    var key := AddrKey(SAMPLE_ID);
    assert PortOf(0xA1, 0x47) ^ COOKIE_TOP == 32853;
    assert Xor(SAMPLE4[4..8], key) == [192, 0, 2, 1];
    assert Xor(SAMPLE6[4..20], key) == [0x20, 0x01, 0x0D, 0xB8, 0x12, 0x34, 0x56, 0x78, 0x00, 0x11, 0x22, 0x33, 0x44,
                                        0x55, 0x66, 0x77];
  }

  /** A WireGuard message: one of the four types, and three zero bytes behind it. */
  predicate IsWireGuard(pkt: Packet) {
    |pkt| >= 4 && 1 <= pkt[0] <= 4 && pkt[1] == 0 && pkt[2] == 0 && pkt[3] == 0
  }

  lemma WireGuardIsNotStun(pkt: Packet)
    ensures IsWireGuard(pkt) ==> !IsStun(pkt)
  {
  }
}
