/**
  Both ends of the SOCKS5 handshake of sections 3, 4 and 6 of RFC 1928: the client half in
  crates/agent-daemon/src/ssh_exec.rs, the server half in crates/agent-daemon/src/netstack.rs.
 */
module Socks5 {
  import opened Octets

  type Port = n: nat | n < 0x1_0000
  datatype Endpoint = Endpoint(ip: IpAddr, port: Port)

  // ----- the messages

  /** Section 3: version, number of methods, methods. */
  function Greeting(methods: Bytes): Bytes
    requires |methods| < 256
  {
    [0x05, |methods|] + methods
  }

  const METHOD_REPLY: Bytes := [0x05, 0x00]

  /** Section 4: version, CONNECT, a reserved byte, address type, address, port. */
  function ConnectRequest(target: Endpoint, rsv: Byte): (r: Bytes)
    ensures |r| >= 10
  {
    [0x05, 0x01, rsv, if target.ip.V4? then 0x01 else 0x04] + AddrOctets(target.ip) + U16(target.port)
  }

  /** Section 6, as the server sends it: success, bound to 0.0.0.0:0. */
  const SUCCESS_REPLY: Bytes := [0x05, 0x00, 0x00, 0x01, 0, 0, 0, 0, 0, 0]

  // ----- streams

  /** One direction of a connection: what was written and not yet read. */
  class ByteStream {
    var data: Bytes

    constructor (data: Bytes)
      ensures this.data == data
    {
      this.data := data;
    }

    /** `read_exact`: fails when the stream ends or stalls first. */
    method ReadExact(n: nat) returns (r: Option<Bytes>)
      modifies this
      ensures r.Some? <==> n <= old(|data|)
      ensures r.Some? ==> |r.value| == n && old(data) == r.value + data
      ensures r.None? ==> data == old(data)
    {
      if |data| < n {
        return None;
      }
      r := Some(data[..n]);
      data := data[n..];
    }

    method WriteAll(b: Bytes)
      modifies this
      ensures data == old(data) + b
    {
      data := data + b;
    }
  }

  // ----- the server half

  /** The greeting: every method list is accepted and answered with "no authentication". */
  method ServerGreeting(from: ByteStream, to: ByteStream) returns (ok: bool, ghost methods: Bytes)
    requires from != to
    modifies from, to
    ensures ok ==> |methods| < 256 && old(from.data) == Greeting(methods) + from.data &&
                   to.data == old(to.data) + [0x05, 0x00]
    ensures !ok ==> to.data == old(to.data) && forall m: Bytes | |m| < 256 :: !(Greeting(m) <= old(from.data))
  {
    ghost var before := from.data;
    methods := [];
    forall m: Bytes
      ensures |m| < 256 && Greeting(m) <= before ==> StartsWithGreeting(before)
    {
      AGreetingStartsIt(m, before);
    }
    hide Greeting;
    var head := from.ReadExact(2);
    if head.None? {
      return false, [];
    }
    if head.value[0] != 0x05 {
      return false, [];
    }
    var body := from.ReadExact(head.value[1]);
    if body.None? {
      return false, [];
    }
    methods := body.value;
    to.WriteAll(METHOD_REPLY);
    ok := true;
    GreetingParts(head.value, methods);
    assert before == head.value + (methods + from.data);
  }

  lemma GreetingParts(head: Bytes, methods: Bytes)
    requires |head| == 2 && head[0] == 0x05 && head[1] == |methods|
    ensures head + methods == Greeting(methods)
  {
  }

  /** The header and the list it announces are all there. */
  predicate StartsWithGreeting(s: Bytes) {
    |s| >= 2 && s[0] == 0x05 && s[1] <= |s| - 2
  }

  lemma AGreetingStartsIt(m: Bytes, s: Bytes)
    ensures |m| < 256 && Greeting(m) <= s ==> StartsWithGreeting(s)
  {
    if |m| < 256 && Greeting(m) <= s {
      assert s[0] == Greeting(m)[0] && s[1] == Greeting(m)[1];
    }
  }

  lemma PrefixOfPrefix(a: Bytes, b: Bytes, c: Bytes)
    ensures a + b <= c ==> a <= c
  {
    if a + b <= c {
      assert c[..|a|] == (a + b)[..|a|] == a;
    }
  }

  /** `read_connect_target`: exactly the CONNECT requests with a literal address are read, whole. */
  method ReadConnectTarget(r: ByteStream) returns (dst: Option<Endpoint>, ghost rsv: Byte)
    modifies r
    ensures dst.Some? ==> old(r.data) == ConnectRequest(dst.value, rsv) + r.data
    ensures dst.None? ==> forall t: Endpoint, v: Byte :: !(ConnectRequest(t, v) <= old(r.data))
  {
    hide U16;
    ghost var before := r.data;
    rsv := 0;
    var hdr := r.ReadExact(4);
    if hdr.None? {
      return None, 0;
    }
    var h := hdr.value;
    assert before[..4] == h;
    if h[0] != 0x05 {
      return None, 0;
    }
    if h[1] != 0x01 {
      return None, 0;
    }
    var ip: IpAddr;
    if h[3] == 0x01 {
      var b := r.ReadExact(4);
      if b.None? {
        return None, 0;
      }
      ip := V4(b.value);
    } else if h[3] == 0x04 {
      var b := r.ReadExact(16);
      if b.None? {
        return None, 0;
      }
      ip := V6(b.value);
    } else {
      return None, 0;
    }
    assert before == h + AddrOctets(ip) + r.data;
    var port := r.ReadExact(2);
    if port.None? {
      return None, 0;
    }
    rsv := h[2];
    dst := Some(Endpoint(ip, BE16(port.value[0], port.value[1])));
    PortBytesAreIts(port.value);
    assert before == h + AddrOctets(ip) + port.value + r.data;
  }

  lemma PortBytesAreIts(b: Bytes)
    requires |b| == 2
    ensures U16(BE16(b[0], b[1])) == b
  {
  }

  method ServerRequest(from: ByteStream, to: ByteStream) returns (dst: Option<Endpoint>, ghost rsv: Byte)
    requires from != to
    modifies from, to
    ensures dst.Some? ==> old(from.data) == ConnectRequest(dst.value, rsv) + from.data &&
                          to.data == old(to.data) + [0x05, 0x00, 0x00, 0x01, 0, 0, 0, 0, 0, 0]
    ensures dst.None? ==> to.data == old(to.data) &&
                          forall t: Endpoint, v: Byte :: !(ConnectRequest(t, v) <= old(from.data))
  {
    dst, rsv := ReadConnectTarget(from);
    if dst.Some? {
      to.WriteAll(SUCCESS_REPLY);
    }
  }

  /**
    `socks5_handshake` on any incoming bytes: it succeeds exactly when they start with a greeting
    and a CONNECT request, has then consumed these and nothing behind them, and names the endpoint
    requested.
   */
  method Socks5Handshake(from: ByteStream, to: ByteStream)
    returns (dst: Option<Endpoint>, ghost methods: Bytes, ghost rsv: Byte)
    requires from != to
    modifies from, to
    ensures dst.Some? ==> |methods| < 256 && dst.value.port < WORD &&
                          old(from.data) == Greeting(methods) + ConnectRequest(dst.value, rsv) + from.data &&
                          to.data == old(to.data) + [0x05, 0x00] + [0x05, 0x00, 0x00, 0x01, 0, 0, 0, 0, 0, 0]
    ensures dst.None? ==> forall m: Bytes, t: Endpoint, v: Byte | |m| < 256 ::
                            !(Greeting(m) + ConnectRequest(t, v) <= old(from.data))
  {
    hide ConnectRequest, Greeting;
    ghost var before := from.data;
    var ok;
    rsv := 0;
    ok, methods := ServerGreeting(from, to);
    if !ok {
      NoGreetingNoHandshake(before);
      return None, [], 0;
    }
    ghost var behind := from.data;
    dst, rsv := ServerRequest(from, to);
    if dst.None? {
      NoRequestNoHandshake(methods, behind);
    } else {
      assert before == Greeting(methods) + (ConnectRequest(dst.value, rsv) + from.data);
    }
  }

  lemma NoGreetingNoHandshake(before: Bytes)
    requires forall m: Bytes | |m| < 256 :: !(Greeting(m) <= before)
    ensures forall m: Bytes, t: Endpoint, v: Byte | |m| < 256 :: !(Greeting(m) + ConnectRequest(t, v) <= before)
  {
    hide ConnectRequest;
    forall m: Bytes, t: Endpoint, v: Byte | |m| < 256
      ensures !(Greeting(m) + ConnectRequest(t, v) <= before)
    {
      PrefixOfPrefix(Greeting(m), ConnectRequest(t, v), before);
    }
  }

  lemma NoRequestNoHandshake(methods: Bytes, behind: Bytes)
    requires |methods| < 256 && forall t: Endpoint, v: Byte :: !(ConnectRequest(t, v) <= behind)
    ensures forall m: Bytes, t: Endpoint, v: Byte | |m| < 256 ::
              !(Greeting(m) + ConnectRequest(t, v) <= Greeting(methods) + behind)
  {
    hide ConnectRequest, Greeting;
    forall m: Bytes, t: Endpoint, v: Byte | |m| < 256
      ensures !(Greeting(m) + ConnectRequest(t, v) <= Greeting(methods) + behind)
    {
      if Greeting(m) + ConnectRequest(t, v) <= Greeting(methods) + behind {
        GreetingDelimitsItself(m, ConnectRequest(t, v), methods, behind);
      }
    }
  }

  lemma GreetingDelimitsItself(m: Bytes, x: Bytes, n: Bytes, y: Bytes)
    requires |m| < 256 && |n| < 256 && Greeting(m) + x <= Greeting(n) + y
    ensures m == n && x <= y
  {
    var s, t := Greeting(m) + x, Greeting(n) + y;
    assert |m| == s[1] == t[1] == |n|;
    assert m == s[2..2 + |m|] == t[2..2 + |m|] == n;
    assert x == s[2 + |m|..] && y == t[2 + |m|..];
  }

  // ----- the client half

  method ClientGreeting(to: ByteStream)
    modifies to
    ensures to.data == old(to.data) + Greeting([0x00])
  {
    to.WriteAll([0x05, 0x01, 0x00]);
  }

  method ClientMethod(target: Endpoint, from: ByteStream, to: ByteStream) returns (ok: bool)
    requires from != to
    modifies from, to
    ensures ok <==> [0x05, 0x00] <= old(from.data)
    ensures ok ==> old(from.data) == [0x05, 0x00] + from.data && to.data == old(to.data) + ConnectRequest(target, 0)
    ensures !ok ==> to.data == old(to.data)
  {
    hide U16;
    ghost var before := from.data;
    var resp := from.ReadExact(2);
    if resp.None? {
      return false;
    }
    assert before[..2] == resp.value;
    if resp.value != METHOD_REPLY {
      return false;
    }
    var req := [0x05, 0x01, 0x00];
    match target.ip {
      case V4(b) =>
        req := req + [0x01];
        req := req + b;
      case V6(b) =>
        req := req + [0x04];
        req := req + b;
    }
    req := req + U16(target.port);
    assert req == ConnectRequest(target, 0);
    to.WriteAll(req);
    ok := true;
  }

  /** The reply has the fixed shape the server sends: ten bytes, of which only the code is looked at. */
  method ClientReply(from: ByteStream) returns (ok: bool)
    modifies from
    ensures ok <==> old(|from.data|) >= 10 && old(from.data)[1] == 0x00
    ensures ok ==> from.data == old(from.data)[10..]
  {
    var head := from.ReadExact(4);
    if head.None? {
      return false;
    }
    if head.value[1] != 0x00 {
      return false;
    }
    var bnd := from.ReadExact(6);
    if bnd.None? {
      return false;
    }
    ok := true;
  }

  /**
    Lockstep. The two halves joined by fresh streams, each step taken when the other side has
    written what it waits for: for every endpoint both succeed and the server learns that very
    endpoint. Either side's payload is already queued right behind its last handshake message when
    the other side reads that message, and is still all there, from its first byte, afterwards.
   */
  method Lockstep(target: Endpoint, fromClient: Bytes, fromServer: Bytes)
    returns (seen: Option<Endpoint>, toServer: Bytes, toClient: Bytes)
    ensures seen == Some(target) && toServer == fromClient && toClient == fromServer
  {
    hide ConnectRequest;
    var up := new ByteStream([]);
    var down := new ByteStream([]);
    ClientGreeting(up);
    var greeted, methods := ServerGreeting(up, down);
    assert [] + Greeting([0x00]) == Greeting([0x00]);
    GreetingDelimitsItself([0x00], [], methods, up.data);
    assert up.data == [] by {
      assert |Greeting([0x00])| == |Greeting(methods)| + |up.data|;
    }
    assert [] + METHOD_REPLY == METHOD_REPLY;
    var agreed := ClientMethod(target, down, up);
    assert down.data == [];
    assert [] + ConnectRequest(target, 0) == ConnectRequest(target, 0);
    up.WriteAll(fromClient);
    ghost var rsv: Byte;
    seen, rsv := ServerRequest(up, down);
    assert ConnectRequest(target, 0) <= ConnectRequest(target, 0) + fromClient;
    RequestDelimitsItself(target, 0, fromClient, seen.value, rsv, up.data);
    assert [] + SUCCESS_REPLY == SUCCESS_REPLY;
    down.WriteAll(fromServer);
    assert (SUCCESS_REPLY + fromServer)[10..] == fromServer;
    var connected := ClientReply(down);
    assert connected;
    toServer, toClient := up.data, down.data;
  }

  lemma RequestDelimitsItself(s: Endpoint, v: Byte, x: Bytes, t: Endpoint, w: Byte, y: Bytes)
    requires ConnectRequest(s, v) + x == ConnectRequest(t, w) + y
    ensures s == t && x == y
  {
    hide U16;
    var a, b := ConnectRequest(s, v) + x, ConnectRequest(t, w) + y;
    var n := |AddrOctets(s.ip)|;
    assert a[3] == (if s.ip.V4? then 0x01 else 0x04) && b[3] == (if t.ip.V4? then 0x01 else 0x04);
    assert a[4..4 + n] == AddrOctets(s.ip) && b[4..4 + n] == AddrOctets(t.ip);
    var p, q := U16(s.port), U16(t.port);
    assert a[4 + n..6 + n] == p && b[4 + n..6 + n] == q;
    assert s.port == BE16(p[0], p[1]) && t.port == BE16(q[0], q[1]);
    assert a[6 + n..] == x && b[6 + n..] == y;
  }
}
