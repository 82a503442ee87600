/**
  An RFC 1035 message decoder that knows nothing of crates/agent-core/src/dns.rs: the reference
  the responder is proved against. It follows compression pointers, reads any number of records
  in all four sections, and accepts only a message it consumes to the last byte.
 */
module DnsMessage {
  import opened Octets

  type Labels = seq<Bytes>
  datatype NameAt = NameAt(labels: Labels, next: nat)
  datatype Question = Question(labels: Labels, qtype: nat, qclass: nat)
  datatype Record = Record(labels: Labels, rtype: nat, rclass: nat, ttl: nat, rdata: Bytes)

  /** RFC 1035 section 4.1.1, field by field. */
  datatype Header = Header(id: nat, qr: bool, opcode: nat, aa: bool, tc: bool, rd: bool, ra: bool, z: nat, rcode: nat)
  datatype Message = Message(header: Header, questions: seq<Question>, answers: seq<Record>,
                             authority: seq<Record>, additional: seq<Record>)
  datatype QuestionAt = QuestionAt(question: Question, next: nat)
  datatype RecordAt = RecordAt(record: Record, next: nat)
  datatype Items<+T> = Items(items: seq<T>, next: nat)

  // ----- names (RFC 1035 sections 3.1 and 4.1.4)

  predicate ValidLabels(labels: Labels) {
    forall i :: 0 <= i < |labels| ==> 0 < |labels[i]| < 64
  }

  function EncodeName(labels: Labels): (b: Bytes)
    requires ValidLabels(labels)
    ensures |b| > 0
  {
    if labels == [] then [0] else [|labels[0]|] + labels[0] + EncodeName(labels[1..])
  }

  function Prepend(labels: Labels, r: Option<NameAt>): Option<NameAt> {
    match r
    case None => None
    case Some(n) => Some(NameAt(labels + n.labels, n.next))
  }

  lemma PrependTwice(first: Labels, second: Labels, r: Option<NameAt>)
    ensures Prepend(first, Prepend(second, r)) == Prepend(first + second, r)
    ensures Prepend([], r) == r
  {
    if r.Some? {
      assert first + (second + r.value.labels) == (first + second) + r.value.labels;
      assert [] + r.value.labels == r.value.labels;
    }
  }

  /**
    The name at `off`, and the offset after its own bytes. A pointer must lead to before `limit`,
    the start of the name being read: the "prior occurrence" of section 4.1.4. With `limit` 0 no
    pointer is admissible at all.
   */
  function DecodeName(msg: Bytes, off: nat, limit: nat): (r: Option<NameAt>)
    ensures r.Some? ==> off < r.value.next <= |msg|
    decreases limit, |msg| - off
  {
    if off >= |msg| then None
    else if msg[off] == 0 then Some(NameAt([], off + 1))
    else if msg[off] < 64 then
      var end := off + 1 + msg[off];
      if end > |msg| then None
      else
        Prepend([msg[off + 1..end]], DecodeName(msg, end, limit))
    else if msg[off] >= 192 && off + 1 < |msg| then
      var target := BE16(msg[off] - 192, msg[off + 1]);
      if target >= limit then None
      else
        match DecodeName(msg, target, target)
        case None => None
        case Some(there) => Some(NameAt(there.labels, off + 2))
    else None
  }

  /** `labels`, uncompressed, stand at `off`. */
  predicate NameStandsAt(msg: Bytes, off: nat, labels: Labels) {
    ValidLabels(labels) && off <= |msg| && EncodeName(labels) <= msg[off..]
  }

  lemma {:induction false} StandingNameDecodes(msg: Bytes, off: nat, limit: nat, labels: Labels)
    requires NameStandsAt(msg, off, labels)
    ensures DecodeName(msg, off, limit) == Some(NameAt(labels, off + |EncodeName(labels)|))
    decreases labels
  {
    var tail := msg[off..];
    var code := EncodeName(labels);
    assert code == tail[..|code|];
    assert msg[off] == tail[0] == code[0];
    if labels != [] {
      var n, rest := |labels[0]|, EncodeName(labels[1..]);
      var end := off + 1 + n;
      assert code == [n] + labels[0] + rest;
      assert code[1..1 + n] == labels[0] && code[1 + n..] == rest;
      assert msg[off + 1..end] == tail[1..1 + n] == code[1..1 + n];
      assert msg[end..][..|rest|] == tail[1 + n..|code|] == code[1 + n..];
      StandingNameDecodes(msg, end, limit, labels[1..]);
      assert [labels[0]] + labels[1..] == labels;
    }
  }

  /** Without pointers, a name is read exactly when an uncompressed name stands there. */
  lemma {:induction false} PointerFreeNameStands(msg: Bytes, off: nat)
    requires DecodeName(msg, off, 0).Some?
    ensures var n := DecodeName(msg, off, 0).value;
            NameStandsAt(msg, off, n.labels) && n.next == off + |EncodeName(n.labels)|
    decreases |msg| - off
  {
    if msg[off] != 0 {
      var n := DecodeName(msg, off, 0).value;
      var end := off + 1 + msg[off];
      PointerFreeNameStands(msg, end);
      assert n.labels[1..] == DecodeName(msg, end, 0).value.labels;
      assert EncodeName(n.labels) == [msg[off]] + msg[off + 1..end] + EncodeName(n.labels[1..]);
      assert msg[off..] == [msg[off]] + msg[off + 1..end] + msg[end..];
    }
  }

  /** A pointer-free name depends on no bytes but its own. */
  lemma NameDependsOnItsBytes(msg: Bytes, other: Bytes, off: nat, limit: nat)
    requires DecodeName(msg, off, 0).Some?
    requires var next := DecodeName(msg, off, 0).value.next; next <= |other| && other[off..next] == msg[off..next]
    ensures DecodeName(other, off, limit) == DecodeName(msg, off, 0)
  {
    hide DecodeName, EncodeName;
    PointerFreeNameStands(msg, off);
    var n := DecodeName(msg, off, 0).value;
    var code := EncodeName(n.labels);
    assert code == msg[off..][..|code|];
    assert msg[off..][..|code|] == msg[off..n.next];
    assert other[off..][..|code|] == other[off..n.next];
    StandingNameDecodes(other, off, limit, n.labels);
  }

  // ----- messages (RFC 1035 sections 4.1.1 to 4.1.3)

  function HeaderOf(b0: Byte, b1: Byte, b2: Byte, b3: Byte): Header {
    Header(BE16(b0, b1),
           b2 / 128 == 1, b2 / 8 % 16, b2 / 4 % 2 == 1, b2 / 2 % 2 == 1, b2 % 2 == 1,
           b3 / 128 == 1, b3 / 16 % 8, b3 % 16)
  }

  function DecodeQuestion(msg: Bytes, off: nat): Option<QuestionAt> {
    match DecodeName(msg, off, off)
    case None => None
    case Some(n) =>
      var o := n.next;
      if o + 4 > |msg| then None
      else Some(QuestionAt(Question(n.labels, BE16(msg[o], msg[o + 1]), BE16(msg[o + 2], msg[o + 3])), o + 4))
  }

  function DecodeRecord(msg: Bytes, off: nat): Option<RecordAt> {
    match DecodeName(msg, off, off)
    case None => None
    case Some(n) =>
      var o := n.next;
      if o + 10 > |msg| then None
      else
        var end := o + 10 + BE16(msg[o + 8], msg[o + 9]);
        if end > |msg| then None
        else
          var ttl := BE16(msg[o + 4], msg[o + 5]) * 0x1_0000 + BE16(msg[o + 6], msg[o + 7]);
          var r := Record(n.labels, BE16(msg[o], msg[o + 1]), BE16(msg[o + 2], msg[o + 3]), ttl, msg[o + 10..end]);
          Some(RecordAt(r, end))
  }

  function DecodeQuestions(msg: Bytes, off: nat, count: nat): Option<Items<Question>>
    decreases count
  {
    if count == 0 then Some(Items([], off))
    else
      match DecodeQuestion(msg, off)
      case None => None
      case Some(q) =>
        match DecodeQuestions(msg, q.next, count - 1)
        case None => None
        case Some(rest) => Some(Items([q.question] + rest.items, rest.next))
  }

  function DecodeRecords(msg: Bytes, off: nat, count: nat): Option<Items<Record>>
    decreases count
  {
    if count == 0 then Some(Items([], off))
    else
      match DecodeRecord(msg, off)
      case None => None
      case Some(r) =>
        match DecodeRecords(msg, r.next, count - 1)
        case None => None
        case Some(rest) => Some(Items([r.record] + rest.items, rest.next))
  }

  function DecodeMessage(msg: Bytes): Option<Message> {
    if |msg| < 12 then None
    else
      match DecodeQuestions(msg, 12, BE16(msg[4], msg[5]))
      case None => None
      case Some(qs) =>
        match DecodeRecords(msg, qs.next, BE16(msg[6], msg[7]))
        case None => None
        case Some(an) =>
          match DecodeRecords(msg, an.next, BE16(msg[8], msg[9]))
          case None => None
          case Some(ns) =>
            match DecodeRecords(msg, ns.next, BE16(msg[10], msg[11]))
            case None => None
            case Some(ar) =>
              if ar.next != |msg| then None
              else Some(Message(HeaderOf(msg[0], msg[1], msg[2], msg[3]), qs.items, an.items, ns.items, ar.items))
  }

  /** A message of one question and at most one record, put together from its parts. */
  lemma SmallMessageDecodes(msg: Bytes, question: QuestionAt, answer: Option<RecordAt>)
    requires |msg| >= 12
    requires BE16(msg[4], msg[5]) == 1 && DecodeQuestion(msg, 12) == Some(question)
    requires BE16(msg[6], msg[7]) == if answer.None? then 0 else 1
    requires answer.Some? ==> DecodeRecord(msg, question.next) == answer
    requires BE16(msg[8], msg[9]) == 0 && BE16(msg[10], msg[11]) == 0
    requires |msg| == if answer.None? then question.next else answer.value.next
    ensures DecodeMessage(msg) == Some(Message(HeaderOf(msg[0], msg[1], msg[2], msg[3]), [question.question],
                                               if answer.None? then [] else [answer.value.record], [], []))
  {
    assert DecodeQuestions(msg, question.next, 0) == Some(Items([], question.next));
    assert [question.question] + [] == [question.question];
    assert DecodeRecords(msg, |msg|, 0) == Some(Items([], |msg|));
    if answer.Some? {
      assert [answer.value.record] + [] == [answer.value.record];
    }
  }
}
