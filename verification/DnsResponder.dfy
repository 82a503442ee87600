/** The responder of crates/agent-core/src/dns.rs: `parse_qname`, `respond`, `build_servfail`. */
module DnsResponder {
  import opened Octets
  import opened DnsMessage

  const TTL_SECS := 30
  const QTYPE_A := 1
  const QTYPE_AAAA := 28
  const RCODE_OK := 0
  const RCODE_SERVFAIL := 2
  const RCODE_NXDOMAIN := 3

  /** `String::from_utf8_lossy`, which belongs to the standard library and is left open. */
  type Lossy = Bytes -> string
  type Table = map<string, IpAddr>
  datatype ParsedName = ParsedName(name: string, next: nat)

  // ----- the queried name

  function LowerChar(c: char): char {
    if 'A' <= c <= 'Z' then c + 32 as char else c
  }

  function Lower(s: string): string {
    if s == [] then [] else [LowerChar(s[0])] + Lower(s[1..])
  }

  function Join(parts: seq<string>): string {
    if |parts| == 0 then "" else if |parts| == 1 then parts[0] else parts[0] + "." + Join(parts[1..])
  }

  function LowerLabels(labels: Labels, lossy: Lossy): seq<string> {
    if labels == [] then [] else [Lower(lossy(labels[0]))] + LowerLabels(labels[1..], lossy)
  }

  /** The table key a list of labels stands for. */
  function TableName(labels: Labels, lossy: Lossy): string {
    Join(LowerLabels(labels, lossy))
  }

  // ----- what the key is, without saying how it is made

  /** The parts of a text between its dots. */
  function SplitAtDots(s: string): (parts: seq<string>)
    ensures parts != []
  {
    if s == "" then [""]
    else
      var rest := SplitAtDots(s[1..]);
      if s[0] == '.' then [""] + rest else [[s[0]] + rest[0]] + rest[1..]
  }

  /** `low` is `text` with the letters from A to Z in lower case and everything else as it is. */
  predicate InLowerCase(text: string, low: string) {
    |low| == |text| &&
    forall i :: 0 <= i < |text| ==>
      low[i] as int == text[i] as int + if 'A' <= text[i] <= 'Z' then 'a' as int - 'A' as int else 0
  }

  lemma {:induction false} LowerIsInLowerCase(s: string)
    ensures InLowerCase(s, Lower(s))
  {
    if s != [] {
      LowerIsInLowerCase(s[1..]);
    }
  }

  lemma {:induction false} SplitWithoutDot(s: string, rest: string)
    requires '.' !in s
    ensures SplitAtDots(s) == [s] && SplitAtDots(s + "." + rest) == [s] + SplitAtDots(rest)
  {
    var t := s + "." + rest;
    if s == "" {
      assert t[1..] == rest;
    } else {
      SplitWithoutDot(s[1..], rest);
      assert t[1..] == s[1..] + "." + rest && s == [s[0]] + s[1..];
    }
  }

  /**
    The key has one part between its dots for each label: the label's text in lower case. A dot
    within a label's own text is the only thing that could be taken for another part.
   */
  lemma {:induction false} KeyIsDottedLowerCase(labels: Labels, lossy: Lossy)
    requires forall i :: 0 <= i < |labels| ==> '.' !in lossy(labels[i])
    ensures labels == [] ==> TableName(labels, lossy) == ""
    ensures labels != [] ==>
            var parts := SplitAtDots(TableName(labels, lossy));
            |parts| == |labels| && forall i :: 0 <= i < |labels| ==> InLowerCase(lossy(labels[i]), parts[i])
  {
    if labels == [] {
      return;
    }
    var first := Lower(lossy(labels[0]));
    LowerIsInLowerCase(lossy(labels[0]));
    assert '.' !in first;
    if |labels| == 1 {
      assert LowerLabels(labels, lossy) == [first] + [];
      SplitWithoutDot(first, "");
    } else {
      var rest := TableName(labels[1..], lossy);
      KeyIsDottedLowerCase(labels[1..], lossy);
      SplitWithoutDot(first, rest);
      assert LowerLabels(labels, lossy)[1..] == LowerLabels(labels[1..], lossy);
    }
  }

  /** Letters from A to Z count as their lower case. */
  predicate SameUpToCase(s: string, t: string) {
    |s| == |t| &&
    forall i :: 0 <= i < |s| ==>
      s[i] == t[i] || ('A' <= s[i] <= 'Z' && t[i] as int == s[i] as int + 32) ||
      ('A' <= t[i] <= 'Z' && s[i] as int == t[i] as int + 32)
  }

  lemma {:induction false} SameCaseSameLower(s: string, t: string)
    requires SameUpToCase(s, t)
    ensures Lower(s) == Lower(t)
  {
    if s != [] {
      SameCaseSameLower(s[1..], t[1..]);
    }
  }

  /** Labels that differ in ASCII case only stand for one key. */
  lemma {:induction false} SameCaseSameKey(labels: Labels, others: Labels, lossy: Lossy)
    requires |labels| == |others| && forall i :: 0 <= i < |labels| ==> SameUpToCase(lossy(labels[i]), lossy(others[i]))
    ensures LowerLabels(labels, lossy) == LowerLabels(others, lossy)
    ensures TableName(labels, lossy) == TableName(others, lossy)
  {
    if labels != [] {
      SameCaseSameLower(lossy(labels[0]), lossy(others[0]));
      SameCaseSameKey(labels[1..], others[1..], lossy);
    }
  }

  function Named(r: Option<NameAt>, lossy: Lossy): Option<ParsedName> {
    match r
    case None => None
    case Some(n) => Some(ParsedName(TableName(n.labels, lossy), n.next))
  }

  /** `parse_qname` reads what the reference decoder reads when no pointer is admissible. */
  method ParseQname(buf: Bytes, start: nat, lossy: Lossy) returns (r: Option<ParsedName>)
    ensures r == Named(DecodeName(buf, start, 0), lossy)
  {
    var off := start;
    var names: seq<string> := [];
    ghost var seen: Labels := [];
    PrependTwice([], [], DecodeName(buf, start, 0));
    while true
      invariant names == LowerLabels(seen, lossy)
      invariant DecodeName(buf, start, 0) == Prepend(seen, DecodeName(buf, off, 0))
      decreases |buf| - off
    {
      if off >= |buf| {
        return None;
      }
      var len := buf[off];
      if len == 0 {
        assert seen + [] == seen;
        return Some(ParsedName(Join(names), off + 1));
      }
      if len / 64 != 0 {
        return None;
      }
      var end := off + 1 + len;
      if end > |buf| {
        return None;
      }
      var text := buf[off + 1..end];
      LowerLabelsAppend(seen, text, lossy);
      names := names + [Lower(lossy(text))];
      PrependTwice(seen, [text], DecodeName(buf, end, 0));
      seen := seen + [text];
      off := end;
    }
  }

  lemma {:induction false} LowerLabelsAppend(labels: Labels, text: Bytes, lossy: Lossy)
    ensures LowerLabels(labels + [text], lossy) == LowerLabels(labels, lossy) + [Lower(lossy(text))]
  {
    if labels == [] {
      assert [] + [text] == [text];
    } else {
      assert (labels + [text])[1..] == labels[1..] + [text];
      LowerLabelsAppend(labels[1..], text, lossy);
    }
  }

  /** `query_name`. */
  method QueryName(query: Bytes, lossy: Lossy) returns (r: Option<string>)
    ensures r == if |query| < 12 || DecodeName(query, 12, 0).None? then None
                 else Some(TableName(DecodeName(query, 12, 0).value.labels, lossy))
  {
    if |query| < 12 {
      return None;
    }
    var p := ParseQname(query, 12, lossy);
    match p
    case None => return None;
    case Some(n) => return Some(n.name);
  }

  // ----- what a query asks and what must come back

  /** A header, exactly one question, and room for its type and class. */
  predicate WellFormedQuery(query: Bytes) {
    |query| >= 12 && BE16(query[4], query[5]) == 1 &&
    var n := DecodeName(query, 12, 0);
    n.Some? && n.value.next + 4 <= |query|
  }

  /** The same, said with the encoder: some name in plain labels follows the header. */
  lemma WellFormedQueryMeansOneQuestion(query: Bytes)
    ensures WellFormedQuery(query) <==>
            |query| >= 12 && BE16(query[4], query[5]) == 1 &&
            exists labels :: NameStandsAt(query, 12, labels) && 12 + |EncodeName(labels)| + 4 <= |query|
  {
    if |query| >= 12 {
      if DecodeName(query, 12, 0).Some? {
        PointerFreeNameStands(query, 12);
      }
      forall labels | NameStandsAt(query, 12, labels)
        ensures DecodeName(query, 12, 0) == Some(NameAt(labels, 12 + |EncodeName(labels)|))
      {
        StandingNameDecodes(query, 12, 0, labels);
      }
    }
  }

  function QuestionEnd(query: Bytes): (qend: nat)
    requires WellFormedQuery(query)
    ensures 16 < qend <= |query|
  {
    DecodeName(query, 12, 0).value.next + 4
  }

  function Asked(query: Bytes): Question
    requires WellFormedQuery(query)
  {
    var n := DecodeName(query, 12, 0).value;
    Question(n.labels, BE16(query[n.next], query[n.next + 1]), BE16(query[n.next + 2], query[n.next + 3]))
  }

  /** An authoritative response header: the query's ID and RD, QR and AA set, the rest clear. */
  function ResponseHeader(query: Bytes, rcode: nat): Header
    requires |query| >= 12
  {
    Header(BE16(query[0], query[1]), true, 0, true, false, query[2] % 2 == 1, false, 0, rcode)
  }

  /** The record a table entry gives to a question, if the families agree. */
  function AnswerTo(q: Question, ip: IpAddr): seq<Record> {
    if q.qtype == 1 && ip.V4? then [Record(q.labels, 1, 1, 30, ip.v4)]
    else if q.qtype == 28 && ip.V6? then [Record(q.labels, 28, 1, 30, ip.v6)]
    else []
  }

  /** Answer, NODATA or NXDOMAIN, as the table entry of the lowercased name dictates. */
  function ExpectedResponse(table: Table, query: Bytes, lossy: Lossy): Message
    requires WellFormedQuery(query)
  {
    var q := Asked(query);
    var name := TableName(q.labels, lossy);
    if name in table
    then Message(ResponseHeader(query, 0), [q], AnswerTo(q, table[name]), [], [])
    else Message(ResponseHeader(query, 3), [q], [], [], [])
  }

  /**
    Two queries for one name, spelled in different cases, get the same response but for the spelling
    they are asked in.
   */
  lemma SpellingDoesNotMatter(table: Table, query: Bytes, other: Bytes, lossy: Lossy)
    requires WellFormedQuery(query) && WellFormedQuery(other) && query[..4] == other[..4]
    requires var q, o := Asked(query), Asked(other);
             q.qtype == o.qtype && |q.labels| == |o.labels| &&
             forall i :: 0 <= i < |q.labels| ==> SameUpToCase(lossy(q.labels[i]), lossy(o.labels[i]))
    ensures var m, n := ExpectedResponse(table, query, lossy), ExpectedResponse(table, other, lossy);
            m.header == n.header && |m.answers| == |n.answers| &&
            forall i :: 0 <= i < |m.answers| ==>
              m.answers[i].rtype == n.answers[i].rtype && m.answers[i].rdata == n.answers[i].rdata
  {
    SameCaseSameKey(Asked(query).labels, Asked(other).labels, lossy);
    hide TableName, WellFormedQuery;
    assert query[0] == query[..4][0] && query[1] == query[..4][1] && query[2] == query[..4][2];
    assert other[0] == other[..4][0] && other[1] == other[..4][1] && other[2] == other[..4][2];
  }

  // ----- the two builders

  /** An echoed question decodes to the question asked, whatever follows it. */
  lemma EchoedQuestionDecodes(query: Bytes, resp: Bytes)
    requires WellFormedQuery(query)
    requires var qend := QuestionEnd(query); |resp| >= qend && resp[12..qend] == query[12..qend]
    ensures DecodeQuestion(resp, 12) == Some(QuestionAt(Asked(query), QuestionEnd(query)))
  {
    EchoedName(query, resp, 12);
    var next, qend := QuestionEnd(query) - 4, QuestionEnd(query);
    assert forall i :: next <= i < qend ==> resp[i] == resp[12..qend][i - 12] == query[12..qend][i - 12] == query[i];
  }

  lemma EchoedName(query: Bytes, resp: Bytes, limit: nat)
    requires WellFormedQuery(query)
    requires var qend := QuestionEnd(query); |resp| >= qend && resp[12..qend] == query[12..qend]
    ensures DecodeName(resp, 12, limit) == DecodeName(query, 12, 0)
  {
    var next, qend := QuestionEnd(query) - 4, QuestionEnd(query);
    assert resp[12..next] == resp[12..qend][..next - 12] == query[12..next];
    NameDependsOnItsBytes(query, resp, 12, limit);
  }

  lemma FlagsDecode(b0: Byte, b1: Byte, rd: bool, rcode: Byte)
    requires rcode < 16
    ensures HeaderOf(b0, b1, if rd then 0x85 else 0x84, rcode) ==
            Header(BE16(b0, b1), true, 0, true, false, rd, false, 0, rcode)
  {
  }

  /** The flags as both builders patch them. */
  lemma PatchedFlagsDecode(query: Bytes, rcode: Byte)
    requires |query| >= 12 && rcode < 16
    ensures HeaderOf(query[0], query[1], 0x84 + query[2] % 2, rcode) == ResponseHeader(query, rcode)
  {
    FlagsDecode(query[0], query[1], query[2] % 2 == 1, rcode);
  }

  /** The question of `query` under a patched header, followed by what `answer` reads. */
  predicate Assembled(query: Bytes, resp: Bytes, rcode: Byte, ancount: Byte)
    requires WellFormedQuery(query)
  {
    var qend := QuestionEnd(query);
    && |resp| >= qend && resp[12..qend] == query[12..qend]
    && resp[0] == query[0] && resp[1] == query[1] && resp[2] == 0x84 + query[2] % 2 && resp[3] == rcode
    && resp[4] == query[4] && resp[5] == query[5] && resp[6] == 0 && resp[7] == ancount
    && resp[8] == 0 && resp[9] == 0 && resp[10] == 0 && resp[11] == 0
  }

  lemma AssembledDecodes(query: Bytes, resp: Bytes, rcode: Byte, answer: Option<RecordAt>)
    requires WellFormedQuery(query) && rcode < 16
    requires Assembled(query, resp, rcode, if answer.Some? then 1 else 0)
    requires answer.Some? ==> DecodeRecord(resp, QuestionEnd(query)) == answer
    requires |resp| == if answer.Some? then answer.value.next else QuestionEnd(query)
    ensures DecodeMessage(resp) == Some(Message(ResponseHeader(query, rcode), [Asked(query)],
                                                if answer.Some? then [answer.value.record] else [], [], []))
  {
    EchoedQuestionDecodes(query, resp);
    PatchedFlagsDecode(query, rcode);
    SmallMessageDecodes(resp, QuestionAt(Asked(query), QuestionEnd(query)), answer);
  }

  /** The answer record as `respond` lays it out. */
  function RecordBytes(qtype: nat, ip: IpAddr): Bytes {
    var addr := AddrOctets(ip);
    [0xC0, 0x0C] + U16(qtype) + [0x00, 0x01] + [0, 0, 0, TTL_SECS] + [0x00, |addr|] + addr
  }

  lemma RecordBytesFields(qtype: nat, ip: IpAddr)
    requires qtype < WORD
    ensures var rec, addr := RecordBytes(qtype, ip), AddrOctets(ip);
            && |rec| == 12 + |addr| && rec[12..] == addr && BE16(rec[2], rec[3]) == qtype
            && rec[4] == 0 && rec[5] == 1 && rec[6] == 0 && rec[7] == 0 && rec[8] == 0 && rec[9] == TTL_SECS
            && rec[10] == 0 && rec[11] == |addr|
  {
    hide U16;
  }

  lemma RecordFieldsDecode(msg: Bytes, o: nat, labels: Labels, qtype: nat, ip: IpAddr)
    requires o <= |msg| && msg[o..] == RecordBytes(qtype, ip) && qtype < WORD
    requires DecodeName(msg, o, o) == Some(NameAt(labels, o + 2))
    ensures DecodeRecord(msg, o) == Some(RecordAt(Record(labels, qtype, 1, TTL_SECS, AddrOctets(ip)), |msg|))
  {
    hide DecodeName, RecordBytes;
    RecordBytesFields(qtype, ip);
    var rec := msg[o..];
    assert rec[12..] == msg[o + 12..|msg|];
  }

  /** The pointer 0xC00C leads back to the question's name. */
  lemma RecordDecodes(query: Bytes, head: Bytes, resp: Bytes, qtype: nat, ip: IpAddr)
    requires WellFormedQuery(query) && qtype < WORD
    requires |head| == QuestionEnd(query) && head[12..] == query[12..|head|]
    requires resp == head + RecordBytes(qtype, ip)
    ensures DecodeRecord(resp, |head|) ==
            Some(RecordAt(Record(Asked(query).labels, qtype, 1, TTL_SECS, AddrOctets(ip)), |resp|))
  {
    hide DecodeRecord, U16;
    var o := |head|;
    assert resp[12..o] == head[12..] == query[12..o];
    EchoedName(query, resp, 12);
    assert resp[o..] == RecordBytes(qtype, ip);
    assert resp[o] == 0xC0 && resp[o + 1] == 0x0C;
    assert DecodeName(resp, o, o) == Some(NameAt(Asked(query).labels, o + 2));
    RecordFieldsDecode(resp, o, Asked(query).labels, qtype, ip);
  }

  method AppendRecord(start: Bytes, qtype: nat, ip: IpAddr) returns (resp: Bytes)
    ensures resp == start + RecordBytes(qtype, ip)
  {
    hide U16;
    resp := start + [0xC0, 0x0C];
    resp := resp + U16(qtype);
    resp := resp + [0x00, 0x01];
    resp := resp + [0, 0, 0, TTL_SECS];
    match ip {
      case V4(b) => resp := resp + [0x00, 0x04] + b;
      case V6(b) => resp := resp + [0x00, 0x10] + b;
    }
  }

  lemma ExpectedInPlainTerms(table: Table, query: Bytes, lossy: Lossy)
    requires WellFormedQuery(query)
    ensures var q, key := Asked(query), TableName(Asked(query).labels, lossy);
            var m := ExpectedResponse(table, query, lossy);
            && m.header == Header(BE16(query[0], query[1]), true, 0, true, false, query[2] % 2 == 1, false, 0,
                                  if key in table then 0 else 3)
            && m.questions == [q] && m.authority == m.additional == []
            && m.answers == if key in table && q.qtype == 1 && table[key].V4?
                            then [Record(q.labels, 1, 1, 30, table[key].v4)]
                            else if key in table && q.qtype == 28 && table[key].V6?
                            then [Record(q.labels, 28, 1, 30, table[key].v6)]
                            else []
  {
    hide TableName, WellFormedQuery;
  }

  /** The message the builder has assembled is the one expected. */
  lemma AssembledIsExpected(table: Table, query: Bytes, lossy: Lossy, rcode: nat, answers: seq<Record>)
    requires WellFormedQuery(query)
    requires var q, key := Asked(query), TableName(Asked(query).labels, lossy);
             rcode == (if key in table then 0 else 3) &&
             answers == if key in table then AnswerTo(q, table[key]) else []
    ensures Message(ResponseHeader(query, rcode), [Asked(query)], answers, [], []) ==
            ExpectedResponse(table, query, lossy)
  {
    hide TableName, WellFormedQuery, AnswerTo;
  }

  /** `respond`. */
  method Respond(table: Table, query: Bytes, lossy: Lossy) returns (r: Option<Bytes>)
    ensures r.Some? <==> WellFormedQuery(query)
    ensures r.Some? ==> DecodeMessage(r.value) == Some(ExpectedResponse(table, query, lossy))
    ensures r.Some? ==>
              var q, key := Asked(query), TableName(Asked(query).labels, lossy);
              var m := DecodeMessage(r.value).value;
              && m.header == Header(BE16(query[0], query[1]), true, 0, true, false, query[2] % 2 == 1, false, 0,
                                    if key in table then 0 else 3)
              && m.questions == [q] && m.authority == m.additional == []
              && m.answers == if key in table && q.qtype == 1 && table[key].V4?
                              then [Record(q.labels, 1, 1, 30, table[key].v4)]
                              else if key in table && q.qtype == 28 && table[key].V6?
                              then [Record(q.labels, 28, 1, 30, table[key].v6)]
                              else []
    ensures r.Some? ==> |r.value| <= |query| + 28
  {
    hide DecodeMessage, DecodeRecord, DecodeName, HeaderOf, TableName, U16;
    if |query| < 12 {
      return None;
    }
    if BE16(query[4], query[5]) != 1 {
      return None;
    }
    var parsed := ParseQname(query, 12, lossy);
    if parsed.None? {
      return None;
    }
    var name, afterName := parsed.value.name, parsed.value.next;
    if afterName + 1 >= |query| {
      return None;
    }
    var qtype := BE16(query[afterName], query[afterName + 1]);
    var qend := afterName + 4;
    if |query| < qend {
      return None;
    }
    var resp := query[..qend];
    resp := resp[2 := 0x84 + query[2] % 2];
    var hit := if name in table then Some(table[name]) else None;
    var answerIp := if hit.Some? && ((qtype == QTYPE_A && hit.value.V4?) || (qtype == QTYPE_AAAA && hit.value.V6?))
      then hit else None;
    var rcode := if hit.Some? then RCODE_OK else RCODE_NXDOMAIN;
    resp := resp[3 := rcode];
    resp := resp[6 := 0][7 := if answerIp.Some? then 1 else 0];
    resp := resp[8 := 0][9 := 0];
    resp := resp[10 := 0][11 := 0];
    ghost var head, answer: Option<RecordAt> := resp, None;
    if answerIp.Some? {
      resp := AppendRecord(resp, qtype, answerIp.value);
      RecordDecodes(query, head, resp, qtype, answerIp.value);
      answer := DecodeRecord(resp, qend);
    }
    AssembledDecodes(query, resp, rcode, answer);
    ghost var records := if answer.Some? then [answer.value.record] else [];
    assert records == if name in table then AnswerTo(Asked(query), table[name]) else [];
    AssembledIsExpected(table, query, lossy, rcode, records);
    ExpectedInPlainTerms(table, query, lossy);
    hide ExpectedResponse, AnswerTo;
    r := Some(resp);
  }

  /** `build_servfail`, defined on exactly the queries `respond` is defined on. */
  method BuildServfail(query: Bytes, lossy: Lossy) returns (r: Option<Bytes>)
    ensures r.Some? <==> WellFormedQuery(query)
    ensures r.Some? ==> DecodeMessage(r.value) ==
                        Some(Message(ResponseHeader(query, 2), [Asked(query)], [], [], []))
    ensures r.Some? ==> |r.value| <= |query|
  {
    hide DecodeMessage, DecodeRecord, DecodeName, HeaderOf, TableName, U16;
    if |query| < 12 {
      return None;
    }
    if BE16(query[4], query[5]) != 1 {
      return None;
    }
    var parsed := ParseQname(query, 12, lossy);
    if parsed.None? {
      return None;
    }
    var qend := parsed.value.next + 4;
    if |query| < qend {
      return None;
    }
    var resp := query[..qend];
    resp := resp[2 := 0x84 + query[2] % 2];
    resp := resp[3 := RCODE_SERVFAIL];
    resp := resp[6 := 0][7 := 0][8 := 0][9 := 0][10 := 0][11 := 0];
    AssembledDecodes(query, resp, RCODE_SERVFAIL, None);
    r := Some(resp);
  }
}
