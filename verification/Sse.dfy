/**
  Event framing of crates/agent-daemon/src/up.rs `consume_peer_sse`, a subset of the stream format
  of section 9.2.6 of the WHATWG HTML Living Standard. The code buffers each chunk and searches it
  for line ends; the reference reads one character at a time and has no chunks at all.
 */
module Sse {
  import opened Octets
  import opened Utf8

  const LF := '\n'
  const CR := '\r'

  /** An event handed on to the roster or the certificate store. */
  datatype Event = Event(kind: string, data: string)

  const KINDS := {"peer_added", "peer_removed", "cert_issued"}
  const EVENT_FIELD := "event: "
  const DATA_FIELD := "data: "

  // ----- the reference: one character at a time

  /** The unfinished line, the event being collected, and what was dispatched so far. */
  datatype Reader = Reader(line: string, kind: string, data: string, events: seq<Event>)

  const START := Reader("", "", "", [])

  /** `trim_end_matches('\r')`. */
  function TrimCr(s: string): string {
    if s != [] && s[|s| - 1] == CR then TrimCr(s[..|s| - 1]) else s
  }

  /** All carriage returns at the end go, and nothing else. */
  lemma {:induction false} TrimmedExactly(s: string)
    ensures var t := TrimCr(s);
            t <= s && (t != "" ==> t[|t| - 1] != '\r') && forall i :: |t| <= i < |s| ==> s[i] == '\r'
  {
    if s != "" && s[|s| - 1] == CR {
      TrimmedExactly(s[..|s| - 1]);
    }
  }

  /** The kinds acted on. */
  lemma KnownKinds(kind: string)
    ensures kind in KINDS <==> kind == "peer_added" || kind == "peer_removed" || kind == "cert_issued"
  {
  }

  function Dispatched(kind: string, data: string): seq<Event> {
    if kind in KINDS && data != "" then [Event(kind, data)] else []
  }

  /** A finished line: blank dispatches, a known field is stored, anything else is ignored. */
  function EndLine(r: Reader): Reader {
    var line := TrimCr(r.line);
    if line == "" then Reader("", "", "", r.events + Dispatched(r.kind, r.data))
    else if EVENT_FIELD <= line then Reader("", line[|EVENT_FIELD|..], r.data, r.events)
    else if DATA_FIELD <= line then Reader("", r.kind, line[|DATA_FIELD|..], r.events)
    else r.(line := "")
  }

  function ReadChar(r: Reader, c: char): Reader {
    if c == LF then EndLine(r) else r.(line := r.line + [c])
  }

  function ReadText(r: Reader, text: string): Reader
    decreases |text|
  {
    if text == "" then r else ReadText(ReadChar(r, text[0]), text[1..])
  }

  lemma {:induction false} ReadConcat(r: Reader, a: string, b: string)
    ensures ReadText(r, a + b) == ReadText(ReadText(r, a), b)
    decreases |a|
  {
    if a == "" {
      assert a + b == b;
    } else {
      assert (a + b)[1..] == a[1..] + b;
      ReadConcat(ReadChar(r, a[0]), a[1..], b);
    }
  }

  lemma {:induction false} ReadWithoutLineEnd(r: Reader, text: string)
    requires LF !in text
    ensures ReadText(r, text) == r.(line := r.line + text)
    decreases |text|
  {
    if text == "" {
      assert r.line + text == r.line;
    } else {
      ReadWithoutLineEnd(ReadChar(r, text[0]), text[1..]);
      assert r.line + [text[0]] + text[1..] == r.line + text;
    }
  }

  lemma ReadLine(r: Reader, text: string)
    requires LF !in text
    ensures ReadText(r, text + [LF]) == EndLine(r.(line := r.line + text))
  {
    ReadConcat(r, text, [LF]);
    ReadWithoutLineEnd(r, text);
    var s := r.(line := r.line + text);
    assert [LF][1..] == "";
    assert ReadText(s, [LF]) == ReadText(ReadChar(s, LF), "");
  }

  /** A value that trimming leaves alone. */
  predicate Clean(v: string) {
    LF !in v && (v != "" ==> v[|v| - 1] != CR)
  }

  lemma EventLine(r: Reader, v: string)
    requires r.line == "" && Clean(v)
    ensures ReadText(r, EVENT_FIELD + v + [LF]) == r.(kind := v)
  {
    var line := EVENT_FIELD + v;
    assert "" + line == line && line[|EVENT_FIELD|..] == v;
    assert line[|line| - 1] != CR && TrimCr(line) == line;
    ReadLine(r, line);
  }

  lemma DataLine(r: Reader, v: string)
    requires r.line == "" && Clean(v)
    ensures ReadText(r, DATA_FIELD + v + [LF]) == r.(data := v)
  {
    var line := DATA_FIELD + v;
    assert "" + line == line && line[|DATA_FIELD|..] == v;
    assert line[|line| - 1] != CR && TrimCr(line) == line;
    assert line[0] == 'd' && EVENT_FIELD[0] == 'e';
    ReadLine(r, line);
  }

  // ----- the code

  /** `buf.find('\n')`. */
  method FindLineEnd(buf: string) returns (nl: Option<nat>)
    ensures nl.None? ==> LF !in buf
    ensures nl.Some? ==> nl.value < |buf| && buf[nl.value] == LF && LF !in buf[..nl.value]
  {
    for i := 0 to |buf|
      invariant LF !in buf[..i]
    {
      if buf[i] == LF {
        return Some(i);
      }
    }
    nl := None;
  }

  /** The variables `consume_peer_sse` keeps between chunks, and the events it has acted on. */
  class Consumer {
    var buf: string
    var evtType: string
    var evtData: string
    var dispatched: seq<Event>

    function View(): Reader
      reads this
    {
      Reader(buf, evtType, evtData, dispatched)
    }

    /** Between chunks no finished line is left in the buffer. */
    predicate Valid()
      reads this
    {
      LF !in buf
    }

    constructor ()
      ensures Valid() && View() == START
    {
      buf, evtType, evtData, dispatched := "", "", "", [];
    }

    method TakeLine(line: string)
      modifies this`evtType, this`evtData, this`dispatched
      ensures EndLine(Reader(line, old(evtType), old(evtData), old(dispatched))) ==
              Reader("", evtType, evtData, dispatched)
    {
      var trimmed := TrimCr(line);
      if trimmed == "" {
        if evtType == "peer_added" && evtData != "" {
          dispatched := dispatched + [Event(evtType, evtData)];
        }
        if evtType == "peer_removed" && evtData != "" {
          dispatched := dispatched + [Event(evtType, evtData)];
        }
        if evtType == "cert_issued" && evtData != "" {
          dispatched := dispatched + [Event(evtType, evtData)];
        }
        evtType := "";
        evtData := "";
      } else if EVENT_FIELD <= trimmed {
        evtType := trimmed[|EVENT_FIELD|..];
      } else if DATA_FIELD <= trimmed {
        evtData := trimmed[|DATA_FIELD|..];
      }
    }

    /** One decoded chunk: the state afterwards is what reading its characters one by one gives. */
    method Feed(text: string)
      requires Valid()
      modifies this
      ensures Valid() && View() == ReadText(old(View()), text)
    {
      ghost var before := View();
      ghost var goal := ReadText(before, text);
      ReadWithoutLineEnd(before.(line := ""), buf);
      assert "" + buf == buf;
      ReadConcat(before.(line := ""), buf, text);
      buf := buf + text;
      var nl := FindLineEnd(buf);
      while nl.Some?
        invariant nl.None? ==> LF !in buf
        invariant nl.Some? ==> 0 <= nl.value < |buf| && buf[nl.value] == LF && LF !in buf[..nl.value]
        invariant ReadText(Reader("", evtType, evtData, dispatched), buf) == goal
        decreases |buf|
      {
        var line := buf[..nl.value];
        ghost var r := Reader("", evtType, evtData, dispatched);
        assert buf == (line + [LF]) + buf[nl.value + 1..];
        ReadConcat(r, line + [LF], buf[nl.value + 1..]);
        ReadLine(r, line);
        assert "" + line == line;
        buf := buf[nl.value + 1..];
        TakeLine(line);
        nl := FindLineEnd(buf);
      }
      ReadWithoutLineEnd(Reader("", evtType, evtData, dispatched), buf);
      assert "" + buf == buf;
    }

    /** The stream, chunk by chunk; each chunk is decoded on its own. */
    method FeedAll(chunks: seq<Bytes>)
      requires Valid()
      modifies this
      ensures Valid() && View() == ReadText(old(View()), LossyEach(chunks))
    {
      hide Lossy;
      ghost var before := View();
      for i := 0 to |chunks|
        invariant Valid() && View() == ReadText(before, LossyEach(chunks[..i]))
      {
        assert chunks[..i + 1][..i] == chunks[..i];
        ReadConcat(before, LossyEach(chunks[..i]), Lossy(chunks[i]));
        Feed(Lossy(chunks[i]));
      }
      assert chunks[..|chunks|] == chunks;
    }
  }

  // ----- chunk independence

  /**
    Two cuttings of one stream, well-formed or not, leave the same events and the same unfinished
    state if neither cuts within a character: both read the text of the whole stream. By
    `ChunksDecodeExactlyWhen`, no other cutting reads that text.
   */
  lemma CuttingBetweenCharacters(r: Reader, chunks: seq<Bytes>, others: seq<Bytes>)
    requires Concat(chunks) == Concat(others) && CutBetweenItems(chunks) && CutBetweenItems(others)
    ensures ReadText(r, LossyEach(chunks)) == ReadText(r, LossyEach(others)) == ReadText(r, Lossy(Concat(chunks)))
  {
    ChunksDecodeExactlyWhen(chunks);
    ChunksDecodeExactlyWhen(others);
  }

  predicate Ascii(b: Bytes) {
    forall i :: 0 <= i < |b| ==> b[i] < 128
  }

  lemma {:induction false} AsciiBoundary(b: Bytes, i: nat)
    requires Ascii(b) && i <= |b|
    ensures Boundary(b, i)
    decreases |b|
  {
    if i > 0 {
      assert Size(b) == 1;
      AsciiBoundary(b[1..], i - 1);
    }
  }

  /** An ASCII stream can be cut anywhere. */
  lemma CuttingDoesNotMatter(r: Reader, chunks: seq<Bytes>, others: seq<Bytes>)
    requires Concat(chunks) == Concat(others) && Ascii(Concat(chunks))
    ensures ReadText(r, LossyEach(chunks)) == ReadText(r, LossyEach(others)) == ReadText(r, Lossy(Concat(chunks)))
  {
    AsciiCuts(chunks);
    AsciiCuts(others);
    CuttingBetweenCharacters(r, chunks, others);
  }

  lemma AsciiCuts(chunks: seq<Bytes>)
    requires Ascii(Concat(chunks))
    ensures CutBetweenItems(chunks)
  {
    forall k | 0 <= k <= |chunks|
      ensures Boundary(Concat(chunks), |Concat(chunks[..k])|)
    {
      ConcatOfPrefix(chunks, k);
      AsciiBoundary(Concat(chunks), |Concat(chunks[..k])|);
    }
  }

  // ----- printing and reading back

  /** An event on three lines, as the control plane writes it. */
  function Print(e: Event): string {
    (EVENT_FIELD + e.kind + [LF]) + ((DATA_FIELD + e.data + [LF]) + [LF])
  }

  function PrintAll(events: seq<Event>): string {
    if events == [] then "" else Print(events[0]) + PrintAll(events[1..])
  }

  /** A known kind and one line of data that trimming leaves alone. */
  predicate Printable(e: Event) {
    (e.kind == "peer_added" || e.kind == "peer_removed" || e.kind == "cert_issued") && e.data != "" && Clean(e.data)
  }

  /** Every printable event is read back as itself, with nothing left over. */
  lemma PrintedEventIsRead(events: seq<Event>, e: Event)
    requires Printable(e)
    ensures ReadText(Reader("", "", "", events), Print(e)) == Reader("", "", "", events + [e])
  {
    assert Clean(e.kind);
    var r := Reader("", "", "", events);
    var first, second := EVENT_FIELD + e.kind + [LF], DATA_FIELD + e.data + [LF];
    ReadConcat(r, first, second + [LF]);
    EventLine(r, e.kind);
    ReadConcat(r.(kind := e.kind), second, [LF]);
    DataLine(r.(kind := e.kind), e.data);
    var full := Reader("", e.kind, e.data, events);
    ReadLine(full, "");
    assert "" + [LF] == [LF] && full.(line := full.line + "") == full;
  }

  lemma {:induction false} PrintedEventsAreRead(before: seq<Event>, events: seq<Event>)
    requires forall i :: 0 <= i < |events| ==> Printable(events[i])
    ensures ReadText(Reader("", "", "", before), PrintAll(events)) == Reader("", "", "", before + events)
    decreases |events|
  {
    if events == [] {
      assert before + events == before;
    } else {
      ReadConcat(Reader("", "", "", before), Print(events[0]), PrintAll(events[1..]));
      PrintedEventIsRead(before, events[0]);
      PrintedEventsAreRead(before + [events[0]], events[1..]);
      assert before + [events[0]] + events[1..] == before + events;
    }
  }

  /** Events in any language, printed, encoded and cut between characters, are read back. */
  lemma EncodedEventsAreRead(events: seq<Event>, chunks: seq<Bytes>)
    requires forall i :: 0 <= i < |events| ==> Printable(events[i])
    requires Concat(chunks) == Encode(PrintAll(events)) && CutBetweenItems(chunks)
    ensures ReadText(START, LossyEach(chunks)) == Reader("", "", "", events)
  {
    hide CutBetweenItems, Lossy, PrintAll, Printable;
    ChunksDecodeExactlyWhen(chunks);
    EncodedIsDecoded(PrintAll(events));
    PrintedEventsAreRead([], events);
    assert [] + events == events;
  }

  /**
    Where the code departs from its one-shot reading: a chunk that ends within a character of an
    event's data. The event that is dispatched has replacement characters in its place.
   */
  lemma CutWithinCharacterDamages(kind: string, a: string, c: char, b: string, j: nat)
    requires Printable(Event(kind, a + [c] + b)) && 0 < j < |Units(c)|
    ensures var x, y := (EVENT_FIELD + kind + [LF]) + (DATA_FIELD + a), b + [LF] + [LF];
            var chunks := [Encode(x) + Units(c)[..j], Units(c)[j..] + Encode(y)];
            var damaged := Event(kind, a + Replacements(|Units(c)| - j + 1) + b);
            Concat(chunks) == Encode(Print(Event(kind, a + [c] + b))) && damaged != Event(kind, a + [c] + b) &&
            ReadText(START, LossyEach(chunks)) == Reader("", "", "", [damaged])
  {
    var x, y := (EVENT_FIELD + kind + [LF]) + (DATA_FIELD + a), b + [LF] + [LF];
    var r := Replacements(|Units(c)| - j + 1);
    CutConcat(x, c, y, j);
    CutWithinCharacter(x, c, y, j);
    hide Encode, Units, LossyEach, Concat, Replacements;
    PrintSplits(kind, a, [c], b);
    PrintSplits(kind, a, r, b);
    NoLineEndIn(|Units(c)| - j + 1);
    assert |a + r + b| > |a + [c] + b|;
    DamagedIsPrintable(kind, a, c, b, r);
    PrintedEventIsRead([], Event(kind, a + r + b));
    assert [] + [Event(kind, a + r + b)] == [Event(kind, a + r + b)];
  }

  lemma {:induction false} NoLineEndIn(n: nat)
    ensures LF !in Replacements(n) && CR !in Replacements(n)
  {
    if n > 0 {
      NoLineEndIn(n - 1);
    }
  }

  lemma DamagedIsPrintable(kind: string, a: string, c: char, b: string, r: string)
    requires Printable(Event(kind, a + [c] + b)) && r != "" && LF !in r && CR !in r
    ensures Printable(Event(kind, a + r + b))
  {
    var v, w := a + [c] + b, a + r + b;
    assert LF !in a && LF !in b by {
      assert forall i :: 0 <= i < |a| ==> v[i] == a[i];
      assert forall i :: 0 <= i < |b| ==> v[|a| + 1 + i] == b[i];
    }
    assert w[|w| - 1] == (if b != "" then b[|b| - 1] else r[|r| - 1]);
    assert b != "" ==> v[|v| - 1] == b[|b| - 1];
  }

  lemma PrintSplits(kind: string, a: string, m: string, b: string)
    ensures var x, y := (EVENT_FIELD + kind + [LF]) + (DATA_FIELD + a), b + [LF] + [LF];
            x + m + y == Print(Event(kind, a + m + b))
  {
    var first := EVENT_FIELD + kind + [LF];
    assert first + (DATA_FIELD + a) + m + (b + [LF] + [LF]) == first + ((DATA_FIELD + (a + m + b) + [LF]) + [LF]);
  }

  lemma CutConcat(x: string, c: char, y: string, j: nat)
    requires j <= |Units(c)|
    ensures Concat([Encode(x) + Units(c)[..j], Units(c)[j..] + Encode(y)]) == Encode(x + [c] + y)
  {
    EncodeConcat(x, [c] + y);
    EncodeStep(c, y);
    Join(x, [c], y);
    hide Encode, Units;
    ConcatOfTwo(Encode(x) + Units(c)[..j], Units(c)[j..] + Encode(y));
    Rejoin(Encode(x), Units(c), j, Encode(y));
  }

  lemma ConcatOfTwo(a: Bytes, b: Bytes)
    ensures Concat([a, b]) == a + b
  {
    assert [a, b][..1] == [a];
    assert Concat([a][..0]) == [] && Concat([a]) == [] + a == a;
  }

  lemma Rejoin<T>(a: seq<T>, u: seq<T>, j: nat, b: seq<T>)
    requires j <= |u|
    ensures (a + u[..j]) + (u[j..] + b) == a + (u + b)
  {
  }

  // ----- against the standard

  /** The buffers of section 9.2.6; `events` are those of the kinds this client acts on. */
  datatype Standard = Standard(kind: string, data: string, events: seq<Event>)

  const STANDARD_START := Standard("", "", [])

  /** The field a line names and its value: what is before the first colon, and behind it less one space. */
  function NameAndValue(line: string): (string, string) {
    if ':' !in line then (line, "")
    else
      var i := FirstColon(line);
      var v := line[i + 1..];
      (line[..i], if v != "" && v[0] == ' ' then v[1..] else v)
  }

  function FirstColon(line: string): (i: nat)
    requires ':' in line
    ensures i < |line| && line[i] == ':' && forall k :: 0 <= k < i ==> line[k] != ':'
  {
    if line[0] == ':' then 0 else FirstColon(line[1..]) + 1
  }

  /** A blank line dispatches: an empty data buffer is no event, and the last line feed in it is dropped. */
  function StandardDispatch(s: Standard): Standard {
    var data := if s.data != "" && s.data[|s.data| - 1] == LF then s.data[..|s.data| - 1] else s.data;
    Standard("", "", s.events + if s.data != "" && s.kind in KINDS then [Event(s.kind, data)] else [])
  }

  /** A data field is appended to the data buffer, and a line feed behind it. */
  function StandardLine(s: Standard, line: string): Standard {
    if line == "" then StandardDispatch(s)
    else
      var (name, value) := NameAndValue(line);
      if name == "event" then s.(kind := value)
      else if name == "data" then s.(data := s.data + value + [LF])
      else s
  }

  /** A line of a stream: its text, and which of the two usual ends it has. */
  datatype Line = Line(text: string, crlf: bool)

  /** What the standard makes of lines that hold no line ends themselves. */
  function StandardLines(s: Standard, lines: seq<Line>): Standard {
    if lines == [] then s else StandardLine(StandardLines(s, lines[..|lines| - 1]), lines[|lines| - 1].text)
  }

  function Wire(l: Line): string {
    l.text + if l.crlf then [CR, LF] else [LF]
  }

  /** The lines as they go over the wire. */
  function Unlines(lines: seq<Line>): string {
    if lines == [] then "" else Unlines(lines[..|lines| - 1]) + Wire(lines[|lines| - 1])
  }

  /** What lines up to a blank one say: the kind named last, and the values of all data fields. */
  datatype Block = Block(kind: string, values: seq<string>)

  /** The blocks closed by blank lines, and the one still open. */
  datatype Blocks = Blocks(closed: seq<Block>, open: Block)

  function Collect(lines: seq<Line>): Blocks {
    if lines == [] then Blocks([], Block("", []))
    else CollectLine(Collect(lines[..|lines| - 1]), lines[|lines| - 1].text)
  }

  function CollectLine(b: Blocks, line: string): Blocks {
    if line == "" then Blocks(b.closed + [b.open], Block("", []))
    else
      var (name, value) := NameAndValue(line);
      if name == "event" then b.(open := Block(value, b.open.values))
      else if name == "data" then b.(open := Block(b.open.kind, b.open.values + [value]))
      else b
  }

  /** No line end of the standard inside. */
  predicate Plain(v: string) {
    LF !in v && CR !in v
  }

  /** Event and data fields have the space behind the colon that the code looks for. */
  predicate Spaced(line: string) {
    var name := NameAndValue(line).0;
    (name == "event" ==> EVENT_FIELD <= line) && (name == "data" ==> DATA_FIELD <= line)
  }

  /** The data buffer after these data fields. */
  function Joined(values: seq<string>): string {
    if values == [] then "" else Joined(values[..|values| - 1]) + values[|values| - 1] + [LF]
  }

  /** The value the code keeps: the last one. */
  function Kept(values: seq<string>): string {
    if values == [] then "" else values[|values| - 1]
  }

  function StandardEvents(b: Block): seq<Event> {
    if b.values == [] || b.kind !in KINDS then []
    else [Event(b.kind, Joined(b.values)[..|Joined(b.values)| - 1])]
  }

  /** The code dispatches what the standard dispatches for this block. */
  predicate Faithful(b: Block) {
    b.kind !in KINDS || b.values == [] || (|b.values| == 1 && b.values[0] != "")
  }

  lemma FieldsOfALine(v: string)
    ensures NameAndValue(EVENT_FIELD + v) == ("event", v) && NameAndValue(DATA_FIELD + v) == ("data", v)
  {
    var e, d := EVENT_FIELD + v, DATA_FIELD + v;
    assert e[..5] == "event" && d[..4] == "data";
    assert e[5] == ':' && d[4] == ':';
    assert FirstColon(e) == 5 && FirstColon(d) == 4;
    assert e[6..] == " " + v && d[5..] == " " + v;
    assert (" " + v)[1..] == v;
  }

  lemma {:induction false} JoinedIsLonger(values: seq<string>)
    requires values != []
    ensures |Joined(values)| >= |Kept(values)| + |values| && Joined(values)[|Joined(values)| - 1] == LF
  {
    if |values| > 1 {
      JoinedIsLonger(values[..|values| - 1]);
    }
  }

  /** One block is read as the standard reads it exactly when it is faithful; the code never dispatches more. */
  lemma BlockMatchesStandardWhen(b: Block)
    ensures |Dispatched(b.kind, Kept(b.values))| <= |StandardEvents(b)|
    ensures Dispatched(b.kind, Kept(b.values)) == StandardEvents(b) <==> Faithful(b)
  {
    if b.values != [] {
      JoinedIsLonger(b.values);
      if |b.values| == 1 {
        assert b.values[..0] == [] && Joined(b.values) == "" + b.values[0] + [LF];
        assert Joined(b.values)[..|b.values[0]|] == b.values[0];
      }
    }
  }

  function CodeEvents(blocks: seq<Block>): seq<Event> {
    if blocks == [] then []
    else CodeEvents(blocks[..|blocks| - 1]) + Dispatched(blocks[|blocks| - 1].kind, Kept(blocks[|blocks| - 1].values))
  }

  function AllStandardEvents(blocks: seq<Block>): seq<Event> {
    if blocks == [] then []
    else AllStandardEvents(blocks[..|blocks| - 1]) + StandardEvents(blocks[|blocks| - 1])
  }

  lemma PartsAgree<T>(a: seq<T>, x: seq<T>, b: seq<T>, y: seq<T>)
    requires |a| <= |b| && |x| <= |y|
    ensures a + x == b + y <==> a == b && x == y
  {
    if a + x == b + y {
      assert |a + x| == |b + y|;
      assert a == (a + x)[..|a|] && x == (a + x)[|a|..] && y == (b + y)[|b|..];
    }
  }

  predicate AllFaithful(blocks: seq<Block>) {
    forall i :: 0 <= i < |blocks| ==> Faithful(blocks[i])
  }

  lemma AllFaithfulSnoc(blocks: seq<Block>)
    requires blocks != []
    ensures AllFaithful(blocks) <==> AllFaithful(blocks[..|blocks| - 1]) && Faithful(blocks[|blocks| - 1])
  {
    var front := blocks[..|blocks| - 1];
    hide Faithful;
    assert forall i :: 0 <= i < |front| ==> front[i] == blocks[i];
  }

  lemma {:induction false} EventListsAgreeWhen(blocks: seq<Block>)
    ensures |CodeEvents(blocks)| <= |AllStandardEvents(blocks)|
    ensures CodeEvents(blocks) == AllStandardEvents(blocks) <==> AllFaithful(blocks)
  {
    if blocks != [] {
      var front, last := blocks[..|blocks| - 1], blocks[|blocks| - 1];
      var a, b := CodeEvents(front), AllStandardEvents(front);
      var x, y := Dispatched(last.kind, Kept(last.values)), StandardEvents(last);
      EventListsAgreeWhen(front);
      BlockMatchesStandardWhen(last);
      AllFaithfulSnoc(blocks);
      hide StandardEvents, Dispatched, Faithful, Kept, AllFaithful;
      PartsAgree(a, x, b, y);
    }
  }

  lemma EndLineTrims(r: Reader, a: string, b: string)
    requires TrimCr(a) == TrimCr(b)
    ensures EndLine(r.(line := a)) == EndLine(r.(line := b))
  {
  }

  lemma ReadWire(r: Reader, l: Line)
    requires r.line == "" && Plain(l.text)
    ensures ReadText(r, Wire(l)) == EndLine(r.(line := l.text))
  {
    var t, u := l.text, l.text + [CR];
    assert u[..|t|] == t && TrimCr(u) == TrimCr(t);
    hide EndLine, ReadText, TrimCr;
    assert "" + t == t && "" + u == u;
    if l.crlf {
      assert Wire(l) == u + [LF];
      ReadLine(r, u);
      EndLineTrims(r, u, t);
    } else {
      ReadLine(r, t);
    }
  }

  /** A line that is no field of interest in the code's form is none to the standard either. */
  lemma LineStep(line: string, kind: string, values: seq<string>, events: seq<Event>, others: seq<Event>)
    requires Plain(line) && Spaced(line) && line != ""
    ensures var (name, value) := NameAndValue(line);
            var k, vs := if name == "event" then value else kind, if name == "data" then values + [value] else values;
            EndLine(Reader(line, kind, Kept(values), events)) == Reader("", k, Kept(vs), events) &&
            StandardLine(Standard(kind, Joined(values), others), line) == Standard(k, Joined(vs), others)
  {
    assert line[|line| - 1] != CR && TrimCr(line) == line;
    if EVENT_FIELD <= line {
      var v := line[|EVENT_FIELD|..];
      assert line == EVENT_FIELD + v;
      FieldsOfALine(v);
    } else if DATA_FIELD <= line {
      var v := line[|DATA_FIELD|..];
      assert line == DATA_FIELD + v;
      FieldsOfALine(v);
      assert (values + [v])[..|values|] == values;
    }
  }

  lemma BlankStep(b: Block, events: seq<Event>, others: seq<Event>)
    ensures EndLine(Reader("", b.kind, Kept(b.values), events)) ==
            Reader("", "", "", events + Dispatched(b.kind, Kept(b.values)))
    ensures StandardLine(Standard(b.kind, Joined(b.values), others), "") == Standard("", "", others + StandardEvents(b))
  {
    if b.values != [] {
      JoinedIsLonger(b.values);
    }
  }

  lemma {:induction false} LinesAreCollected(lines: seq<Line>)
    requires forall i :: 0 <= i < |lines| ==> Plain(lines[i].text) && Spaced(lines[i].text)
    ensures var c := Collect(lines);
            ReadText(START, Unlines(lines)) == Reader("", c.open.kind, Kept(c.open.values), CodeEvents(c.closed)) &&
            StandardLines(STANDARD_START, lines) ==
            Standard(c.open.kind, Joined(c.open.values), AllStandardEvents(c.closed))
  {
    if lines != [] {
      hide EndLine, StandardLine, NameAndValue, Plain, Spaced, Wire, Dispatched, StandardEvents, Kept, Joined;
      var front, last := lines[..|lines| - 1], lines[|lines| - 1];
      var c := Collect(front);
      var r := Reader("", c.open.kind, Kept(c.open.values), CodeEvents(c.closed));
      LinesAreCollected(front);
      ReadConcat(START, Unlines(front), Wire(last));
      ReadWire(r, last);
      if last.text == "" {
        BlankStep(c.open, CodeEvents(c.closed), AllStandardEvents(c.closed));
        assert (c.closed + [c.open])[..|c.closed|] == c.closed;
        NoValues();
      } else {
        LineStep(last.text, c.open.kind, c.open.values, CodeEvents(c.closed), AllStandardEvents(c.closed));
      }
    }
  }

  lemma NoValues()
    ensures Kept([]) == "" && Joined([]) == ""
  {
  }

  /**
    Where the code is the standard: any stream of lines with either line end, comments, other fields
    and an unfinished tail included, in which event and data fields have their space, dispatches
    what section 9.2.6 dispatches exactly when every block of a kind the client knows that a blank
    line closes has at most one data field, and not an empty one. Of several fields the code keeps
    only the last.
   */
  lemma StreamMatchesStandardWhen(lines: seq<Line>, tail: string)
    requires forall i :: 0 <= i < |lines| ==> Plain(lines[i].text) && Spaced(lines[i].text)
    requires LF !in tail
    ensures ReadText(START, Unlines(lines) + tail).events == StandardLines(STANDARD_START, lines).events <==>
            forall i :: 0 <= i < |Collect(lines).closed| ==> Faithful(Collect(lines).closed[i])
  {
    hide Plain, Spaced, Collect;
    LinesAreCollected(lines);
    ReadConcat(START, Unlines(lines), tail);
    ReadWithoutLineEnd(ReadText(START, Unlines(lines)), tail);
    EventListsAgreeWhen(Collect(lines).closed);
  }

  // ----- the inputs that part the two

  /** One more line, to the code and to the standard. */
  lemma OneMoreLine(lines: seq<Line>, l: Line, r: Reader, s: Standard)
    requires ReadText(START, Unlines(lines)) == r && StandardLines(STANDARD_START, lines) == s
    requires r.line == "" && Plain(l.text)
    ensures ReadText(START, Unlines(lines + [l])) == EndLine(r.(line := l.text))
    ensures StandardLines(STANDARD_START, lines + [l]) == StandardLine(s, l.text)
  {
    hide Plain, EndLine, StandardLine, Wire;
    assert (lines + [l])[..|lines|] == lines;
    ReadConcat(START, Unlines(lines), Wire(l));
    ReadWire(r, l);
  }

  /** The event line such a stream starts with. */
  lemma FirstEventLine(kind: string)
    requires Plain(kind)
    ensures ReadText(START, Unlines([Line(EVENT_FIELD + kind, false)])) == Reader("", kind, "", [])
    ensures StandardLines(STANDARD_START, [Line(EVENT_FIELD + kind, false)]) == Standard(kind, "", [])
  {
    var e := EVENT_FIELD + kind;
    hide NameAndValue;
    FieldsOfALine(kind);
    assert Plain(e) && [] + [Line(e, false)] == [Line(e, false)];
    OneMoreLine([], Line(e, false), START, STANDARD_START);
    assert TrimCr(e) == e && e[|EVENT_FIELD|..] == kind;
  }

  /** A spaced data line. */
  lemma OneMoreDataLine(lines: seq<Line>, v: string, r: Reader, s: Standard)
    requires ReadText(START, Unlines(lines)) == r && StandardLines(STANDARD_START, lines) == s
    requires r.line == "" && Plain(v)
    ensures ReadText(START, Unlines(lines + [Line(DATA_FIELD + v, false)])) == r.(data := v)
    ensures StandardLines(STANDARD_START, lines + [Line(DATA_FIELD + v, false)]) == s.(data := s.data + v + [LF])
  {
    var d := DATA_FIELD + v;
    hide NameAndValue;
    FieldsOfALine(v);
    assert Plain(d);
    OneMoreLine(lines, Line(d, false), r, s);
    assert TrimCr(d) == d && d[|DATA_FIELD|..] == v && d[0] != EVENT_FIELD[0];
  }

  /** Of two data fields the standard joins, the code keeps the second. */
  lemma SecondDataLineReplacesFirst(kind: string, x: string, y: string)
    requires kind in KINDS && Plain(kind) && Plain(x) && Plain(y) && y != ""
    ensures var lines := [Line(EVENT_FIELD + kind, false)] + [Line(DATA_FIELD + x, false)] +
                         [Line(DATA_FIELD + y, false)] + [Line("", false)];
            ReadText(START, Unlines(lines)).events == [Event(kind, y)] &&
            StandardLines(STANDARD_START, lines).events == [Event(kind, x + [LF] + y)]
  {
    hide EndLine, StandardLine, Unlines, StandardLines, ReadText;
    var e, d := [Line(EVENT_FIELD + kind, false)], [Line(DATA_FIELD + x, false)];
    var r, s := Reader("", kind, "", []), Standard(kind, "", []);
    FirstEventLine(kind);
    OneMoreDataLine(e, x, r, s);
    OneMoreDataLine(e + d, y, r.(data := x), s.(data := "" + x + [LF]));
    var joined := "" + x + [LF] + y + [LF];
    OneMoreLine(e + d + [Line(DATA_FIELD + y, false)], Line("", false), r.(data := y), s.(data := joined));
    BlankAfter(kind, y, joined, x + [LF] + y);
  }

  lemma BlankAfter(kind: string, data: string, buffer: string, joined: string)
    requires kind in KINDS && buffer == joined + [LF]
    ensures EndLine(Reader("", kind, data, [])).events == if data == "" then [] else [Event(kind, data)]
    ensures StandardLine(Standard(kind, buffer, []), "").events == [Event(kind, joined)]
  {
  }

  /** A data field without the space is data to the standard and nothing to the code: `Spaced` is needed. */
  lemma MissingSpaceIsLost(kind: string, x: string)
    requires kind in KINDS && Plain(kind) && Plain(x) && x != "" && x[0] != ' '
    ensures var lines := [Line(EVENT_FIELD + kind, false)] + [Line("data:" + x, false)] + [Line("", false)];
            !Spaced("data:" + x) && ReadText(START, Unlines(lines)).events == [] &&
            StandardLines(STANDARD_START, lines).events == [Event(kind, x)]
  {
    var d, e := "data:" + x, [Line(EVENT_FIELD + kind, false)];
    var r, s := Reader("", kind, "", []), Standard(kind, "", []);
    UnspacedDataLine(r, s, x);
    hide EndLine, StandardLine, Unlines, StandardLines, ReadText, NameAndValue;
    FirstEventLine(kind);
    OneMoreLine(e, Line(d, false), r, s);
    OneMoreLine(e + [Line(d, false)], Line("", false), r, s.(data := "" + x + [LF]));
    BlankAfter(kind, "", "" + x + [LF], x);
  }

  lemma UnspacedDataLine(r: Reader, s: Standard, x: string)
    requires r.line == "" && Plain(x) && x != "" && x[0] != ' '
    ensures var d := "data:" + x;
            Plain(d) && !Spaced(d) && EndLine(r.(line := d)) == r && StandardLine(s, d) == s.(data := s.data + x + [LF])
  {
    var d := "data:" + x;
    assert d[..4] == "data" && d[4] == ':' && FirstColon(d) == 4 && d[5..] == x && d[5] == x[0];
    assert NameAndValue(d) == ("data", x);
    assert d[0] != EVENT_FIELD[0] && d[5] != DATA_FIELD[5] && d[|d| - 1] != CR && TrimCr(d) == d;
  }
}
