/**
  The userspace bridge of crates/agent-daemon/src/netstack.rs: `Bridge` and the steps of
  `engine_loop` that move its bytes. What the client stream and the smoltcp socket do in each step
  is up to them and arrives as a parameter. Ghost logs record the four byte streams a bridge sits
  between.
 */
module Netstack {
  import opened Octets

  /** One nonblocking read of the client stream. */
  datatype ReadResult = Data(bytes: Bytes) | ReadEnd | ReadWouldBlock | ReadFailed

  /** One nonblocking write: at most `n` bytes are taken. */
  datatype WriteResult = Takes(n: nat) | WriteWouldBlock | WriteFailed

  /**
    What the socket offers one bridge in one tick: whether it takes bytes, how many of the
    contiguous front of the queue it is shown, how many of these it accepts (`None` for an error),
    and what it has received.
   */
  datatype SocketTurn = SocketTurn(canSend: bool, shown: nat, accepts: Option<nat>, canRecv: bool, incoming: Bytes)

  function Min(a: nat, b: nat): nat {
    if a < b then a else b
  }

  /** The front slice of a nonempty deque: a nonempty prefix of its contents. */
  function Front(q: Bytes, shown: nat): (f: Bytes)
    ensures f <= q && (q != [] ==> f != [])
  {
    q[..Min(shown + 1, |q|)]
  }

  /** The bytes a read brings to a stream that has, or has not, ended. */
  function Input(r: ReadResult, ended: bool): Bytes {
    if !ended && r.Data? then r.bytes else []
  }

  /** What a socket takes from a queue in one turn: some of the front it is shown. */
  function Taken(turn: SocketTurn, q: Bytes): (t: Bytes)
    ensures t <= q
    ensures turn.canSend && turn.accepts.Some? && turn.accepts.value > 0 && q != [] ==> t != []
  {
    var front := Front(q, turn.shown);
    if turn.canSend && turn.accepts.Some? then front[..Min(turn.accepts.value, |front|)] else []
  }

  // ----- flushing a queue into a stream

  /** The write took something. */
  predicate Effective(w: WriteResult) {
    w.Takes? && w.n > 0
  }

  /** How many bytes of `q` an effective write of its front takes. */
  function Moved(q: Bytes, w: WriteResult, shown: nat): (k: nat)
    requires q != [] && Effective(w)
    ensures 0 < k <= |q| && k <= w.n
  {
    Min(w.n, |Front(q, shown)|)
  }

  /** The outcome of flushing: how many writes took something, what they took, and what is left of the queue. */
  datatype Flushing = Flushing(taking: nat, given: Bytes, left: Bytes)

  /**
    Writing `q` from call number `i` on: every call but the last takes some of what is then the
    front, and the calls end when nothing is left or one takes nothing, blocks or fails.
   */
  function Flushed(q: Bytes, write: nat -> WriteResult, shown: nat -> nat, i: nat): (r: Flushing)
    ensures r.taking <= |r.given| && r.given + r.left == q
    decreases |q|
  {
    if q == [] || !Effective(write(i)) then Flushing(0, [], q)
    else
      var k := Moved(q, write(i), shown(i));
      var rest := Flushed(q[k..], write, shown, i + 1);
      PiecesJoin(q, k, rest.given, rest.left);
      Flushing(rest.taking + 1, q[..k] + rest.given, rest.left)
  }

  lemma PiecesJoin(q: Bytes, k: nat, given: Bytes, left: Bytes)
    requires k <= |q| && given + left == q[k..]
    ensures (q[..k] + given) + left == q
  {
    assert (q[..k] + given) + left == q[..k] + q[k..];
  }

  lemma FlushedStops(q: Bytes, write: nat -> WriteResult, shown: nat -> nat, i: nat)
    ensures q == [] || !Effective(write(i)) ==> Flushed(q, write, shown, i) == Flushing(0, [], q)
  {
  }

  lemma FlushedStep(q: Bytes, write: nat -> WriteResult, shown: nat -> nat, i: nat)
    requires q != [] && Effective(write(i))
    ensures var k, front := Moved(q, write(i), shown(i)), Front(q, shown(i));
            var rest := Flushed(q[k..], write, shown, i + 1);
            k == Min(write(i).n, |front|) && q[..k] == front[..k] &&
            Flushed(q, write, shown, i) == Flushing(rest.taking + 1, q[..k] + rest.given, rest.left)
  {
  }

  /**
    The calls one by one: `cuts[k]` bytes of the queue are gone before call `i + k`. Each of them takes
    as much as it can of the front it is shown; the one behind them, if any, takes nothing.
   */
  lemma {:induction false} FlushedCalls(q: Bytes, write: nat -> WriteResult, shown: nat -> nat, i: nat)
    returns (cuts: seq<nat>)
    ensures |cuts| > 0 && cuts[|cuts| - 1] <= |q| && CutsFlush(q, write, shown, i, cuts)
    ensures var r, n := Flushed(q, write, shown, i), |cuts| - 1;
            r.taking == n && r.given == q[..cuts[n]] && r.left == q[cuts[n]..]
    decreases |q|
  {
    if q != [] && Effective(write(i)) {
      var k := Moved(q, write(i), shown(i));
      hide CutsFlush;
      var rest := FlushedCalls(q[k..], write, shown, i + 1);
      FlushedStep(q, write, shown, i);
      hide Flushed;
      cuts := CutsFlushStep(q, write, shown, i, k, rest);
      SliceOfSlice(q, k, rest[|rest| - 1]);
    } else {
      FlushedStops(q, write, shown, i);
      hide Flushed;
      cuts := [0];
    }
  }

  lemma SliceOfSlice(q: Bytes, k: nat, m: nat)
    requires k + m <= |q|
    ensures q[..k] + q[k..][..m] == q[..k + m] && q[k..][m..] == q[k + m..]
  {
  }

  lemma CutsFlushStep(q: Bytes, write: nat -> WriteResult, shown: nat -> nat, i: nat, k: nat, rest: seq<nat>)
    returns (cuts: seq<nat>)
    requires 0 < k <= |q| && write(i).Takes? && CutsFlush(q[k..], write, shown, i + 1, rest)
    requires k == if write(i).n < shown(i) + 1 && write(i).n < |q| then write(i).n
                  else if shown(i) + 1 < |q| then shown(i) + 1 else |q|
    ensures CutsFlush(q, write, shown, i, cuts)
    ensures |rest| > 0 && |cuts| == |rest| + 1 && cuts[|cuts| - 1] == k + rest[|rest| - 1] <= |q|
  {
    cuts := [0] + seq(|rest|, j requires 0 <= j < |rest| => k + rest[j]);
    assert forall j :: 0 <= j < |rest| ==> cuts[j + 1] == k + rest[j];
    forall j | 0 <= j < |cuts| - 1
      ensures TakesAll(q, write, shown, i, cuts, j)
    {
      if j > 0 {
        assert TakesAll(q[k..], write, shown, i + 1, rest, j - 1);
        assert (i + 1) + (j - 1) == i + j && cuts[j] == k + rest[j - 1] && cuts[j + 1] == k + rest[j];
      }
    }
    assert cuts[|cuts| - 1] == k + rest[|rest| - 1] && i + (|cuts| - 1) == (i + 1) + (|rest| - 1);
  }

  /** Write `j` takes all it can of the front of what is left, and that is something. */
  predicate TakesAll(q: Bytes, write: nat -> WriteResult, shown: nat -> nat, i: nat, cuts: seq<nat>, j: nat)
    requires j < |cuts| - 1
  {
    cuts[j] < cuts[j + 1] <= |q| && write(i + j).Takes? &&
    cuts[j + 1] - cuts[j] ==
      if write(i + j).n < shown(i + j) + 1 && write(i + j).n < |q| - cuts[j] then write(i + j).n
      else if shown(i + j) + 1 < |q| - cuts[j] then shown(i + j) + 1 else |q| - cuts[j]
  }

  predicate CutsFlush(q: Bytes, write: nat -> WriteResult, shown: nat -> nat, i: nat, cuts: seq<nat>) {
    |cuts| > 0 && cuts[0] == 0 &&
    (forall j :: 0 <= j < |cuts| - 1 ==> TakesAll(q, write, shown, i, cuts, j)) &&
    var n := |cuts| - 1;
    cuts[n] <= |q| && (cuts[n] == |q| || !write(i + n).Takes? || write(i + n).n == 0)
  }

  // ----- one bridge as a value

  /**
    The queues and flags of a bridge, and what it did so far: bytes read from the client, accepted by
    the socket, received from the socket and written to the client; FINs; a failed write.
   */
  datatype State = State(toSocket: Bytes, toStream: Bytes, clientEof: bool, socketClosed: bool, read: Bytes,
                         accepted: Bytes, received: Bytes, written: Bytes, fins: nat, writeFailed: bool)

  const OPENED := State([], [], false, false, [], [], [], [], 0, false)

  /** Conservation in both directions, and one FIN at most, after everything was sent. */
  ghost predicate Conserves(s: State) {
    && s.accepted + s.toSocket == s.read
    && (!s.writeFailed ==> s.written + s.toStream == s.received)
    && s.fins == (if s.socketClosed then 1 else 0)
    && (s.socketClosed ==> s.clientEof && s.toSocket == [] && s.accepted == s.read)
  }

  /** Step 3. Nothing is read any more after the end of the client's stream or an error on it. */
  function AfterRead(s: State, r: ReadResult): State {
    var input := Input(r, s.clientEof);
    s.(toSocket := s.toSocket + input, read := s.read + input,
       clientEof := s.clientEof || r.ReadEnd? || r.ReadFailed?)
  }

  /** Step 5. The FIN goes out in the very step in which the last byte read was accepted. */
  function AfterTurn(s: State, turn: SocketTurn): State {
    var taken, incoming := Taken(turn, s.toSocket), if turn.canRecv then turn.incoming else [];
    var rest := s.toSocket[|taken|..];
    var closes := s.clientEof && rest == [] && !s.socketClosed;
    s.(toSocket := rest, accepted := s.accepted + taken, toStream := s.toStream + incoming,
       received := s.received + incoming, fins := s.fins + (if closes then 1 else 0),
       socketClosed := s.socketClosed || closes)
  }

  /** Step 6. A failing write empties the queue. */
  function AfterFlush(s: State, write: nat -> WriteResult, shown: nat -> nat): State {
    var f := Flushed(s.toStream, write, shown, 0);
    var fails := f.left != [] && write(f.taking).WriteFailed?;
    s.(toStream := if fails then [] else f.left, written := s.written + f.given,
       writeFailed := s.writeFailed || fails)
  }

  function AfterTick(s: State, r: ReadResult, turn: SocketTurn, write: nat -> WriteResult, shown: nat -> nat): State {
    AfterFlush(AfterTurn(AfterRead(s, r), turn), write, shown)
  }

  lemma PiecesAdd(a: Bytes, b: Bytes, c: Bytes)
    ensures (a + b) + c == a + (b + c)
  {
  }

  /** What a socket takes: the smaller of what it accepts and the front it is shown. */
  lemma TakenIs(turn: SocketTurn, q: Bytes)
    ensures var front := if turn.shown + 1 < |q| then turn.shown + 1 else |q|;
            var sent := if !turn.canSend || turn.accepts.None? then 0
                        else if turn.accepts.value < front then turn.accepts.value else front;
            Taken(turn, q) == q[..sent] && |Taken(turn, q)| == sent
  {
  }

  lemma ReadConserves(s: State, r: ReadResult)
    requires Conserves(s)
    ensures Conserves(AfterRead(s, r))
  {
    var input := Input(r, s.clientEof);
    assert s.accepted + (s.toSocket + input) == (s.accepted + s.toSocket) + input;
    assert s.clientEof ==> s.toSocket + input == s.toSocket && s.read + input == s.read;
  }

  lemma TurnConserves(s: State, turn: SocketTurn)
    requires Conserves(s)
    ensures Conserves(AfterTurn(s, turn))
    ensures var t := AfterTurn(s, turn); t.socketClosed <==> t.clientEof && t.toSocket == []
  {
    hide Taken;
    var taken, incoming := Taken(turn, s.toSocket), if turn.canRecv then turn.incoming else [];
    var rest := s.toSocket[|taken|..];
    assert s.toSocket == taken + rest;
    PiecesAdd(s.accepted, taken, rest);
    PiecesAdd(s.written, s.toStream, incoming);
    assert rest == [] ==> (s.accepted + taken) + rest == s.accepted + taken;
  }

  lemma FlushConserves(s: State, write: nat -> WriteResult, shown: nat -> nat)
    requires Conserves(s)
    ensures Conserves(AfterFlush(s, write, shown))
  {
    var f := Flushed(s.toStream, write, shown, 0);
    PiecesAdd(s.written, f.given, f.left);
    hide Flushed;
  }

  /**
    What one tick does, whatever the client and the socket do: the input read joins the queue, the
    socket takes some of the front, a FIN goes out exactly when it is due, what arrived is queued for
    the client and given to it write by write, and nothing is lost but by a write that fails.
   */
  lemma TickMoves(s: State, r: ReadResult, turn: SocketTurn, write: nat -> WriteResult, shown: nat -> nat)
    returns (cuts: seq<nat>)
    requires Conserves(s)
    ensures var t := AfterTick(s, r, turn, write, shown);
            var q := s.toSocket + if r.Data? && !s.clientEof then r.bytes else [];
            var front := if turn.shown + 1 < |q| then turn.shown + 1 else |q|;
            var sent := if !turn.canSend || turn.accepts.None? then 0
                        else if turn.accepts.value < front then turn.accepts.value else front;
            && Conserves(t)
            && t.read == s.read + (if r.Data? && !s.clientEof then r.bytes else [])
            && (t.clientEof <==> s.clientEof || r.ReadEnd? || r.ReadFailed?)
            && t.accepted == s.accepted + q[..sent] && t.toSocket == q[sent..]
            && (t.socketClosed <==> t.clientEof && t.toSocket == []) && t.fins <= 1
    ensures |cuts| > 0 && cuts[|cuts| - 1] <= |s.toStream| + if turn.canRecv then |turn.incoming| else 0
    ensures var t := AfterTick(s, r, turn, write, shown);
            var incoming := if turn.canRecv then turn.incoming else [];
            var p, n := s.toStream + incoming, |cuts| - 1;
            && t.received == s.received + incoming && CutsFlush(p, write, shown, 0, cuts)
            && t.written == s.written + p[..cuts[n]]
            && t.toStream == (if cuts[n] < |p| && write(n).WriteFailed? then [] else p[cuts[n]..])
            && (t.writeFailed <==> s.writeFailed || (cuts[n] < |p| && write(n).WriteFailed?))
  {
    hide Flushed, CutsFlush, Conserves, Taken;
    ReadConserves(s, r);
    TakenIs(turn, AfterRead(s, r).toSocket);
    TurnConserves(AfterRead(s, r), turn);
    var u := AfterTurn(AfterRead(s, r), turn);
    FlushConserves(u, write, shown);
    OneFin(AfterTick(s, r, turn, write, shown));
    cuts := FlushedCalls(u.toStream, write, shown, 0);
  }

  lemma OneFin(s: State)
    requires Conserves(s)
    ensures s.fins <= 1
  {
  }

  // ----- the code

  class Bridge {
    var toSocket: Bytes
    var toStream: Bytes
    var clientEof: bool
    var socketClosed: bool
    ghost var read: Bytes
    ghost var accepted: Bytes
    ghost var received: Bytes
    ghost var written: Bytes
    ghost var fins: nat
    ghost var writeFailed: bool

    ghost function View(): State
      reads this
    {
      State(toSocket, toStream, clientEof, socketClosed, read, accepted, received, written, fins, writeFailed)
    }

    ghost predicate Valid()
      reads this
    {
      Conserves(View())
    }

    constructor ()
      ensures Valid() && View() == OPENED
    {
      toSocket, toStream, clientEof, socketClosed := [], [], false, false;
      read, accepted, received, written := [], [], [], [];
      fins, writeFailed := 0, false;
    }

    method ReadClient(r: ReadResult)
      requires Valid()
      modifies this
      ensures Valid() && View() == AfterRead(old(View()), r)
      ensures read == old(read) + if r.Data? && !old(clientEof) then r.bytes else []
      ensures clientEof <==> old(clientEof) || r.ReadEnd? || r.ReadFailed?
    {
      ReadConserves(View(), r);
      if clientEof {
        assert toSocket + [] == toSocket && read + [] == read;
        return;
      }
      match r {
        case ReadEnd => clientEof := true;
        case Data(bytes) =>
          toSocket := toSocket + bytes;
          read := read + bytes;
        case ReadWouldBlock =>
        case ReadFailed => clientEof := true;
      }
    }

    method Exchange(turn: SocketTurn)
      requires Valid()
      modifies this
      ensures Valid() && View() == AfterTurn(old(View()), turn)
      ensures var front := if turn.shown + 1 < |old(toSocket)| then turn.shown + 1 else |old(toSocket)|;
              var sent := if !turn.canSend || turn.accepts.None? then 0
                          else if turn.accepts.value < front then turn.accepts.value else front;
              accepted == old(accepted) + old(toSocket)[..sent] && toSocket == old(toSocket)[sent..]
      ensures socketClosed <==> clientEof && toSocket == []
    {
      TurnConserves(View(), turn);
      TakenIs(turn, toSocket);
      hide Conserves, Taken, Front;
      Send(turn);
      if clientEof && toSocket == [] && !socketClosed {
        fins := fins + 1;
        socketClosed := true;
      }
      if turn.canRecv {
        toStream := toStream + turn.incoming;
        received := received + turn.incoming;
      }
    }

    /** The client-to-socket half of step 5. */
    method Send(turn: SocketTurn)
      modifies this`toSocket, this`accepted
      ensures accepted == old(accepted) + Taken(turn, old(toSocket))
      ensures toSocket == old(toSocket)[|Taken(turn, old(toSocket))|..]
    {
      if turn.canSend && toSocket != [] {
        var front := Front(toSocket, turn.shown);
        if front != [] {
          if turn.accepts.Some? {
            var sent := Min(turn.accepts.value, |front|);
            accepted := accepted + front[..sent];
            toSocket := toSocket[sent..];
          }
        }
      }
    }

    /** Writes go on until the client stream takes nothing, blocks or fails. */
    method Flush(write: nat -> WriteResult, shown: nat -> nat) returns (ghost calls: nat, ghost cuts: seq<nat>)
      requires Valid()
      modifies this
      ensures Valid() && View() == AfterFlush(old(View()), write, shown)
      ensures |cuts| > 0 && cuts[|cuts| - 1] <= |old(toStream)| && CutsFlush(old(toStream), write, shown, 0, cuts)
      ensures var n := |cuts| - 1;
              calls == n + (if cuts[n] == |old(toStream)| then 0 else 1) &&
              written == old(written) + old(toStream)[..cuts[n]]
      ensures toStream != [] ==> calls > 0 && (write(calls - 1) == Takes(0) || write(calls - 1).WriteWouldBlock?)
      ensures writeFailed && !old(writeFailed) ==> calls > 0 && write(calls - 1).WriteFailed?
    {
      FlushConserves(View(), write, shown);
      cuts := FlushedCalls(toStream, write, shown, 0);
      hide Conserves, Flushed, CutsFlush;
      calls := WriteQueue(write, shown);
    }

    method WriteQueue(write: nat -> WriteResult, shown: nat -> nat) returns (ghost calls: nat)
      modifies this`toStream, this`written, this`writeFailed
      ensures var f := Flushed(old(toStream), write, shown, 0);
              var fails := f.left != [] && write(f.taking).WriteFailed?;
              && calls == f.taking + (if f.left == [] then 0 else 1) && written == old(written) + f.given
              && toStream == (if fails then [] else f.left) && (writeFailed <==> old(writeFailed) || fails)
      ensures toStream != [] ==> calls > 0 && (write(calls - 1) == Takes(0) || write(calls - 1).WriteWouldBlock?)
      ensures writeFailed && !old(writeFailed) ==> calls > 0 && write(calls - 1).WriteFailed?
    {
      hide Flushed, Front, Moved;
      ghost var f, given: Bytes := Flushed(toStream, write, shown, 0), [];
      var i := 0;
      calls := 0;
      assert written + [] == written && [] + f.given == f.given;
      while true
        invariant i + Flushed(toStream, write, shown, i).taking == f.taking
        invariant given + Flushed(toStream, write, shown, i).given == f.given
        invariant Flushed(toStream, write, shown, i).left == f.left
        invariant written == old(written) + given && writeFailed == old(writeFailed)
        decreases |toStream|
      {
        FlushedStops(toStream, write, shown, i);
        assert given + [] == given;
        var front := Front(toStream, shown(i));
        if front == [] {
          calls := i;
          break;
        }
        calls := i + 1;
        match write(i) {
          case Takes(n) =>
            if n == 0 {
              break;
            }
            var k := Min(n, |front|);
            FlushedStep(toStream, write, shown, i);
            PiecesAdd(given, front[..k], Flushed(toStream[k..], write, shown, i + 1).given);
            PiecesAdd(old(written), given, front[..k]);
            given := given + front[..k];
            written := written + front[..k];
            toStream := toStream[k..];
          case WriteWouldBlock =>
            break;
          case WriteFailed =>
            toStream := [];
            writeFailed := true;
            break;
        }
        i := i + 1;
      }
    }

    /** Step 9: when the socket is done and the client has been given everything. */
    predicate Finished(socketDone: bool)
      reads this
    {
      socketDone && toStream == []
    }

    /** What a finished bridge did: every byte received was delivered, unless a write failed. */
    ghost predicate DeliveredAll()
      reads this
    {
      (writeFailed || written == received) && (socketClosed ==> accepted == read && fins == 1)
    }

    twostate predicate Untouched()
      reads this
    {
      unchanged(this)
    }
  }

  lemma FinishedHasDelivered(b: Bridge, socketDone: bool)
    requires b.Valid() && b.Finished(socketDone)
    ensures b.DeliveredAll()
  {
    assert b.written + [] == b.written;
  }

  /** The bridges of one engine; a tick takes each of them through the steps in the code's order. */
  class Engine {
    var bridges: seq<Bridge>

    ghost predicate Valid()
      reads this, bridges
    {
      (forall i, j :: 0 <= i < j < |bridges| ==> bridges[i] != bridges[j]) &&
      forall b :: b in bridges ==> b.Valid()
    }

    constructor ()
      ensures Valid() && bridges == []
    {
      bridges := [];
    }

    /** Step 2: a connection the socket agreed to open becomes a bridge. */
    method Accept(connects: bool)
      requires Valid()
      modifies this
      ensures Valid()
      ensures if connects then |bridges| == |old(bridges)| + 1 && bridges[..|old(bridges)|] == old(bridges) &&
                              fresh(bridges[|old(bridges)|]) && bridges[|old(bridges)|].View() == OPENED
              else bridges == old(bridges)
    {
      if connects {
        var b := new Bridge();
        bridges := bridges + [b];
      }
    }

    method ReadAll(read: Bridge -> ReadResult)
      requires Valid()
      modifies bridges
      ensures Valid() && forall b :: b in bridges ==> b.View() == AfterRead(old(b.View()), read(b))
    {
      hide Conserves, AfterRead;
      for i := 0 to |bridges|
        invariant Valid()
        invariant forall j :: 0 <= j < i ==> bridges[j].View() == AfterRead(old(bridges[j].View()), read(bridges[j]))
        invariant forall j :: i <= j < |bridges| ==> bridges[j].Untouched()
      {
        bridges[i].ReadClient(read(bridges[i]));
      }
    }

    method ExchangeAll(turn: Bridge -> SocketTurn)
      requires Valid()
      modifies bridges
      ensures Valid() && forall b :: b in bridges ==> b.View() == AfterTurn(old(b.View()), turn(b))
    {
      hide Conserves, AfterTurn;
      for i := 0 to |bridges|
        invariant Valid()
        invariant forall j :: 0 <= j < i ==> bridges[j].View() == AfterTurn(old(bridges[j].View()), turn(bridges[j]))
        invariant forall j :: i <= j < |bridges| ==> bridges[j].Untouched()
      {
        bridges[i].Exchange(turn(bridges[i]));
      }
    }

    method FlushAll(write: Bridge -> nat -> WriteResult, shown: nat -> nat)
      requires Valid()
      modifies bridges
      ensures Valid() && forall b :: b in bridges ==> b.View() == AfterFlush(old(b.View()), write(b), shown)
    {
      hide Conserves, AfterFlush;
      for i := 0 to |bridges|
        invariant Valid()
        invariant forall j :: 0 <= j < i ==>
                    bridges[j].View() == AfterFlush(old(bridges[j].View()), write(bridges[j]), shown)
        invariant forall j :: i <= j < |bridges| ==> bridges[j].Untouched()
      {
        ghost var _, _ := bridges[i].Flush(write(bridges[i]), shown);
      }
    }

    /**
      Steps 3, 5, 6 and 9: every bridge is taken through one tick, as `TickMoves` says; exactly the
      finished ones are let go, each with everything delivered unless its client refused it.
     */
    method Tick(read: Bridge -> ReadResult, turn: Bridge -> SocketTurn, write: Bridge -> nat -> WriteResult,
                shown: nat -> nat, socketDone: Bridge -> bool) returns (reaped: seq<Bridge>)
      requires Valid()
      modifies this, bridges
      ensures Valid()
      ensures forall b :: b in old(bridges) <==> b in bridges || b in reaped
      ensures forall b :: b in reaped ==> b.Valid() && b.Finished(socketDone(b)) && b.DeliveredAll()
      ensures forall b :: b in bridges ==> !b.Finished(socketDone(b))
      ensures forall b :: b in old(bridges) ==> b.View() == AfterTick(old(b.View()), read(b), turn(b), write(b), shown)
    {
      hide Conserves, AfterRead, AfterTurn, AfterFlush;
      ReadAll(read);
      ExchangeAll(turn);
      FlushAll(write, shown);
      reaped := Reap(socketDone);
    }

    /** Step 9: `bridges.retain(…)`. */
    method Reap(socketDone: Bridge -> bool) returns (reaped: seq<Bridge>)
      requires Valid()
      modifies this
      ensures Valid()
      ensures forall b :: b in old(bridges) <==> b in bridges || b in reaped
      ensures forall b :: b in reaped ==> b.Valid() && b.Finished(socketDone(b)) && b.DeliveredAll()
      ensures forall b :: b in bridges ==> !b.Finished(socketDone(b))
    {
      forall b | b in bridges && b.Finished(socketDone(b))
        ensures b.DeliveredAll()
      {
        FinishedHasDelivered(b, socketDone(b));
      }
      hide Conserves;
      var kept: seq<Bridge> := [];
      reaped := [];
      for i := 0 to |bridges|
        invariant forall b :: b in bridges[..i] <==> b in kept || b in reaped
        invariant forall j, k :: 0 <= j < k < |kept| ==> kept[j] != kept[k]
        invariant forall b :: b in reaped ==> b.Finished(socketDone(b)) && b.DeliveredAll()
        invariant forall b :: b in kept ==> !b.Finished(socketDone(b))
      {
        var b := bridges[i];
        assert bridges[..i + 1] == bridges[..i] + [b];
        assert b !in bridges[..i];
        if b.Finished(socketDone(b)) {
          reaped := reaped + [b];
        } else {
          kept := kept + [b];
        }
      }
      assert bridges[..|bridges|] == bridges;
      bridges := kept;
    }
  }
}
