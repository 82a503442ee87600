/**
  The exec gate of crates/agent-core/src/ssh_server.rs: `ConnHandler` as one connection's state
  under any sequence of env, pty, exec, shell and data requests and process exits. What a request does is
  a function on connections, `Step`; the handler's methods are proved against it, and the theorems
  about whole runs are about it.
 */
module ExecGate {
  import opened Octets
  import opened CmdGrant
  import opened ExecOutcome

  const ELEVATE_GRANT_ENV := "ANKAYMA_ELEVATE_GRANT"
  const CMD_GRANT_ENV := "ANKAYMA_CMD_GRANT"
  const SESSION_GRANT_ENV := "ANKAYMA_SESSION_GRANT"

  const XTERM: Bytes := [120, 116, 101, 114, 109]

  /** What a node runs for a client: a granted command, a shell given the client's own line, or a terminal session. */
  datatype Run = Granted(command: Command) | ShellLine(elevated: bool, line: Bytes) | Interactive(elevated: bool)

  /** A spawned process and what its exit report will carry. */
  datatype Process = Process(run: Run, killAt: Option<int>, grantId: Option<Bytes>)

  /** The circumstances a process was spawned in: the grant tokens set at that time, if any. */
  datatype Launch = Launch(token: Option<Bytes>, elevateToken: Option<Bytes>, sessionToken: Option<Bytes>, now: int)

  /** The part of the node's configuration a connection consults; absent verifiers are `None`. */
  datatype Node = Node(lib: Libraries, cmdVerifier: Option<Bytes>, sessionVerifier: Option<(Bytes, int) -> bool>,
                       elevate: Option<(Bytes, int) -> Option<int>>, forcedProgram: bool, nodeId: Option<Bytes>,
                       grantIdOf: Bytes -> Option<Bytes>)

  // ----- grants

  /** The grant a token authorises on this node now. */
  function GrantNow(node: Node, token: Bytes, now: int): (r: Option<CommandGrant>)
    ensures forall g :: r == Some(g) <==>
                        node.cmdVerifier.Some? && Authorises(node.lib, node.cmdVerifier.value, token, now, g)
  {
    var payload := SignedPayload(node.lib, token);
    if node.cmdVerifier.None? || payload.None? then None
    else
      var g := node.lib.parseGrant(payload.value);
      if g.Some? && Authorises(node.lib, node.cmdVerifier.value, token, now, g.value) then g else None
  }

  /** The environment `KEY=VALUE` entries make: the last one of each key. */
  function EnvMap(entries: seq<Bytes>): (m: map<Bytes, Bytes>)
    ensures forall k :: (if k in m then Some(m[k]) else None) == EnvValue(entries, k)
  {
    if entries == [] then map[]
    else
      var m := EnvMap(entries[..|entries| - 1]);
      match SplitOnce(entries[|entries| - 1], 61)
      case None => m
      case Some(p) => m[p.before := p.after]
  }

  /** The process a grant describes, built without a shell. */
  function CommandOf(g: CommandGrant): Command {
    Command(g.spec.argv, g.spec.cwd, EnvMap(g.spec.env))
  }

  lemma SameVariablesSameEnvironment(m: map<Bytes, Bytes>, n: map<Bytes, Bytes>)
    requires forall k :: (if k in m then Some(m[k]) else None) == (if k in n then Some(n[k]) else None)
    ensures m == n
  {
    assert forall k :: k in m <==> k in n;
  }

  function TerminationReason(r: Refusal): string {
    if r == DigestMismatch then "rejected_digest_mismatch" else "failed"
  }

  datatype ElevationDecision = NoElevation | Elevated(expiresAt: int) | Denied

  /** `decide_elevation`: any problem denies. */
  function DecideElevation(verifier: Option<(Bytes, int) -> Option<int>>, presented: Option<Bytes>, now: int)
    : ElevationDecision
  {
    if verifier.None? || presented.None? then NoElevation
    else
      match verifier.value(presented.value, now)
      case None => Denied
      case Some(expiry) => Elevated(expiry)
  }

  // ----- one connection

  /** The process `writer` is the one client data goes to; `fed` is what each process was given on its stdin. */
  datatype Conn = Conn(elevateToken: Option<Bytes>, cmdToken: Option<Bytes>, sessionToken: Option<Bytes>,
                       active: Option<CommandGrant>, term: Bytes, writer: Option<nat>,
                       processes: seq<Process>, launches: seq<Launch>, fed: seq<Bytes>)

  const FRESH := Conn(None, None, None, None, XTERM, None, [], [], [])

  /**
    A request of the client with what the environment makes of it: whether the landing user can be
    provisioned, whether the process can be started, how many octets its stdin takes.
   */
  datatype Request =
    | Env(name: string, value: Bytes)
    | Pty(term: Bytes)
    | Exec(line: Bytes, now: int, provisioned: bool, spawns: bool)
    | Shell(now: int, starts: bool)
    | Data(bytes: Bytes, taken: nat)
    | Eof

  /** `admit_session_grant`: absent is no obstacle, unverifiable is. */
  predicate Admitted(node: Node, session: Option<Bytes>, now: int) {
    session.None? || (node.sessionVerifier.Some? && node.sessionVerifier.value(session.value, now))
  }

  function Moment(s: Conn, now: int): Launch {
    Launch(s.cmdToken, s.elevateToken, s.sessionToken, now)
  }

  function Launched(s: Conn, p: Process, now: int): Conn {
    s.(processes := s.processes + [p], launches := s.launches + [Moment(s, now)],
       fed := s.fed + [[]], writer := Some(|s.processes|))
  }

  function ActiveId(active: Option<CommandGrant>): Option<Bytes> {
    if active.Some? then Some(active.value.grantId) else None
  }

  function KillAt(d: ElevationDecision): Option<int> {
    if d.Elevated? then Some(d.expiresAt) else None
  }

  /** Client data: whatever process was started last takes it, until the client ends its input. */
  function Written(s: Conn, bytes: Bytes, taken: nat): Conn {
    if s.writer.None? || s.writer.value >= |s.fed| then s
    else
      var i := s.writer.value;
      s.(fed := s.fed[i := s.fed[i] + if taken < |bytes| then bytes[..taken] else bytes])
  }

  /** An exec under a command token: the granted command or nothing. */
  function ExecUnderToken(node: Node, s: Conn, now: int, spawns: bool): Conn
    requires s.cmdToken.Some?
  {
    match GrantNow(node, s.cmdToken.value, now)
    case None => s
    case Some(g) =>
      var t := s.(active := Some(g));
      if spawns then Launched(t, Process(Granted(CommandOf(g)), None, Some(g.grantId)), now) else t
  }

  function Step(node: Node, s: Conn, r: Request): Conn {
    match r
    case Env(name, value) =>
      if name == ELEVATE_GRANT_ENV then s.(elevateToken := Some(value))
      else if name == CMD_GRANT_ENV then s.(cmdToken := Some(value))
      else if name == SESSION_GRANT_ENV then s.(sessionToken := Some(value))
      else s
    case Pty(term) => if s.cmdToken.Some? then s else s.(term := if term == [] then XTERM else term)
    case Exec(line, now, provisioned, spawns) =>
      if !Admitted(node, s.sessionToken, now) then s
      else if s.cmdToken.Some? then ExecUnderToken(node, s, now, spawns)
      else
        var d := DecideElevation(node.elevate, s.elevateToken, now);
        if !spawns || (!d.Elevated? && (node.forcedProgram || !provisioned)) then s
        else Launched(s, Process(ShellLine(d.Elevated?, line), KillAt(d), ActiveId(s.active)), now)
    case Shell(now, starts) =>
      if !Admitted(node, s.sessionToken, now) || !starts then s
      else
        var d := DecideElevation(node.elevate, s.elevateToken, now);
        Launched(s, Process(Interactive(d.Elevated?), KillAt(d), None), now)
    case Data(bytes, taken) => Written(s, bytes, taken)
    case Eof => s.(writer := None)
  }

  function RunAll(node: Node, s: Conn, rs: seq<Request>): Conn
    decreases |rs|
  {
    if rs == [] then s else RunAll(node, Step(node, s, rs[0]), rs[1..])
  }

  // ----- what every run keeps

  /** The elevation verifier took the token presented at that moment, until the time it returned. */
  predicate ElevatedUntil(node: Node, l: Launch, expiry: Option<int>) {
    if node.elevate.None? || l.elevateToken.None? then expiry == None
    else expiry == node.elevate.value(l.elevateToken.value, l.now)
  }

  /**
    No process starts against a session token that does not verify. A granted process is the one its
    token authorised when it was spawned, is never elevated and reports that very grant. A client's
    own line runs only without a token. That line and a terminal session are elevated exactly when a
    verifier is configured and takes the elevation token presented at that moment, and are then
    killed at the expiry it returned; unelevated, a line never runs on a node with a forced program.
    Nothing but a granted process reports.
   */
  predicate Justified(node: Node, p: Process, l: Launch) {
    (l.sessionToken.Some? ==>
       node.sessionVerifier.Some? && node.sessionVerifier.value(l.sessionToken.value, l.now)) &&
    match p.run
    case Granted(command) =>
      l.token.Some? && p.killAt == None &&
      var g := GrantNow(node, l.token.value, l.now);
      g.Some? && command == CommandOf(g.value) && p.grantId == Some(g.value.grantId)
    case ShellLine(elevated, _) =>
      l.token.None? && p.grantId == None && ElevatedUntil(node, l, p.killAt) && (elevated <==> p.killAt.Some?) &&
      (!elevated ==> !node.forcedProgram)
    case Interactive(elevated) =>
      p.grantId == None && ElevatedUntil(node, l, p.killAt) && (elevated <==> p.killAt.Some?)
  }

  ghost predicate Sound(node: Node, s: Conn) {
    && |s.launches| == |s.processes| == |s.fed| && (s.writer.Some? ==> s.writer.value < |s.fed|)
    && (forall i :: 0 <= i < |s.processes| ==> Justified(node, s.processes[i], s.launches[i]))
    && (s.cmdToken.None? ==> s.active.None?)
  }

  lemma LaunchKeepsSound(node: Node, s: Conn, p: Process, now: int)
    requires Sound(node, s) && Justified(node, p, Moment(s, now))
    ensures Sound(node, Launched(s, p, now))
    ensures s.processes <= Launched(s, p, now).processes && s.launches <= Launched(s, p, now).launches
  {
    hide Justified;
  }

  lemma JustifiedWithoutGrant(node: Node, s: Conn, p: Process, now: int)
    requires Admitted(node, s.sessionToken, now)
    requires var d := DecideElevation(node.elevate, s.elevateToken, now);
             p.killAt == KillAt(d) && p.grantId == None &&
             (p.run == Interactive(d.Elevated?) ||
              (s.cmdToken.None? && p.run.ShellLine? && p.run.elevated == d.Elevated? &&
               (d.Elevated? || !node.forcedProgram)))
    ensures Justified(node, p, Moment(s, now))
  {
  }

  lemma ExecKeepsSound(node: Node, s: Conn, now: int, spawns: bool)
    requires Sound(node, s) && s.cmdToken.Some? && Admitted(node, s.sessionToken, now)
    ensures var t := ExecUnderToken(node, s, now, spawns);
            Sound(node, t) && t.cmdToken == s.cmdToken && s.processes <= t.processes && s.launches <= t.launches
  {
    hide GrantNow, CommandOf;
    var g := GrantNow(node, s.cmdToken.value, now);
    if g.Some? && spawns {
      var p := Process(Granted(CommandOf(g.value)), None, Some(g.value.grantId));
      LaunchKeepsSound(node, s.(active := g), p, now);
    }
  }

  lemma StepKeepsSound(node: Node, s: Conn, r: Request)
    requires Sound(node, s)
    ensures Sound(node, Step(node, s, r)) && (s.cmdToken.Some? ==> Step(node, s, r).cmdToken.Some?)
    ensures s.processes <= Step(node, s, r).processes && s.launches <= Step(node, s, r).launches
  {
    hide DecideElevation, ExecUnderToken, Justified, Admitted;
    if (r.Exec? || r.Shell?) && Admitted(node, s.sessionToken, r.now) {
      if r.Exec? && s.cmdToken.Some? {
        ExecKeepsSound(node, s, r.now, r.spawns);
      } else {
        var d := DecideElevation(node.elevate, s.elevateToken, r.now);
        var run := if r.Exec? then ShellLine(d.Elevated?, r.line) else Interactive(d.Elevated?);
        var p := Process(run, KillAt(d), None);
        if Step(node, s, r) != s {
          JustifiedWithoutGrant(node, s, p, r.now);
          LaunchKeepsSound(node, s, p, r.now);
        }
      }
    }
  }

  /** Whatever is requested, in whatever order: every process ever spawned is justified by the token of its moment. */
  lemma {:induction false} RunsAreSound(node: Node, s: Conn, rs: seq<Request>)
    requires Sound(node, s)
    ensures Sound(node, RunAll(node, s, rs))
    ensures s.processes <= RunAll(node, s, rs).processes && s.launches <= RunAll(node, s, rs).launches
    decreases |rs|
  {
    if rs != [] {
      hide Sound, Step;
      StepKeepsSound(node, s, rs[0]);
      RunsAreSound(node, Step(node, s, rs[0]), rs[1..]);
    }
  }

  // ----- nothing but granted commands under a token

  /** Every process spawned under a token is a granted one. */
  predicate Confined(s: Conn) {
    |s.launches| == |s.processes| &&
    forall i :: 0 <= i < |s.processes| && s.launches[i].token.Some? ==> s.processes[i].run.Granted?
  }

  /** A terminal session starts although a command token is set: `shell_request` does not look at it. */
  predicate OpensShell(node: Node, s: Conn, r: Request) {
    r.Shell? && r.starts && s.cmdToken.Some? && Admitted(node, s.sessionToken, r.now)
  }

  predicate NeverOpensShell(node: Node, s: Conn, rs: seq<Request>)
    decreases |rs|
  {
    rs == [] || (!OpensShell(node, s, rs[0]) && NeverOpensShell(node, Step(node, s, rs[0]), rs[1..]))
  }

  lemma StepStaysConfined(node: Node, s: Conn, r: Request)
    requires Sound(node, s) && Confined(s)
    ensures Confined(Step(node, s, r)) <==> !OpensShell(node, s, r)
  {
    hide GrantNow, CommandOf, Justified;
    var t := Step(node, s, r);
    if |t.processes| > |s.processes| {
      assert t.processes == s.processes + [t.processes[|s.processes|]];
      assert t.launches == s.launches + [t.launches[|s.processes|]];
    }
  }

  lemma {:induction false} NeverConfinedAgain(node: Node, s: Conn, rs: seq<Request>)
    requires Sound(node, s) && !Confined(s)
    ensures !Confined(RunAll(node, s, rs))
  {
    RunsAreSound(node, s, rs);
    var t := RunAll(node, s, rs);
    var i :| 0 <= i < |s.processes| && s.launches[i].token.Some? && !s.processes[i].run.Granted?;
    assert t.processes[i] == s.processes[i] && t.launches[i] == s.launches[i];
  }

  /**
    The promise that a command token never becomes a session holds of a run exactly when no admitted
    shell request starts a terminal session once the token is set.
   */
  lemma {:induction false} ConfinedExactlyWhen(node: Node, s: Conn, rs: seq<Request>)
    requires Sound(node, s) && Confined(s)
    ensures Confined(RunAll(node, s, rs)) <==> NeverOpensShell(node, s, rs)
    decreases |rs|
  {
    if rs != [] {
      hide Sound, Confined, OpensShell, Step;
      StepKeepsSound(node, s, rs[0]);
      StepStaysConfined(node, s, rs[0]);
      if OpensShell(node, s, rs[0]) {
        NeverConfinedAgain(node, Step(node, s, rs[0]), rs[1..]);
      } else {
        ConfinedExactlyWhen(node, Step(node, s, rs[0]), rs[1..]);
      }
    }
  }

  lemma ThreeRequests(node: Node, s: Conn, a: Request, b: Request, c: Request)
    ensures RunAll(node, s, [a, b, c]) == Step(node, Step(node, Step(node, s, a), b), c)
  {
    hide Step;
    assert [a, b, c][1..] == [b, c] && [b, c][1..] == [c] && [c][1..] == [];
    var t := Step(node, s, a);
    assert RunAll(node, t, [b, c]) == RunAll(node, Step(node, t, b), [c]);
    assert RunAll(node, Step(node, t, b), [c]) == RunAll(node, Step(node, Step(node, t, b), c), []);
  }

  /** The run that breaks it: a token, its command, and then a terminal session on the same connection. */
  lemma ShellBesideAGrant(node: Node, token: Bytes, line: Bytes, now: int, g: CommandGrant)
    requires GrantNow(node, token, now) == Some(g)
    ensures var s := RunAll(node, FRESH, [Env(CMD_GRANT_ENV, token), Exec(line, now, true, true), Shell(now, true)]);
            |s.processes| == 2 && s.processes[0].run == Granted(CommandOf(g)) && s.processes[1].run.Interactive? &&
            s.launches == [Launch(Some(token), None, None, now), Launch(Some(token), None, None, now)] &&
            !Confined(s)
  {
    hide GrantNow, CommandOf;
    var a, b, c := Env(CMD_GRANT_ENV, token), Exec(line, now, true, true), Shell(now, true);
    ThreeRequests(node, FRESH, a, b, c);
    var s := Step(node, Step(node, Step(node, FRESH, a), b), c);
    assert s.launches[1].token.Some? && !s.processes[1].run.Granted?;
  }

  // ----- how often a grant is used

  /** What is counted: the uses of one token, or of one grant under whatever token. */
  datatype Which = ByToken(token: Bytes) | ByGrant(grantId: Bytes)

  predicate Selects(which: Which, token: Option<Bytes>, grantId: Option<Bytes>) {
    match which
    case ByToken(t) => token == Some(t)
    case ByGrant(id) => grantId == Some(id)
  }

  /** The granted processes started. */
  function Uses(s: Conn, which: Which): nat
    requires |s.launches| == |s.processes|
  {
    UsesWithin(s.processes, s.launches, which)
  }

  function UsesWithin(ps: seq<Process>, ls: seq<Launch>, which: Which): nat
    requires |ps| == |ls|
  {
    if ps == [] then 0
    else
      var n := |ps| - 1;
      UsesWithin(ps[..n], ls[..n], which) +
      if ps[n].run.Granted? && Selects(which, ls[n].token, ps[n].grantId) then 1 else 0
  }

  /** An exec request, made while a token is set, is admitted, finds the token good and can be spawned. */
  predicate Executes(node: Node, s: Conn, r: Request, which: Which) {
    r.Exec? && r.spawns && s.cmdToken.Some? && Admitted(node, s.sessionToken, r.now) &&
    var g := GrantNow(node, s.cmdToken.value, r.now);
    g.Some? && Selects(which, s.cmdToken, Some(g.value.grantId))
  }

  function Executions(node: Node, s: Conn, rs: seq<Request>, which: Which): nat
    decreases |rs|
  {
    if rs == [] then 0
    else (if Executes(node, s, rs[0], which) then 1 else 0) + Executions(node, Step(node, s, rs[0]), rs[1..], which)
  }

  lemma StepCountsUses(node: Node, s: Conn, r: Request, which: Which)
    requires Sound(node, s)
    ensures |Step(node, s, r).launches| == |Step(node, s, r).processes|
    ensures Uses(Step(node, s, r), which) == Uses(s, which) + if Executes(node, s, r, which) then 1 else 0
  {
    hide GrantNow, CommandOf, Justified, DecideElevation, Selects;
    var t, n := Step(node, s, r), |s.processes|;
    if |t.processes| > n {
      assert t.processes[..n] == s.processes && t.launches[..n] == s.launches;
    }
  }

  lemma {:induction false} RunsCountUses(node: Node, s: Conn, rs: seq<Request>, which: Which)
    requires Sound(node, s)
    ensures |RunAll(node, s, rs).launches| == |RunAll(node, s, rs).processes|
    ensures Uses(RunAll(node, s, rs), which) == Uses(s, which) + Executions(node, s, rs, which)
    decreases |rs|
  {
    if rs != [] {
      StepKeepsSound(node, s, rs[0]);
      StepCountsUses(node, s, rs[0], which);
      hide Sound, Executes, Step, Uses;
      RunsCountUses(node, Step(node, s, rs[0]), rs[1..], which);
    }
  }

  /** The uses on all connections of a node, each with its own requests; they share no state of the gate. */
  function NodeUses(node: Node, conns: seq<seq<Request>>, which: Which): nat {
    if conns == [] then 0
    else
      var s := RunAll(node, FRESH, conns[|conns| - 1]);
      NodeUses(node, conns[..|conns| - 1], which) + if |s.launches| == |s.processes| then Uses(s, which) else 0
  }

  function NodeExecutions(node: Node, conns: seq<seq<Request>>, which: Which): nat {
    if conns == [] then 0
    else NodeExecutions(node, conns[..|conns| - 1], which) + Executions(node, FRESH, conns[|conns| - 1], which)
  }

  /**
    "Exactly one command, once, on one node": over any number of connections, a grant is used as
    often as an admitted, spawnable exec request is made while a good token for it is set, so it is
    used once at most exactly when there is at most one such request on the whole node.
   */
  lemma {:induction false} SingleUseExactlyWhen(node: Node, conns: seq<seq<Request>>, which: Which)
    ensures NodeUses(node, conns, which) == NodeExecutions(node, conns, which)
    ensures NodeUses(node, conns, which) <= 1 <==> NodeExecutions(node, conns, which) <= 1
  {
    if conns != [] {
      hide Executions, UsesWithin;
      SingleUseExactlyWhen(node, conns[..|conns| - 1], which);
      RunsCountUses(node, FRESH, conns[|conns| - 1], which);
      assert UsesWithin([], [], which) == 0 by {
        NothingUsed(which);
      }
    }
  }

  lemma NothingUsed(which: Which)
    ensures UsesWithin([], [], which) == 0
  {
  }

  /** The run that breaks it on one connection: one token, two exec requests, two processes of one grant. */
  lemma GrantUsedTwice(node: Node, token: Bytes, line: Bytes, now: int, g: CommandGrant)
    requires GrantNow(node, token, now) == Some(g)
    ensures var exec := Exec(line, now, true, true);
            var s := RunAll(node, FRESH, [Env(CMD_GRANT_ENV, token), exec, exec]);
            var p := Process(Granted(CommandOf(g)), None, Some(g.grantId));
            s.processes == [p, p] && |s.launches| == 2 && Uses(s, ByToken(token)) == Uses(s, ByGrant(g.grantId)) == 2
  {
    hide GrantNow, CommandOf;
    var a, b := Env(CMD_GRANT_ENV, token), Exec(line, now, true, true);
    ThreeRequests(node, FRESH, a, b, b);
    var s := Step(node, Step(node, Step(node, FRESH, a), b), b);
    var p, l := Process(Granted(CommandOf(g)), None, Some(g.grantId)), Launch(Some(token), None, None, now);
    assert s.processes == [p, p] && s.launches == [l, l];
    UsesOfTwo(p, l, ByToken(token));
    UsesOfTwo(p, l, ByGrant(g.grantId));
  }

  lemma UsesOfTwo(p: Process, l: Launch, which: Which)
    requires p.run.Granted? && Selects(which, l.token, p.grantId)
    ensures UsesWithin([p, p], [l, l], which) == 2
  {
    assert [p, p][..1] == [p] && [l, l][..1] == [l] && [p][..0] == [] && [l][..0] == [];
    assert UsesWithin([p], [l], which) == 1;
  }

  /** The replay on a second connection: each of the two uses the token once, the node runs the grant twice. */
  lemma GrantUsedOnTwoConnections(node: Node, token: Bytes, line: Bytes, now: int, g: CommandGrant)
    requires GrantNow(node, token, now) == Some(g)
    ensures var once := [Env(CMD_GRANT_ENV, token), Exec(line, now, true, true)];
            forall which :: which == ByToken(token) || which == ByGrant(g.grantId) ==>
              Executions(node, FRESH, once, which) == 1 && NodeUses(node, [once, once], which) == 2
  {
    var once := [Env(CMD_GRANT_ENV, token), Exec(line, now, true, true)];
    forall which | which == ByToken(token) || which == ByGrant(g.grantId)
      ensures Executions(node, FRESH, once, which) == 1 && NodeUses(node, [once, once], which) == 2
    {
      OneExecution(node, token, line, now, g, which);
      hide Executions;
      SingleUseExactlyWhen(node, [once, once], which);
      assert [once, once][..1] == [once];
      assert NodeExecutions(node, [once][..0], which) == 0;
      assert NodeExecutions(node, [once], which) == 1;
    }
  }

  lemma OneExecution(node: Node, token: Bytes, line: Bytes, now: int, g: CommandGrant, which: Which)
    requires GrantNow(node, token, now) == Some(g) && (which == ByToken(token) || which == ByGrant(g.grantId))
    ensures Executions(node, FRESH, [Env(CMD_GRANT_ENV, token), Exec(line, now, true, true)], which) == 1
  {
    hide GrantNow, CommandOf;
    var a, b := Env(CMD_GRANT_ENV, token), Exec(line, now, true, true);
    var s := Step(node, FRESH, a);
    assert [a, b][1..] == [b] && [b][1..] == [];
    assert Executes(node, s, b, which) && !Executes(node, FRESH, a, which);
    assert Executions(node, s, [b], which) == 1 + Executions(node, Step(node, s, b), [], which);
  }

  // ----- what reaches a process that was granted no input

  /** A granted process whose grant declares that it takes no input. */
  predicate TakesNoInput(node: Node, p: Process, l: Launch) {
    p.run.Granted? && l.token.Some? &&
    var g := GrantNow(node, l.token.value, l.now);
    g.Some? && g.value.spec.stdin == NONE
  }

  /** No such process was given anything. */
  predicate Unfed(node: Node, s: Conn) {
    |s.launches| == |s.processes| == |s.fed| &&
    forall i :: 0 <= i < |s.processes| && TakesNoInput(node, s.processes[i], s.launches[i]) ==> s.fed[i] == []
  }

  /** Client data arrives while the process last started is one that takes no input; nothing looks at that. */
  predicate FeedsUndeclared(node: Node, s: Conn, r: Request) {
    r.Data? && r.bytes != [] && r.taken > 0 && s.writer.Some? &&
    s.writer.value < |s.processes| && s.writer.value < |s.launches| &&
    TakesNoInput(node, s.processes[s.writer.value], s.launches[s.writer.value])
  }

  predicate NeverFeedsUndeclared(node: Node, s: Conn, rs: seq<Request>)
    decreases |rs|
  {
    rs == [] || (!FeedsUndeclared(node, s, rs[0]) && NeverFeedsUndeclared(node, Step(node, s, rs[0]), rs[1..]))
  }

  lemma StepLaunchesUnfed(node: Node, s: Conn, r: Request)
    requires Sound(node, s) && !r.Data?
    ensures var t := Step(node, s, r);
            s.fed <= t.fed && forall i :: |s.fed| <= i < |t.fed| ==> t.fed[i] == []
  {
    hide GrantNow, CommandOf, Justified, DecideElevation;
  }

  lemma StepStaysUnfed(node: Node, s: Conn, r: Request)
    requires Sound(node, s) && Unfed(node, s)
    ensures Unfed(node, Step(node, s, r)) <==> !FeedsUndeclared(node, s, r)
  {
    StepKeepsSound(node, s, r);
    var t := Step(node, s, r);
    hide TakesNoInput, Justified, GrantNow, CommandOf;
    if r.Data? {
      if s.writer.Some? {
        var i := s.writer.value;
        assert t.fed[i] == s.fed[i] + if r.taken < |r.bytes| then r.bytes[..r.taken] else r.bytes;
      }
    } else {
      StepLaunchesUnfed(node, s, r);
      hide Step;
      assert Unfed(node, t) by {
        forall i | 0 <= i < |t.processes| && TakesNoInput(node, t.processes[i], t.launches[i])
          ensures t.fed[i] == []
        {
          assert i < |s.processes| ==> t.processes[i] == s.processes[i] && t.launches[i] == s.launches[i];
        }
      }
    }
  }

  lemma WrittenGrows(s: Conn, bytes: Bytes, taken: nat)
    ensures var t := Written(s, bytes, taken);
            t.processes == s.processes && t.launches == s.launches && |t.fed| == |s.fed| &&
            forall i :: 0 <= i < |s.fed| ==> s.fed[i] <= t.fed[i]
  {
  }

  lemma StepExtends(node: Node, s: Conn, r: Request)
    requires Sound(node, s)
    ensures var t := Step(node, s, r);
            s.processes <= t.processes && s.launches <= t.launches && |s.fed| <= |t.fed| &&
            forall i :: 0 <= i < |s.fed| ==> s.fed[i] <= t.fed[i]
  {
    StepKeepsSound(node, s, r);
    if r.Data? {
      WrittenGrows(s, r.bytes, r.taken);
    } else {
      StepLaunchesUnfed(node, s, r);
      hide Step, Sound;
    }
  }

  lemma StepNeverUnfeeds(node: Node, s: Conn, r: Request)
    requires Sound(node, s) && !Unfed(node, s)
    ensures !Unfed(node, Step(node, s, r))
  {
    StepExtends(node, s, r);
    var t := Step(node, s, r);
    hide TakesNoInput, Justified, Step;
    var i :| 0 <= i < |s.processes| && TakesNoInput(node, s.processes[i], s.launches[i]) && s.fed[i] != [];
    assert t.processes[i] == s.processes[i] && t.launches[i] == s.launches[i] && s.fed[i] <= t.fed[i];
  }

  lemma {:induction false} NeverUnfedAgain(node: Node, s: Conn, rs: seq<Request>)
    requires Sound(node, s) && !Unfed(node, s)
    ensures !Unfed(node, RunAll(node, s, rs))
    decreases |rs|
  {
    if rs != [] {
      StepKeepsSound(node, s, rs[0]);
      StepNeverUnfeeds(node, s, rs[0]);
      hide Sound, Unfed, Step;
      NeverUnfedAgain(node, Step(node, s, rs[0]), rs[1..]);
    }
  }

  /**
    The promise that nothing is sent to a command whose grant declares no input holds of a run
    exactly when no client data arrives while such a command is the process last started.
   */
  lemma {:induction false} UnfedExactlyWhen(node: Node, s: Conn, rs: seq<Request>)
    requires Sound(node, s) && Unfed(node, s)
    ensures Unfed(node, RunAll(node, s, rs)) <==> NeverFeedsUndeclared(node, s, rs)
    decreases |rs|
  {
    if rs != [] {
      StepKeepsSound(node, s, rs[0]);
      StepStaysUnfed(node, s, rs[0]);
      hide Sound, Unfed, FeedsUndeclared, Step;
      if FeedsUndeclared(node, s, rs[0]) {
        NeverUnfedAgain(node, Step(node, s, rs[0]), rs[1..]);
      } else {
        UnfedExactlyWhen(node, Step(node, s, rs[0]), rs[1..]);
      }
    }
  }

  /** The run that breaks it: a token, its command, and data on a channel whose grant declares none. */
  lemma UndeclaredInputIsWritten(node: Node, token: Bytes, line: Bytes, now: int, g: CommandGrant, bytes: Bytes)
    requires GrantNow(node, token, now) == Some(g) && g.spec.stdin == NONE && bytes != []
    ensures var rs := [Env(CMD_GRANT_ENV, token), Exec(line, now, true, true), Data(bytes, |bytes|)];
            var s := RunAll(node, FRESH, rs);
            s.fed == [bytes] && |s.processes| == 1 && s.processes[0].run == Granted(CommandOf(g)) && !Unfed(node, s)
  {
    hide GrantNow, CommandOf;
    var a, b, c := Env(CMD_GRANT_ENV, token), Exec(line, now, true, true), Data(bytes, |bytes|);
    ThreeRequests(node, FRESH, a, b, c);
    var t := Step(node, Step(node, FRESH, a), b);
    assert t.fed == [] + [[]] && t.writer == Some(0) && t.launches == [] + [Moment(t, now)];
    var s := Step(node, t, c);
    assert s.fed == [[] + bytes] && [] + bytes == bytes;
    assert TakesNoInput(node, s.processes[0], s.launches[0]);
  }

  // ----- the code

  class ConnHandler {
    const node: Node
    const outcomes: OutcomeQueue?
    var pendingGrant: Option<Bytes>
    var pendingCmdGrant: Option<Bytes>
    var pendingSessionGrant: Option<Bytes>
    var activeGrant: Option<CommandGrant>
    var lastRefusal: Option<Refusal>
    var term: Bytes
    /** Every process this connection has spawned, the moments they were spawned in, and those that have ended. */
    var processes: seq<Process>
    /** The process whose stdin client data is written to, and what each was given. */
    var writer: Option<nat>
    ghost var launches: seq<Launch>
    ghost var fed: seq<Bytes>
    ghost var exited: set<nat>

    ghost function View(): Conn
      reads this
    {
      Conn(pendingGrant, pendingCmdGrant, pendingSessionGrant, activeGrant, term, writer, processes, launches, fed)
    }

    ghost predicate Valid()
      reads this, outcomes
    {
      (outcomes != null ==> outcomes.Valid()) && Sound(node, View())
    }

    constructor (node: Node, outcomes: OutcomeQueue?)
      requires outcomes != null ==> outcomes.Valid()
      ensures Valid() && this.node == node && this.outcomes == outcomes
      ensures View() == FRESH && exited == {}
    {
      this.node, this.outcomes := node, outcomes;
      pendingGrant, pendingCmdGrant, pendingSessionGrant := None, None, None;
      activeGrant, lastRefusal := None, None;
      term := XTERM;
      writer, processes, launches, fed, exited := None, [], [], [], {};
    }

    /** `env_request`: only the three grant variables are captured; a command token is never unset. */
    method EnvRequest(name: string, value: Bytes)
      requires Valid()
      modifies this
      ensures Valid() && View() == Step(node, old(View()), Env(name, value)) && exited == old(exited)
      ensures pendingCmdGrant == if name == "ANKAYMA_CMD_GRANT" then Some(value) else old(pendingCmdGrant)
      ensures pendingGrant == if name == "ANKAYMA_ELEVATE_GRANT" then Some(value) else old(pendingGrant)
      ensures pendingSessionGrant == if name == "ANKAYMA_SESSION_GRANT" then Some(value) else old(pendingSessionGrant)
      ensures processes == old(processes) && activeGrant == old(activeGrant) && lastRefusal == old(lastRefusal)
    {
      hide Justified;
      if name == ELEVATE_GRANT_ENV {
        pendingGrant := Some(value);
      }
      if name == CMD_GRANT_ENV {
        pendingCmdGrant := Some(value);
      }
      if name == SESSION_GRANT_ENV {
        pendingSessionGrant := Some(value);
      }
    }

    /** `pty_request`: refused, before anything is recorded, once a command token is set. */
    method PtyRequest(requested: Bytes) returns (ok: bool)
      requires Valid()
      modifies this`term
      ensures Valid() && View() == Step(node, old(View()), Pty(requested))
      ensures ok <==> pendingCmdGrant.None?
      ensures term == if !ok then old(term) else if requested == [] then [120, 116, 101, 114, 109] else requested
    {
      hide Justified;
      if pendingCmdGrant.Some? {
        return false;
      }
      term := if requested == [] then XTERM else requested;
      ok := true;
    }

    /** A command token is set, comes to be checked, and authorises nothing. */
    ghost predicate TokenRefused(now: int)
      reads this
    {
      Admitted(node, pendingSessionGrant, now) && pendingCmdGrant.Some? && node.cmdVerifier.Some? &&
      GrantNow(node, pendingCmdGrant.value, now).None?
    }

    /** The outcome a refused token is reported with, if it can be attributed. */
    function RefusalReport(token: Bytes, r: Refusal): seq<ExecOutcome> {
      if outcomes != null && node.nodeId.Some? && node.grantIdOf(token).Some?
      then [ExecOutcome(node.grantIdOf(token).value, if r.DigestMismatch? then "rejected_digest_mismatch" else "failed",
                        None, None, Some([112, 101, 112, 58] + node.nodeId.value))]
      else []
    }

    /** `exec_under_command_grant`: the process the grant describes, or a recorded refusal. */
    method ExecUnderCommandGrant(token: Bytes, now: int) returns (c: Option<Command>)
      requires Valid() && pendingCmdGrant == Some(token)
      modifies this`activeGrant, this`lastRefusal, outcomes
      ensures Valid()
      ensures match GrantNow(node, token, now)
              case None => c == None && activeGrant == old(activeGrant)
              case Some(g) => c == Some(CommandOf(g)) && activeGrant == Some(g)
      ensures if c.None? && node.cmdVerifier.Some?
              then lastRefusal.Some? &&
                   (lastRefusal.value == DigestMismatch <==>
                    OnlyDigestWrong(node.lib, node.cmdVerifier.value, token, now))
              else lastRefusal == old(lastRefusal)
      ensures outcomes != null ==>
                outcomes.inner == if c.Some? || node.cmdVerifier.None? then old(outcomes.inner)
                                  else LastOf(old(outcomes.inner) + RefusalReport(token, lastRefusal.value))
    {
      hide Authorises, EnvValue, Justified;
      if node.cmdVerifier.None? {
        return None;
      }
      var v := Verify(node.lib, node.cmdVerifier.value, token, now);
      match v
      case Refused(refusal) =>
        if outcomes != null && node.nodeId.Some? {
          var id := node.grantIdOf(token);
          if id.Some? {
            var _ := outcomes.Push(RefusedOutcome(id.value, TerminationReason(refusal), node.nodeId.value));
          }
        }
        lastRefusal := Some(refusal);
        return None;
      case Accepted(grant) =>
        assert Authorises(node.lib, node.cmdVerifier.value, token, now, grant);
        AuthorisedHasProgram(node.lib, node.cmdVerifier.value, token, now, grant);
        var cmd := ToCommand(grant);
        SameVariablesSameEnvironment(cmd.env, EnvMap(grant.spec.env));
        activeGrant := Some(grant);
        c := Some(cmd);
    }

    /**
      `exec_request`. With a command token set, nothing but the command of a grant that token
      authorises now can start, never elevated, and it does start when the session is admitted and
      the system can spawn it; a broken token never falls back to running the client's line.
     */
    method ExecRequest(line: Bytes, now: int, provisioned: bool, spawns: bool) returns (started: bool)
      requires Valid()
      modifies this, outcomes
      ensures Valid() && View() == Step(node, old(View()), Exec(line, now, provisioned, spawns))
      ensures exited == old(exited) && |processes| == |old(processes)| + if started then 1 else 0
      ensures if old(TokenRefused(now))
              then lastRefusal.Some? &&
                   (lastRefusal.value == DigestMismatch <==>
                    OnlyDigestWrong(node.lib, node.cmdVerifier.value, pendingCmdGrant.value, now))
              else lastRefusal == old(lastRefusal)
      ensures var session := pendingSessionGrant;
              var admitted := session.None? ||
                              (node.sessionVerifier.Some? && node.sessionVerifier.value(session.value, now));
              var until := if node.elevate.Some? && pendingGrant.Some?
                           then node.elevate.value(pendingGrant.value, now) else None;
              if pendingCmdGrant.Some? then
                (started <==> admitted && spawns && node.cmdVerifier.Some? &&
                              exists g :: Authorises(node.lib, node.cmdVerifier.value, pendingCmdGrant.value, now, g))
              else
                (started <==> admitted && spawns && (until.Some? || (!node.forcedProgram && provisioned))) &&
                (started ==> processes == old(processes) + [Process(ShellLine(until.Some?, line), until, None)])
      ensures pendingCmdGrant.Some? && started ==>
                activeGrant.Some? && node.cmdVerifier.Some? &&
                Authorises(node.lib, node.cmdVerifier.value, pendingCmdGrant.value, now, activeGrant.value) &&
                processes == old(processes) +
                  [Process(Granted(CommandOf(activeGrant.value)), None, Some(activeGrant.value.grantId))]
      ensures outcomes != null ==>
                outcomes.inner == if !old(TokenRefused(now)) then old(outcomes.inner)
                                  else LastOf(old(outcomes.inner) +
                                              RefusalReport(pendingCmdGrant.value, lastRefusal.value))
    {
      assert pendingCmdGrant.None? ==> activeGrant.None?;
      hide Authorises, CommandOf, Justified, Sound;
      ghost var before := View();
      StepKeepsSound(node, before, Exec(line, now, provisioned, spawns));
      if !Admitted(node, pendingSessionGrant, now) {
        return false;
      }
      if pendingCmdGrant.Some? {
        var cmd := ExecUnderCommandGrant(pendingCmdGrant.value, now);
        if cmd.None? {
          return false;
        }
        started := SpawnExec(Granted(cmd.value), None, now, spawns);
        return;
      }
      var decision := DecideElevation(node.elevate, pendingGrant, now);
      if !decision.Elevated? && (node.forcedProgram || !provisioned) {
        return false;
      }
      started := SpawnExec(ShellLine(decision.Elevated?, line), KillAt(decision), now, spawns);
    }

    /** `spawn_exec`: the report of the exit is bound to the grant active at the spawn. */
    method SpawnExec(run: Run, killAt: Option<int>, now: int, spawns: bool) returns (started: bool)
      modifies this`processes, this`launches, this`writer, this`fed
      ensures started == spawns
      ensures View() == if !spawns then old(View())
                        else Launched(old(View()), Process(run, killAt, ActiveId(activeGrant)), now)
    {
      if !spawns {
        return false;
      }
      writer := Some(|processes|);
      processes := processes + [Process(run, killAt, ActiveId(activeGrant))];
      launches, fed := launches + [Launch(pendingCmdGrant, pendingGrant, pendingSessionGrant, now)], fed + [[]];
      started := true;
    }

    /** `shell_request`: a terminal session, whether or not a command token is set; it reports no outcome. */
    method ShellRequest(now: int, starts: bool) returns (started: bool)
      requires Valid()
      modifies this`processes, this`launches, this`writer, this`fed
      ensures Valid() && View() == Step(node, old(View()), Shell(now, starts))
      ensures started <==> starts && (pendingSessionGrant.Some? ==>
                node.sessionVerifier.Some? && node.sessionVerifier.value(pendingSessionGrant.value, now))
      ensures var until := if node.elevate.Some? && pendingGrant.Some?
                           then node.elevate.value(pendingGrant.value, now) else None;
              processes == old(processes) + if started then [Process(Interactive(until.Some?), until, None)] else []
    {
      hide Justified, Sound;
      StepKeepsSound(node, View(), Shell(now, starts));
      if !Admitted(node, pendingSessionGrant, now) {
        return false;
      }
      var decision := DecideElevation(node.elevate, pendingGrant, now);
      if !starts {
        return false;
      }
      writer := Some(|processes|);
      processes := processes + [Process(Interactive(decision.Elevated?), KillAt(decision), None)];
      launches, fed := launches + [Launch(pendingCmdGrant, pendingGrant, pendingSessionGrant, now)], fed + [[]];
      started := true;
    }

    /** `data`: written to the process last started, whatever its grant says about input. */
    method ClientData(bytes: Bytes, taken: nat)
      requires Valid()
      modifies this`fed
      ensures Valid() && View() == Step(node, old(View()), Data(bytes, taken))
      ensures |fed| == |old(fed)|
      ensures forall i :: 0 <= i < |fed| ==>
                fed[i] == old(fed[i]) +
                  if writer != Some(i) then [] else if taken < |bytes| then bytes[..taken] else bytes
    {
      hide Justified;
      if writer.Some? {
        var i := writer.value;
        fed := fed[i := fed[i] + if taken < |bytes| then bytes[..taken] else bytes];
      }
    }

    /** `channel_eof`: the process's stdin is closed. */
    method ChannelEof()
      requires Valid()
      modifies this`writer
      ensures Valid() && View() == Step(node, old(View()), Eof) && writer == None
    {
      hide Justified;
      writer := None;
    }

    /**
      The end of a process, which comes once: the outcome of a granted process names the grant that
      its token authorised when it was spawned; any other process reports nothing.
     */
    method ProcessExited(i: nat, code: int, bytesOut: int)
      requires Valid() && i < |processes| && i !in exited
      modifies this`exited, outcomes
      ensures Valid() && exited == old(exited) + {i}
      ensures processes[i].run.Granted? ==>
                launches[i].token.Some? && GrantNow(node, launches[i].token.value, launches[i].now).Some?
      ensures outcomes != null ==>
                outcomes.inner ==
                  if node.nodeId.Some? && processes[i].run.Granted?
                  then var g := GrantNow(node, launches[i].token.value, launches[i].now).value;
                       LastOf(old(outcomes.inner) +
                              [ExecOutcome(g.grantId, if code == 0 then "completed" else "failed", Some(code),
                                           Some(bytesOut), Some([112, 101, 112, 58] + node.nodeId.value))])
                  else old(outcomes.inner)
    {
      hide GrantNow, CommandOf, LastOf;
      assert Justified(node, processes[i], launches[i]);
      if outcomes != null && node.nodeId.Some? && processes[i].grantId.Some? {
        var _ := outcomes.Push(FromExit(processes[i].grantId.value, code, node.nodeId.value, bytesOut));
      }
      exited := exited + {i};
    }
  }

  lemma AuthorisedHasProgram(lib: Libraries, nodeId: Bytes, token: Bytes, now: int, g: CommandGrant)
    requires Authorises(lib, nodeId, token, now, g)
    ensures g.spec.argv != []
  {
  }
}
