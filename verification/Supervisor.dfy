/**
  The child supervisor of crates/agent-daemon/src/win_supervisor.rs. The operating system may end
  a child at any time, refuse to spawn one, fail to say whether one still runs, and fail to kill
  one or to wait for its end.
 */
module Supervisor {

  datatype Creds = Creds(token: string, controlPlane: string)
  datatype State = Idle | Connected(child: nat, creds: Creds)
  datatype ConnectOutcome = NewlyConnected | AlreadyConnected | SpawnFailed

  /** What becomes of the two calls in `kill_and_wait`, whose results the code discards. */
  datatype Ending = Ending(killFails: bool, waitFails: bool)

  /** A kill that works ends the child; a wait that works comes back once it has ended. */
  predicate Survives(ending: Ending) {
    ending.killFails && ending.waitFails
  }

  // ----- the system as a whole: the supervisor's state and the processes that are alive

  /** Children are numbered in the order they are spawned; `next` is the number of the next one. */
  datatype System = System(state: State, live: set<nat>, next: nat)

  /** `pollFails` is a `try_wait` that returns an error. */
  datatype Event =
    | Connect(creds: Creds, pollFails: bool, ending: Ending, spawns: bool)
    | Disconnect(ending: Ending)
    | Status(pollFails: bool)
    | ChildExits(child: nat)

  const START := System(Idle, {}, 0)

  function Held(state: State): set<nat> {
    match state
    case Idle => {}
    case Connected(child, _) => {child}
  }

  predicate Running(s: System) {
    s.state.Connected? && s.state.child in s.live
  }

  /** Numbers are given out once. */
  predicate Numbered(s: System) {
    (forall c :: c in s.live ==> c < s.next) && (s.state.Connected? ==> s.state.child < s.next)
  }

  /** Every live process is the one the supervisor holds. */
  predicate OneChild(s: System) {
    s.live <= Held(s.state) && Numbered(s)
  }

  /** The connect finds what it asks for. */
  predicate Reuses(s: System, creds: Creds, pollFails: bool) {
    Running(s) && s.state.creds == creds && !pollFails
  }

  /** The processes still alive after `kill_and_wait` on the held one. */
  function Cleared(s: System, ending: Ending): set<nat> {
    if Survives(ending) then s.live else s.live - Held(s.state)
  }

  function Step(s: System, e: Event): System {
    match e
    case Connect(creds, pollFails, ending, spawns) =>
      if Reuses(s, creds, pollFails) then s
      else if spawns then System(Connected(s.next, creds), Cleared(s, ending) + {s.next}, s.next + 1)
      else System(s.state, Cleared(s, ending), s.next)
    case Disconnect(ending) => System(Idle, Cleared(s, ending), s.next)
    case Status(pollFails) => if Running(s) && !pollFails then s else s.(state := Idle)
    case ChildExits(child) => s.(live := s.live - {child})
  }

  function RunAll(s: System, events: seq<Event>): System
    decreases |events|
  {
    if events == [] then s else RunAll(Step(s, events[0]), events[1..])
  }

  // ----- every live process is the one held

  /** The step drops its handle on a child that still runs. */
  predicate LosesTrack(s: System, e: Event) {
    Running(s) &&
    match e
    case Connect(creds, pollFails, ending, spawns) => !Reuses(s, creds, pollFails) && Survives(ending) && spawns
    case Disconnect(ending) => Survives(ending)
    case Status(pollFails) => pollFails
    case ChildExits(_) => false
  }

  /** One step keeps the single child exactly when it does not lose track of a running one. */
  lemma StepKeepsOneChild(s: System, e: Event)
    requires OneChild(s)
    ensures OneChild(Step(s, e)) <==> !LosesTrack(s, e)
    ensures Numbered(Step(s, e))
  {
    if LosesTrack(s, e) {
      assert s.state.child in Step(s, e).live && s.state.child !in Held(Step(s, e).state);
    }
  }

  /** No step of the run loses track. */
  predicate KeepsTrack(s: System, events: seq<Event>)
    decreases |events|
  {
    events == [] || (!LosesTrack(s, events[0]) && KeepsTrack(Step(s, events[0]), events[1..]))
  }

  lemma RunFromNext(s: System, events: seq<Event>)
    requires events != []
    ensures RunAll(s, events[..0]) == s
    ensures forall k :: 1 <= k <= |events| ==>
              RunAll(s, events[..k]) == RunAll(Step(s, events[0]), events[1..][..k - 1])
  {
    assert events[..0] == [];
    assert forall k :: 1 <= k <= |events| ==> events[..k][0] == events[0] && events[..k][1..] == events[1..][..k - 1];
  }

  /** At every point of a run the single child is kept exactly when no step loses track. */
  lemma {:induction false} RunsKeepOneChild(s: System, events: seq<Event>)
    requires OneChild(s)
    ensures KeepsTrack(s, events) <==> forall k :: 0 <= k <= |events| ==> OneChild(RunAll(s, events[..k]))
    decreases |events|
  {
    if events == [] {
      assert events[..0] == [];
    } else {
      var next, rest := Step(s, events[0]), events[1..];
      RunFromNext(s, events);
      StepKeepsOneChild(s, events[0]);
      assert rest[..0] == [] && RunAll(s, events[..1]) == next;
      if !LosesTrack(s, events[0]) {
        RunsKeepOneChild(next, rest);
        forall k | 0 <= k <= |rest|
          ensures RunAll(next, rest[..k]) == RunAll(s, events[..k + 1])
        {
          assert k + 1 - 1 == k;
        }
      }
    }
  }

  // ----- at most one live process

  /** A new child is spawned beside one that is alive: one lost earlier, or one that cannot be ended. */
  predicate SpawnsBeside(s: System, e: Event) {
    e.Connect? && e.spawns && !Reuses(s, e.creds, e.pollFails) && Cleared(s, e.ending) != {}
  }

  /** One step leaves at most one process alive exactly when it does not spawn beside another. */
  lemma StepKeepsAtMostOne(s: System, e: Event)
    requires Numbered(s) && |s.live| <= 1
    ensures Numbered(Step(s, e)) && (|Step(s, e).live| <= 1 <==> !SpawnsBeside(s, e))
  {
    var cleared := if e.Connect? || e.Disconnect? then Cleared(s, e.ending)
                   else if e.ChildExits? then s.live - {e.child} else s.live;
    SubsetIsNoLarger(cleared, s.live);
    if e.Connect? && e.spawns && !Reuses(s, e.creds, e.pollFails) {
      assert s.next !in cleared;
      assert |Step(s, e).live| == |cleared| + 1;
    } else {
      SubsetIsNoLarger(Step(s, e).live, s.live);
    }
  }

  lemma SubsetIsNoLarger(a: set<nat>, b: set<nat>)
    requires a <= b
    ensures |a| <= |b|
  {
    assert b == a + (b - a);
  }

  /** No step of the run spawns beside a live process. */
  predicate NeverSpawnsBeside(s: System, events: seq<Event>)
    decreases |events|
  {
    events == [] || (!SpawnsBeside(s, events[0]) && NeverSpawnsBeside(Step(s, events[0]), events[1..]))
  }

  /** The documented promise: at most one child lives throughout a run exactly when none is spawned beside another. */
  lemma {:induction false} RunsKeepAtMostOne(s: System, events: seq<Event>)
    requires Numbered(s) && |s.live| <= 1
    ensures NeverSpawnsBeside(s, events) <==> forall k :: 0 <= k <= |events| ==> |RunAll(s, events[..k]).live| <= 1
    decreases |events|
  {
    if events == [] {
      assert events[..0] == [];
    } else {
      var next, rest := Step(s, events[0]), events[1..];
      RunFromNext(s, events);
      StepKeepsAtMostOne(s, events[0]);
      assert rest[..0] == [] && RunAll(s, events[..1]) == next;
      if !SpawnsBeside(s, events[0]) {
        RunsKeepAtMostOne(next, rest);
        forall k | 0 <= k <= |rest|
          ensures RunAll(next, rest[..k]) == RunAll(s, events[..k + 1])
        {
          assert k + 1 - 1 == k;
        }
      }
    }
  }

  /** A second child needs a child lost before: a run that keeps track never spawns beside another. */
  lemma {:induction false} KeepingTrackKeepsAtMostOne(s: System, events: seq<Event>)
    requires OneChild(s) && KeepsTrack(s, events)
    ensures |s.live| <= 1 && NeverSpawnsBeside(s, events)
    decreases |events|
  {
    SubsetIsNoLarger(s.live, Held(s.state));
    if events != [] {
      StepKeepsOneChild(s, events[0]);
      KeepingTrackKeepsAtMostOne(Step(s, events[0]), events[1..]);
    }
  }

  // ----- the same in terms of events

  /** The system after the first `k` events. */
  function At(s: System, events: seq<Event>, k: nat): System
    requires k <= |events|
  {
    RunAll(s, events[..k])
  }

  lemma {:induction false} AtNext(s: System, events: seq<Event>, k: nat)
    requires k < |events|
    ensures At(s, events, k + 1) == Step(At(s, events, k), events[k])
    decreases k
  {
    if k == 0 {
      assert events[..0] == [] && events[..1] == [events[0]] && [events[0]][1..] == [];
      assert RunAll(s, [events[0]]) == RunAll(Step(s, events[0]), []);
    } else {
      var next, rest := Step(s, events[0]), events[1..];
      AtNext(next, rest, k - 1);
      assert events[..k][1..] == rest[..k - 1] && events[..k + 1][1..] == rest[..k];
    }
  }

  lemma {:induction false} RunsStayNumbered(s: System, events: seq<Event>, k: nat)
    requires Numbered(s) && k <= |events|
    ensures Numbered(At(s, events, k))
  {
    if k == 0 {
      assert events[..0] == [];
    } else {
      RunsStayNumbered(s, events, k - 1);
      AtNext(s, events, k - 1);
    }
  }

  /** A connect that does not find what it asks for, and whose child starts. */
  predicate Spawns(s: System, e: Event) {
    e.Connect? && e.spawns && !Reuses(s, e.creds, e.pollFails)
  }

  /** Event `i` drops the handle on a running child, and `j`, before that child exits, spawns; or one does both. */
  predicate Outlived(s: System, events: seq<Event>, i: nat, j: nat) {
    i <= j < |events| && LosesTrack(At(s, events, i), events[i]) && Spawns(At(s, events, j), events[j]) &&
    forall k :: i < k < j ==> events[k] != ChildExits(At(s, events, i).state.child)
  }

  /** The child is alive and no longer held. */
  predicate Orphan(s: System, child: nat) {
    child in s.live && child !in Held(s.state) && child < s.next
  }

  lemma OrphansStay(s: System, e: Event, child: nat)
    requires Numbered(s)
    ensures Orphan(s, child) && e != ChildExits(child) ==> Orphan(Step(s, e), child)
    ensures LosesTrack(s, e) ==> Orphan(Step(s, e), s.state.child)
    ensures Orphan(Step(s, e), child) ==>
              e != ChildExits(child) && (Orphan(s, child) || (LosesTrack(s, e) && s.state.child == child))
  {
  }

  lemma {:induction false} LostIsOrphan(s: System, events: seq<Event>, i: nat, j: nat)
    requires Numbered(s) && i < j <= |events| && LosesTrack(At(s, events, i), events[i])
    requires forall k :: i < k < j ==> events[k] != ChildExits(At(s, events, i).state.child)
    ensures Orphan(At(s, events, j), At(s, events, i).state.child)
  {
    var c := At(s, events, i).state.child;
    hide At, LosesTrack, Orphan, Step;
    RunsStayNumbered(s, events, j - 1);
    AtNext(s, events, j - 1);
    OrphansStay(At(s, events, j - 1), events[j - 1], c);
    if i < j - 1 {
      LostIsOrphan(s, events, i, j - 1);
    }
  }

  lemma {:induction false} OrphanWasLost(s: System, events: seq<Event>, j: nat, child: nat) returns (i: nat)
    requires OneChild(s) && j <= |events| && Orphan(At(s, events, j), child)
    ensures i < j && LosesTrack(At(s, events, i), events[i]) && At(s, events, i).state.child == child
    ensures forall k :: i < k < j ==> events[k] != ChildExits(child)
  {
    assert j > 0 by {
      assert events[..0] == [];
    }
    var before := At(s, events, j - 1);
    RunsStayNumbered(s, events, j - 1);
    AtNext(s, events, j - 1);
    OrphansStay(before, events[j - 1], child);
    hide At, LosesTrack, Orphan, Step;
    if Orphan(before, child) {
      i := OrphanWasLost(s, events, j - 1, child);
    } else {
      i := j - 1;
    }
  }

  lemma SpawnBesideOrphan(s: System, e: Event, child: nat)
    requires Numbered(s) && Spawns(s, e) && (Orphan(s, child) || (LosesTrack(s, e) && s.state.child == child))
    ensures |Step(s, e).live| > 1
  {
    SubsetIsNoLarger({child, s.next}, Step(s, e).live);
  }

  /**
    The same promise in terms of what happens: more than one child lives at some point of a run
    exactly when the handle on a running child is dropped and another one is spawned before it exits.
   */
  lemma AtMostOneExactlyWhen(s: System, events: seq<Event>)
    requires OneChild(s)
    ensures (forall k :: 0 <= k <= |events| ==> |At(s, events, k).live| <= 1) <==>
            !exists i: nat, j: nat :: Outlived(s, events, i, j)
  {
    if exists i: nat, j: nat :: Outlived(s, events, i, j) {
      var i: nat, j: nat :| Outlived(s, events, i, j);
      RunsStayNumbered(s, events, j);
      AtNext(s, events, j);
      if i < j {
        LostIsOrphan(s, events, i, j);
      }
      SpawnBesideOrphan(At(s, events, j), events[j], At(s, events, i).state.child);
      assert |At(s, events, j + 1).live| > 1;
    } else {
      forall k | 0 <= k <= |events|
        ensures |At(s, events, k).live| <= 1
      {
        NotOutlivedMeansAtMostOne(s, events, k);
      }
    }
  }

  lemma {:induction false} NotOutlivedMeansAtMostOne(s: System, events: seq<Event>, k: nat)
    requires OneChild(s) && k <= |events| && !exists i: nat, j: nat :: Outlived(s, events, i, j)
    ensures |At(s, events, k).live| <= 1
  {
    if k == 0 {
      assert events[..0] == [];
      SubsetIsNoLarger(s.live, Held(s.state));
    } else {
      var before, e := At(s, events, k - 1), events[k - 1];
      NotOutlivedMeansAtMostOne(s, events, k - 1);
      RunsStayNumbered(s, events, k - 1);
      AtNext(s, events, k - 1);
      StepKeepsAtMostOne(before, e);
      if SpawnsBeside(before, e) {
        var c :| c in Cleared(before, e.ending);
        if c in Held(before.state) {
          assert Outlived(s, events, k - 1, k - 1);
        } else {
          var i := OrphanWasLost(s, events, k - 1, c);
          assert Outlived(s, events, i, k - 1);
        }
      }
    }
  }

  // ----- the runs that break it

  const ENDED := Ending(false, false)
  const SURVIVED := Ending(true, true)

  lemma TwoSteps(s: System, a: Event, b: Event)
    ensures RunAll(s, [a, b]) == Step(Step(s, a), b)
  {
    assert [a, b][1..] == [b] && [b][1..] == [];
    assert RunAll(Step(s, a), [b]) == RunAll(Step(Step(s, a), b), []);
  }

  /** A failing status query, then a second connect beside the first child. */
  lemma FailedPollLeaksAChild(creds: Creds)
    ensures var up := Connect(creds, false, ENDED, true);
            var s := RunAll(START, [up, Status(true), up]);
            s.live == {0, 1} && s.state == Connected(1, creds)
  {
    var a, b := Connect(creds, false, ENDED, true), Status(true);
    var s1 := Step(START, a);
    TwoSteps(s1, b, a);
    assert s1.live == {0} && Step(s1, b).live == {0} && Step(Step(s1, b), a).live == {0, 1};
    assert [a, b, a][1..] == [b, a];
  }

  /** A child that can neither be killed nor waited for lives on beside its successor, or under an idle supervisor. */
  lemma FailedKillLeaksAChild(creds: Creds, other: Creds)
    requires creds != other
    ensures RunAll(START, [Connect(creds, false, ENDED, true), Connect(other, false, SURVIVED, true)]).live == {0, 1}
    ensures RunAll(START, [Connect(creds, false, ENDED, true), Disconnect(SURVIVED)]) == System(Idle, {0}, 1)
  {
    var a, b, c := Connect(creds, false, ENDED, true), Connect(other, false, SURVIVED, true), Disconnect(SURVIVED);
    TwoSteps(START, a, b);
    TwoSteps(START, a, c);
    assert Step(START, a).live == {0} && Step(Step(START, a), b).live == {0, 1};
  }

  // ----- the code

  /** The processes of the machine that this supervisor ever spawned. */
  class Processes {
    var live: set<nat>
    var next: nat

    constructor ()
      ensures live == {} && next == 0
    {
      live, next := {}, 0;
    }

    method Spawn(works: bool) returns (ok: bool, child: nat)
      modifies this
      ensures ok == works && child == old(next)
      ensures if works then live == old(live) + {child} && next == child + 1
              else live == old(live) && next == old(next)
    {
      ok, child := works, next;
      if works {
        live, next := live + {next}, next + 1;
      }
    }

    /** `matches!(child.try_wait(), Ok(None))`: still running, as far as the system can tell. */
    predicate StillRunning(child: nat, pollFails: bool)
      reads this
    {
      !pollFails && child in live
    }

    method Kill(child: nat, fails: bool)
      modifies this`live
      ensures live == if fails then old(live) else old(live) - {child}
    {
      if !fails {
        live := live - {child};
      }
    }

    method Wait(child: nat, fails: bool)
      modifies this`live
      ensures live == if fails then old(live) else old(live) - {child}
    {
      if !fails {
        live := live - {child};
      }
    }

    /** `kill_and_wait`: neither result is looked at. */
    method KillAndWait(child: nat, ending: Ending)
      modifies this`live
      ensures live == if Survives(ending) then old(live) else old(live) - {child}
    {
      Kill(child, ending.killFails);
      Wait(child, ending.waitFails);
    }
  }

  class Supervisor {
    var state: State
    const processes: Processes

    function View(): System
      reads this, processes
    {
      System(state, processes.live, processes.next)
    }

    constructor ()
      ensures View() == START && fresh(processes)
    {
      state := Idle;
      processes := new Processes();
    }

    /**
      `connect`. Already connected exactly when a live child holds the same credentials. Otherwise
      the old child is killed first, and the new child, if it spawned, is alive and held; it is the
      only one alive exactly when nothing outlived the attempt to clear the way.
     */
    method Connect(token: string, controlPlane: string, pollFails: bool, ending: Ending, spawns: bool)
      returns (r: ConnectOutcome)
      modifies this, processes
      ensures View() == Step(old(View()), Event.Connect(Creds(token, controlPlane), pollFails, ending, spawns))
      ensures r == AlreadyConnected <==>
              old(Running(View()) && state.creds == Creds(token, controlPlane)) && !pollFails
      ensures r == AlreadyConnected ==> View() == old(View())
      ensures r == NewlyConnected ==>
                state == Connected(old(processes.next), Creds(token, controlPlane)) && Running(View())
      ensures r == SpawnFailed ==>
                !spawns && state == old(state) && (Running(View()) <==> old(Running(View())) && Survives(ending))
      ensures var e := Event.Connect(Creds(token, controlPlane), pollFails, ending, spawns);
              old(OneChild(View())) ==> (OneChild(View()) <==> !old(LosesTrack(View(), e)))
    {
      var creds := Creds(token, controlPlane);
      ghost var before := View();
      if OneChild(before) {
        StepKeepsOneChild(before, Event.Connect(creds, pollFails, ending, spawns));
      }
      if state.Connected? {
        if state.creds == creds && processes.StillRunning(state.child, pollFails) {
          return AlreadyConnected;
        }
        processes.KillAndWait(state.child, ending);
      }
      assert processes.live == Cleared(before, ending);
      var ok, child := processes.Spawn(spawns);
      if !ok {
        return SpawnFailed;
      }
      state := Connected(child, creds);
      r := NewlyConnected;
    }

    /** `disconnect`: idle, and the child held so far is gone unless it can neither be killed nor waited for. */
    method Disconnect(ending: Ending)
      modifies this, processes
      ensures View() == Step(old(View()), Event.Disconnect(ending)) && state == Idle
      ensures old(OneChild(View())) ==> (processes.live == {} <==> !(old(Running(View())) && Survives(ending)))
    {
      if state.Connected? {
        processes.KillAndWait(state.child, ending);
      }
      state := Idle;
    }

    /** `is_connected`: notices a child that ended on its own; keeps track unless `try_wait` fails. */
    method IsConnected(pollFails: bool) returns (alive: bool)
      modifies this
      ensures View() == Step(old(View()), Status(pollFails))
      ensures alive <==> old(Running(View())) && !pollFails
      ensures alive <==> state.Connected?
      ensures old(OneChild(View())) ==> (OneChild(View()) <==> !old(LosesTrack(View(), Status(pollFails))))
    {
      ghost var before := View();
      alive := state.Connected? && processes.StillRunning(state.child, pollFails);
      if !alive {
        state := Idle;
      }
      if OneChild(before) {
        StepKeepsOneChild(before, Status(pollFails));
      }
    }
  }
}
