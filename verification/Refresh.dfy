/**
 Coalesced discovery passes (internal/daemon/refresh.go): a caller of do waits for a pass that starts
 after its call, and callers that arrive while a pass runs share the next one.

 A call is a refreshCall, numbered in the order they are made. Every step is one critical section of
 the refresher's mutex, or one action of a loop outside it, and takes one tick of a clock.
 */
module Refresh {
  import opened Text

  /** One loop goroutine. It may hold a call it took, run the pass for it, or be about to close it. */
  datatype Loop = Top | Holding(call: nat) | Passing(call: nat) | Passed(call: nat) | Exited

  datatype Status = Waiting | Released | Cancelled
  datatype Caller = Caller(call: nat, arrived: nat, status: Status)

  /** next and running are the refresher's fields; loops are the goroutines spawned so far. taken,
      started, finished and closed record when each call reached that point, for calls 0, 1, ... */
  datatype State = State(clock: nat, next: Option<nat>, running: bool, loops: seq<Loop>, callers: seq<Caller>,
                         taken: seq<nat>, started: seq<nat>, finished: seq<nat>, closed: seq<nat>)

  function Start(): State {
    State(0, None, false, [], [], [], [], [], [])
  }

  datatype Event = Arrive | Step(loop: nat) | Release(caller: nat) | Cancel(caller: nat)

  predicate Enabled(s: State, e: Event) {
    match e
    case Arrive => true
    case Step(i) => i < |s.loops| && s.loops[i] != Exited
    case Release(i) => i < |s.callers| && s.callers[i].status == Waiting && s.callers[i].call < |s.closed|
    case Cancel(i) => i < |s.callers| && s.callers[i].status == Waiting
  }

  /** do, up to its wait: join the call to come, making it if there is none, and spawn the loop if
      none is running. */
  function Arrived(s: State): State {
    var call := if s.next.Some? then s.next.value else |s.taken|;
    s.(next := Some(call), running := true, loops := if s.running then s.loops else s.loops + [Top],
       callers := s.callers + [Caller(call, s.clock, Waiting)])
  }

  /** One action of a loop: take the call to come or exit, begin the pass, end it, close the call. */
  function Looped(s: State, i: nat): State
    requires i < |s.loops|
  {
    match s.loops[i]
    case Top =>
      if s.next.Some? then s.(next := None, loops := s.loops[i := Holding(s.next.value)], taken := s.taken + [s.clock])
      else s.(running := false, loops := s.loops[i := Exited])
    case Holding(call) => s.(loops := s.loops[i := Passing(call)], started := s.started + [s.clock])
    case Passing(call) => s.(loops := s.loops[i := Passed(call)], finished := s.finished + [s.clock])
    case Passed(call) => s.(loops := s.loops[i := Top], closed := s.closed + [s.clock])
    case Exited => s
  }

  function Apply(s: State, e: Event): State
    requires Enabled(s, e)
  {
    var t := match e
      case Arrive => Arrived(s)
      case Step(i) => Looped(s, i)
      case Release(i) => s.(callers := s.callers[i := s.callers[i].(status := Released)])
      case Cancel(i) => s.(callers := s.callers[i := s.callers[i].(status := Cancelled)]);
    t.(clock := s.clock + 1)
  }

  ghost predicate Reaches(s: State, es: seq<Event>, t: State)
    decreases |es|
  {
    if es == [] then s == t else Enabled(s, es[0]) && Reaches(Apply(s, es[0]), es[1..], t)
  }

  ghost predicate Reachable(s: State) {
    exists es :: Reaches(Start(), es, s)
  }

  // -------------------------------------------------------------------------
  // The invariant

  /** While the refresher says it is running, exactly the loop spawned last is alive, and where it
      stands says how far the calls taken so far have come. */
  ghost predicate OneLoop(s: State) {
    && (s.running ==> s.loops != [] && s.loops[|s.loops| - 1] != Exited)
    && (forall i :: 0 <= i < |s.loops| && s.loops[i] != Exited ==> s.running && i == |s.loops| - 1)
    && var l := if s.running then s.loops[|s.loops| - 1] else Top;
       match l
       case Holding(call) => |s.taken| == call + 1 && |s.started| == |s.finished| == |s.closed| == call
       case Passing(call) => |s.taken| == |s.started| == call + 1 && |s.finished| == |s.closed| == call
       case Passed(call) => |s.taken| == |s.started| == |s.finished| == call + 1 && |s.closed| == call
       case _ => |s.taken| == |s.started| == |s.finished| == |s.closed|
  }

  /** Each call is taken, begun, ended and closed in that order, and after the call before it. */
  ghost predicate Timed(s: State) {
    && |s.closed| <= |s.finished| <= |s.started| <= |s.taken|
    && (forall i :: 0 <= i < |s.started| ==> s.taken[i] < s.started[i])
    && (forall i :: 0 <= i < |s.finished| ==> s.started[i] < s.finished[i])
    && (forall i :: 0 <= i < |s.closed| ==> s.finished[i] < s.closed[i])
    && (forall i, j :: 0 <= i < j < |s.taken| ==> s.taken[i] < s.taken[j])
    && (forall i :: 0 <= i < |s.taken| ==> s.taken[i] < s.clock)
    && (forall i :: 0 <= i < |s.started| ==> s.started[i] < s.clock)
    && (forall i :: 0 <= i < |s.finished| ==> s.finished[i] < s.clock)
  }

  /** A caller's call is the number of calls taken before it arrived; it is the one to come, or was
      taken after the caller arrived. */
  ghost predicate Joined(s: State, c: Caller) {
    && c.arrived < s.clock
    && c.call <= |s.taken|
    && (c.call == |s.taken| ==> s.next == Some(c.call))
    && (forall k :: 0 <= k < |s.taken| ==> (k < c.call <==> s.taken[k] < c.arrived))
    && (c.call < |s.taken| ==> c.arrived < s.taken[c.call])
    && (c.status == Released ==> c.call < |s.closed|)
  }

  ghost predicate Inv(s: State) {
    && OneLoop(s) && Timed(s)
    && (s.next.Some? ==> s.next.value == |s.taken| && s.running)
    && forall i :: 0 <= i < |s.callers| ==> Joined(s, s.callers[i])
  }

  lemma StepKeepsOneLoop(s: State, e: Event)
    requires Inv(s) && Enabled(s, e)
    ensures OneLoop(Apply(s, e))
  {
    hide Timed, Joined;
    if e.Step? {
      assert e.loop == |s.loops| - 1 && forall k :: 0 <= k < e.loop ==> s.loops[k] == Exited;
    }
  }

  lemma StepKeepsTimed(s: State, e: Event)
    requires OneLoop(s) && Timed(s) && Enabled(s, e)
    ensures Timed(Apply(s, e))
  {
    if e.Step? {
      LoopKeepsTimed(s, e.loop);
    }
  }

  lemma LoopKeepsTimed(s: State, i: nat)
    requires OneLoop(s) && Timed(s) && Enabled(s, Step(i))
    ensures Timed(Apply(s, Step(i)))
  {
    var t := Apply(s, Step(i));
    assert i == |s.loops| - 1;
    match s.loops[i] {
      case Top => assert t.started == s.started && t.finished == s.finished && t.closed == s.closed;
      case Holding(_) => assert t.taken == s.taken && t.finished == s.finished && t.closed == s.closed;
      case Passing(_) => assert t.taken == s.taken && t.started == s.started && t.closed == s.closed;
      case Passed(_) => assert t.taken == s.taken && t.started == s.started && t.finished == s.finished;
    }
  }

  lemma StepKeepsJoined(s: State, e: Event, c: Caller)
    requires Inv(s) && Enabled(s, e) && Joined(s, c)
    ensures Joined(Apply(s, e), c)
  {
    hide Timed, OneLoop;
  }

  lemma StepKeepsInv(s: State, e: Event)
    requires Inv(s) && Enabled(s, e)
    ensures Inv(Apply(s, e))
  {
    StepKeepsOneLoop(s, e);
    StepKeepsTimed(s, e);
    StepKeepsNext(s, e);
    hide OneLoop, Timed, Looped;
    var t := Apply(s, e);
    forall j | 0 <= j < |t.callers| ensures Joined(t, t.callers[j]) {
      StepKeepsCaller(s, e, j);
    }
  }

  lemma StepKeepsNext(s: State, e: Event)
    requires Inv(s) && Enabled(s, e)
    ensures var t := Apply(s, e); t.next.Some? ==> t.next.value == |t.taken| && t.running
  {
  }

  lemma StepKeepsCaller(s: State, e: Event, j: nat)
    requires Inv(s) && Enabled(s, e) && j < |Apply(s, e).callers|
    ensures Joined(Apply(s, e), Apply(s, e).callers[j])
  {
    hide OneLoop;
    if j < |s.callers| {
      StepKeepsJoined(s, e, s.callers[j]);
    }
  }

  lemma {:induction false} RunKeepsInv(s: State, es: seq<Event>, t: State)
    requires Inv(s) && Reaches(s, es, t)
    ensures Inv(t)
    decreases |es|
  {
    hide Inv, Enabled, Apply;
    if es != [] {
      StepKeepsInv(s, es[0]);
      RunKeepsInv(Apply(s, es[0]), es[1..], t);
    }
  }

  lemma ReachableInv(s: State)
    requires Reachable(s)
    ensures Inv(s)
  {
    var es :| Reaches(Start(), es, s);
    RunKeepsInv(Start(), es, s);
  }

  // -------------------------------------------------------------------------
  // What callers rely on

  /** At most one loop is alive, so at most one pass runs. */
  lemma OnePassAtATime(s: State, i: nat, j: nat)
    requires Reachable(s) && i < |s.loops| && j < |s.loops|
    requires s.loops[i] != Exited && s.loops[j] != Exited
    ensures i == j
  {
    ReachableInv(s);
  }

  /** A caller released by its call being closed saw a pass that began after it called and ended. */
  lemma ReleasedSawItsPass(s: State, i: nat)
    requires Reachable(s) && i < |s.callers| && s.callers[i].status == Released
    ensures
      var c := s.callers[i];
      && c.call < |s.closed| && c.call < |s.started| && c.call < |s.finished|
      && c.arrived < s.started[c.call] < s.finished[c.call] < s.closed[c.call]
  {
    ReachableInv(s);
    assert Joined(s, s.callers[i]);
  }

  /** A caller still waiting is never forgotten: its call is closed already, or a loop is alive that
      either holds that call or will find it next. */
  lemma WaiterIsServed(s: State, i: nat)
    requires Reachable(s) && i < |s.callers| && s.callers[i].status == Waiting
    ensures
      var c := s.callers[i];
      || Enabled(s, Release(i))
      || (&& s.running && s.loops != [] && Enabled(s, Step(|s.loops| - 1))
          && var l := s.loops[|s.loops| - 1];
             s.next == Some(c.call) || (!l.Top? && l.call == c.call))
  {
    ReachableInv(s);
    assert Joined(s, s.callers[i]);
  }

  /** Two callers share a pass exactly when no call was taken between their arrivals; in particular
      all who arrive after a call was taken and before the next one is share that next one. */
  lemma CallersShare(s: State, i: nat, j: nat)
    requires Reachable(s) && i < |s.callers| && j < |s.callers|
    requires s.callers[i].arrived <= s.callers[j].arrived
    ensures s.callers[i].call == s.callers[j].call <==>
            forall k :: 0 <= k < |s.taken| ==> !(s.callers[i].arrived <= s.taken[k] < s.callers[j].arrived)
  {
    ReachableInv(s);
    var a, b := s.callers[i], s.callers[j];
    assert Joined(s, a) && Joined(s, b);
    if a.call < b.call {
      assert a.arrived < s.taken[a.call] < b.arrived;
    }
  }

  /** A caller that arrives while a pass runs is never handed that pass: its call comes after. */
  lemma NeverTheRunningPass(s: State, i: nat)
    requires Reachable(s) && i < |s.loops| && !s.loops[i].Top? && s.loops[i] != Exited
    ensures Arrived(s).callers[|s.callers|].call == s.loops[i].call + 1
  {
    ReachableInv(s);
  }

  /** How many actions of the loop there are before it can only exit. */
  function Work(s: State): nat {
    (if s.next.Some? then 5 else 0) +
    (if s.loops == [] then 0
     else match s.loops[|s.loops| - 1]
          case Top => 1 case Holding(_) => 4 case Passing(_) => 3 case Passed(_) => 2 case Exited => 0)
  }

  /** With no new callers the loop runs out of work, so every waiting caller's call gets closed. */
  lemma WorkRunsOut(s: State, i: nat)
    requires Reachable(s) && Enabled(s, Step(i))
    ensures Work(Apply(s, Step(i))) < Work(s)
  {
    ReachableInv(s);
  }
}
