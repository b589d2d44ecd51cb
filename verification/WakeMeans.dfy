/**
 What a wake that returns nil means (wakeUnit in internal/daemon/proxy.go): which answers of the
 provider it takes, and when the container is really running. From the same steps as the lock.
 */
module WakeMeans {
  import opened UnitLock
  import opened IdleWindow
  import opened StaysPaused

  // -------------------------------------------------------------------------
  // The answers a wake got

  /** What the calls of thread t were answered in a run, in order. */
  function Answers(es: seq<Event>, t: Tid): seq<Answer> {
    if es == [] then []
    else if es[0].Advance? && es[0].tid == t then [es[0].answer] + Answers(es[1..], t)
    else Answers(es[1..], t)
  }

  /** Nobody collects t's result in this run, so it is one wake throughout. */
  ghost predicate OneWake(es: seq<Event>, t: Tid) {
    Collect(t) !in es
  }

  /** The last leg of a wake, from the call it issues. */
  datatype Leg = OnUnpause | OnStart | OnProbe | OnStamp(left: nat) | Up | Down

  function LegOf(pc: Pc): Leg {
    match pc
    case Unpausing => OnUnpause
    case Starting => OnStart
    case Probing => OnProbe
    case WakeSampling => OnStamp(2)
    case WakeStoring(_) => OnStamp(1)
    case WakeDone(ok) => if ok then Up else Down
    case _ => Down
  }

  predicate OnLeg(pc: Pc) {
    pc.Unpausing? || pc.Starting? || pc.Probing? || pc.WakeSampling? || pc.WakeStoring? || pc.WakeDone?
  }

  /** What one answer does to it. */
  function NextLeg(leg: Leg, a: Answer): Leg {
    match leg
    case OnUnpause => if a == Yes then OnStamp(2) else OnStart
    case OnStart => if a == Yes then OnProbe else Down
    case OnProbe => if a == Yes then OnStamp(2) else if a == No then OnProbe else Down
    case OnStamp(left) => if left <= 1 then Up else OnStamp(left - 1)
    case _ => leg
  }

  function Legs(leg: Leg, answers: seq<Answer>): Leg
    decreases |answers|
  {
    if answers == [] then leg else Legs(NextLeg(leg, answers[0]), answers[1..])
  }

  lemma StepIsOnLeg(u: Unit, pc: Pc, a: Answer)
    requires OnLeg(pc) && !pc.WakeDone?
    ensures var n := Step(u, pc, a).next; n.At? && OnLeg(n.pc) && LegOf(n.pc) == NextLeg(LegOf(pc), a)
  {
  }

  lemma EventIsOnLeg(u: Unit, e: Event, t: Tid)
    requires Enabled(u, e) && e != Collect(t) && t in u.threads && OnLeg(u.threads[t])
    ensures
      var v := Apply(u, e);
      && t in v.threads && OnLeg(v.threads[t])
      && LegOf(v.threads[t]) == if e.Advance? && e.tid == t then NextLeg(LegOf(u.threads[t]), e.answer) else LegOf(u.threads[t])
  {
    if e.Advance? && e.tid == t {
      StepIsOnLeg(u, u.threads[t], e.answer);
    }
    hide Step, Inside, NextLeg, LegOf, OnLeg;
  }

  /** A wake's progress is decided by its own answers, whatever else happens meanwhile. */
  lemma {:induction false} RunIsOnLeg(u: Unit, es: seq<Event>, v: Unit, t: Tid)
    requires Reaches(u, es, v) && OneWake(es, t) && t in u.threads && OnLeg(u.threads[t])
    ensures t in v.threads && OnLeg(v.threads[t]) && LegOf(v.threads[t]) == Legs(LegOf(u.threads[t]), Answers(es, t))
    decreases |es|
  {
    hide Enabled, Apply, NextLeg, LegOf, OnLeg;
    if es != [] {
      assert es[0] in es && forall e :: e in es[1..] ==> e in es;
      EventIsOnLeg(u, es[0], t);
      RunIsOnLeg(Apply(u, es[0]), es[1..], v, t);
      if es[0].Advance? && es[0].tid == t {
        var got := Answers(es, t);
        assert got[1..] == Answers(es[1..], t);
      }
    }
  }

  // -------------------------------------------------------------------------
  // Which answers bring it up

  /** From a probe on: some probe said yes, before any ran out of time. */
  ghost predicate Served(got: seq<Answer>, from: nat) {
    exists k :: from <= k < |got| && got[k] == Yes && forall m :: from <= m < k ==> got[m] == No
  }

  ghost predicate RanOut(got: seq<Answer>, from: nat) {
    exists k :: from <= k < |got| && got[k] == Other && forall m :: from <= m < k ==> got[m] == No
  }

  lemma {:induction false} StampLeads(leg: Leg, got: seq<Answer>)
    requires leg.OnStamp? || leg.Up? || leg.Down?
    ensures Legs(leg, got) != Down || leg.Down?
    ensures leg.Down? ==> Legs(leg, got) == Down
    decreases |got|
  {
    if got != [] {
      StampLeads(NextLeg(leg, got[0]), got[1..]);
    }
  }

  lemma {:induction false} ProbeLeads(got: seq<Answer>)
    ensures Legs(OnProbe, got) == Up ==> Served(got, 0)
    ensures Legs(OnProbe, got) == Down <==> RanOut(got, 0)
    decreases |got|
  {
    if got != [] {
      var rest := got[1..];
      if got[0] == No {
        ProbeLeads(rest);
        if Served(rest, 0) {
          var k :| 0 <= k < |rest| && rest[k] == Yes && forall m :: 0 <= m < k ==> rest[m] == No;
          assert got[k + 1] == Yes && forall m :: 0 <= m < k + 1 ==> got[m] == No;
        }
        if RanOut(rest, 0) {
          var k :| 0 <= k < |rest| && rest[k] == Other && forall m :: 0 <= m < k ==> rest[m] == No;
          assert got[k + 1] == Other && forall m :: 0 <= m < k + 1 ==> got[m] == No;
        }
        if RanOut(got, 0) {
          var k :| 0 <= k < |got| && got[k] == Other && forall m :: 0 <= m < k ==> got[m] == No;
          assert k > 0 && rest[k - 1] == Other;
          assert forall m :: 0 <= m < k - 1 ==> rest[m] == got[m + 1];
        }
      } else {
        StampLeads(NextLeg(OnProbe, got[0]), rest);
      }
    }
  }

  lemma {:induction false} StartLeads(got: seq<Answer>)
    ensures Legs(OnStart, got) == Up ==> |got| >= 2 && got[0] == Yes && Served(got, 1)
    ensures Legs(OnStart, got) == Down <==> |got| >= 1 && (got[0] != Yes || RanOut(got, 1))
  {
    if got != [] {
      var rest := got[1..];
      if got[0] == Yes {
        ProbeLeads(rest);
        Shifted(got);
      } else {
        StampLeads(Down, rest);
      }
    }
  }

  lemma Shifted(got: seq<Answer>)
    requires got != []
    ensures (Served(got[1..], 0) ==> Served(got, 1)) && (RanOut(got[1..], 0) <==> RanOut(got, 1))
  {
    var rest := got[1..];
    if Served(rest, 0) {
      var k :| 0 <= k < |rest| && rest[k] == Yes && forall m :: 0 <= m < k ==> rest[m] == No;
      assert got[k + 1] == Yes && forall m :: 1 <= m < k + 1 ==> got[m] == rest[m - 1];
    }
    if RanOut(rest, 0) {
      var k :| 0 <= k < |rest| && rest[k] == Other && forall m :: 0 <= m < k ==> rest[m] == No;
      assert got[k + 1] == Other && forall m :: 1 <= m < k + 1 ==> got[m] == rest[m - 1];
    }
    if RanOut(got, 1) {
      var k :| 1 <= k < |got| && got[k] == Other && forall m :: 1 <= m < k ==> got[m] == No;
      assert rest[k - 1] == Other && forall m :: 0 <= m < k - 1 ==> rest[m] == got[m + 1];
    }
  }

  /** A wake that has issued Start returns nil only if Start succeeded and a probe after it said
      serving, and returns an error exactly when Start failed or the probes ran out of time first. */
  lemma StartedWakeMeans(u: Unit, es: seq<Event>, v: Unit, t: Tid)
    requires Reaches(u, es, v) && OneWake(es, t) && t in u.threads && u.threads[t] == Starting
    ensures t in v.threads
    ensures var got := Answers(es, t);
      && (v.threads[t] == WakeDone(true) ==> |got| >= 2 && got[0] == Yes && Served(got, 1))
      && (v.threads[t] == WakeDone(false) <==> |got| >= 1 && (got[0] != Yes || RanOut(got, 1)))
  {
    hide Reaches, OneWake, Served, RanOut, Legs, Answers;
    RunIsOnLeg(u, es, v, t);
    StartLeads(Answers(es, t));
  }

  /** A wake that has issued Unpause returns nil if that succeeded, and otherwise only by way of a
      Start. */
  lemma ThawedWakeMeans(u: Unit, es: seq<Event>, v: Unit, t: Tid)
    requires Reaches(u, es, v) && OneWake(es, t) && t in u.threads && u.threads[t] == Unpausing
    ensures t in v.threads
    ensures var got := Answers(es, t);
      && (v.threads[t] == WakeDone(true) ==> |got| >= 1 && (got[0] == Yes || (|got| >= 3 && got[1] == Yes && Served(got[1..], 1))))
      && (v.threads[t] == WakeDone(false) <==> |got| >= 2 && got[0] != Yes && (got[1] != Yes || RanOut(got[1..], 1)))
  {
    hide Reaches, OneWake, Served, RanOut, Answers;
    RunIsOnLeg(u, es, v, t);
    var got := Answers(es, t);
    if got != [] {
      var rest := got[1..];
      if got[0] == Yes {
        StampLeads(OnStamp(2), rest);
      } else {
        StartLeads(rest);
      }
      hide Legs;
    }
  }

  // -------------------------------------------------------------------------
  // Belief and container

  /** Believed awake means running; a sleep past its decision has taken the belief back, a probe is of
      a container that was started, and a wake that trusts the belief finds it there. */
  ghost predicate Agree(u: Unit) {
    && (u.facts.awake ==> u.facts.box == Running)
    && forall t :: t in u.threads ==> Fits(u.facts, u.threads[t])
  }

  predicate Fits(f: Facts, pc: Pc) {
    && (pc.SleepPausing? || pc.SleepStopping? ==> !f.awake)
    && (pc.Probing? ==> f.box == Running)
    && (Trusts(pc) ==> f.awake)
  }

  /** A sleep takes its own failure to mean that the workload still runs, when it does not. */
  predicate Misleads(u: Unit, e: Event) {
    && e.Advance? && e.tid in u.threads && u.facts.box != Running
    && ((u.threads[e.tid].SleepPausing? && e.answer != Yes) || (u.threads[e.tid].SleepStopping? && e.answer == Other))
  }

  /** Nobody outside touches the container, and no failed dial revokes the belief. */
  predicate Inner(e: Event) {
    !e.Outside? && !e.Revoke?
  }

  lemma StepAgrees(u: Unit, pc: Pc, a: Answer)
    requires Fits(u.facts, pc) && (u.facts.awake ==> u.facts.box == Running)
    ensures
      var o := Step(u, pc, a);
      var misled := u.facts.box != Running && ((pc.SleepPausing? && a != Yes) || (pc.SleepStopping? && a == Other));
      && ((o.facts.awake ==> o.facts.box == Running) <==> !misled)
      && (!misled && o.next.At? ==> Fits(o.facts, o.next.pc))
      && (!Inside(pc) ==> o.facts.awake == u.facts.awake && o.facts.box == u.facts.box)
  {
    if IsWake(pc) {
      hide SleepStep, OtherStep;
    } else if IsSleep(pc) {
      hide WakeStep, OtherStep;
    } else {
      hide WakeStep, SleepStep;
    }
  }

  /** Who is outside the lock fits any belief. */
  lemma OutsideFits(f: Facts, pc: Pc)
    requires !Inside(pc)
    ensures Fits(f, pc)
  {
  }

  /** The exact condition, step by step: belief and container go on agreeing unless a sleep's call
      fails on a container that is not running. */
  lemma AgreeingIff(u: Unit, e: Event)
    requires Inv(u) && Agree(u) && Enabled(u, e) && Inner(e)
    ensures Agree(Apply(u, e)) <==> !Misleads(u, e)
  {
    var v := Apply(u, e);
    if e.Advance? {
      var pc := u.threads[e.tid];
      StepAgrees(u, pc, e.answer);
      forall t | t in v.threads && t != e.tid ensures Fits(v.facts, v.threads[t]) {
        assert v.threads[t] == u.threads[t];
        if Inside(pc) {
          assert !Inside(u.threads[t]);
          OutsideFits(v.facts, v.threads[t]);
        } else {
          assert Fits(u.facts, u.threads[t]);
        }
      }
      hide Step, Inside, Fits;
    } else {
      hide Step, Inside;
      assert v.facts == u.facts;
      assert e.Arrive? ==> Fits(u.facts, e.pc);
      hide Fits;
    }
  }

  /** No event of the run comes from outside, and none misleads. */
  ghost predicate Straight(u: Unit, es: seq<Event>)
    decreases |es|
  {
    es == [] || (Inner(es[0]) && !Misleads(u, es[0]) && (Enabled(u, es[0]) ==> Straight(Apply(u, es[0]), es[1..])))
  }

  lemma {:induction false} RunAgrees(u: Unit, es: seq<Event>, v: Unit)
    requires Inv(u) && Agree(u) && Reaches(u, es, v) && Straight(u, es)
    ensures Inv(v) && Agree(v)
    decreases |es|
  {
    hide Inv, Agree, Enabled, Apply, Misleads, Inner;
    if es != [] {
      StepKeepsInv(u, es[0]);
      AgreeingIff(u, es[0]);
      RunAgrees(Apply(u, es[0]), es[1..], v);
    }
  }

  /** In every such run, a wake that returns nil leaves its container running and believed awake. */
  lemma NilMeansRunning(u: Unit, es: seq<Event>, v: Unit, t: Tid, a: Answer)
    requires Inv(u) && Agree(u) && Reaches(u, es, v) && Straight(u, es)
    requires Enabled(v, Advance(t, a)) && IsWake(v.threads[t])
    requires var w := Apply(v, Advance(t, a)); t in w.threads && w.threads[t] == WakeDone(true)
    ensures var w := Apply(v, Advance(t, a)); w.facts.box == Running && w.facts.awake && w.facts.lastByte <= w.now
  {
    hide Reaches, Straight;
    RunAgrees(u, es, v);
    StepKeepsPast(v, Advance(t, a));
    assert v.threads[t].WakeStoring?;
  }

  // -------------------------------------------------------------------------
  // It does happen that one misleads

  /** A sleep queued for a unit it freezes when idle goes on to its Pause, which fails. */
  lemma QueuedSleepFails(u: Unit, t: Tid) returns (es: seq<Event>, v: Unit)
    requires t in u.threads && u.threads[t] == SleepQueued && u.lock == Free && u.freezeOnIdle
    requires u.now - u.facts.lastByte >= u.window
    ensures Reaches(u, es, v) && ByThreads(es) && v.facts.awake && v.facts.box == u.facts.box && v.lock == Free && v.held == u.held
    ensures v.threads.Keys == u.threads.Keys
  {
    hide WakeStep, OtherStep;
    var step := Advance(t, Yes);
    var u1 := Apply(u, step);
    var u2 := Apply(u1, step);
    assert u2.threads[t] == SleepDecided(u.now) && u2.lock == HeldBy(t) && u2.held == u.held && u2.facts.box == u.facts.box;
    assert u2.threads.Keys == u.threads.Keys && u2.freezeOnIdle;
    hide Reaches;
    es, v := DecidedSleepFails(u2, t);
    Prepend(u1, step, es, v);
    Prepend(u, step, [step] + es, v);
    es := [step] + ([step] + es);
  }

  lemma DecidedSleepFails(u: Unit, t: Tid) returns (es: seq<Event>, v: Unit)
    requires t in u.threads && u.threads[t].SleepDecided? && u.lock == HeldBy(t) && u.freezeOnIdle
    ensures Reaches(u, es, v) && ByThreads(es) && v.facts.awake && v.facts.box == u.facts.box && v.lock == Free && v.held == u.held
    ensures v.threads.Keys == u.threads.Keys
  {
    hide WakeStep, OtherStep;
    var step, fail := Advance(t, Yes), Advance(t, No);
    var u1 := Apply(u, step);
    v := Apply(u1, fail);
    Prepend(u1, fail, [], v);
    es := [step] + ([fail] + []);
    Prepend(u, step, [fail] + [], v);
  }

  lemma BothByThreads(es: seq<Event>, fs: seq<Event>)
    requires ByThreads(es) && ByThreads(fs)
    ensures ByThreads(es + fs)
  {
  }

  /** A wake of a unit believed awake returns nil, whatever its container is. */
  lemma WakeTrusts(u: Unit, t: Tid) returns (es: seq<Event>, v: Unit)
    requires t !in u.threads && u.lock == Free && u.facts.awake && !u.held
    ensures Reaches(u, es, v) && ByThreads(es) && t in v.threads && v.threads[t] == WakeDone(true) && v.facts.box == u.facts.box
  {
    var last := Advance(t, Yes);
    var a, m := FastPath(u, t);
    v := Apply(m, last);
    assert v.threads[t] == WakeDone(true) && v.facts.box == u.facts.box;
    hide Reaches, Apply, Enabled;
    Extend(u, a, m, last);
    BothByThreads(a, [last]);
    es := a + [last];
  }

  /** With a sleep of the unit queued, a pause on purpose gets to it first, and then the sleep's own
      Pause fails: the paused unit is believed awake. */
  lemma SleepMisleads(u: Unit) returns (es: seq<Event>, v: Unit)
    requires u.threads == map[1 := SleepQueued] && u.lock == Free && u.freezeOnIdle && !u.facts.frozen
    requires u.now - u.facts.lastByte >= u.window
    ensures Reaches(u, es, v) && ByThreads(es) && v.facts.awake && v.facts.box == Paused && v.lock == Free && v.held == u.held
    ensures 3 !in v.threads
  {
    hide Reaches, Apply, Enabled;
    var a, m := FreezePauses(u, 2);
    assert 1 in m.threads && m.threads[1] == SleepQueued && 3 !in m.threads;
    var b;
    b, v := QueuedSleepFails(m, 1);
    Joined(u, a, m, b, v);
    BothByThreads(a, b);
    es := a + b;
  }

  /** So a wake can return nil with the unit paused: the reaper decides on it, a pause on purpose gets
      to it first, and the sleep's own Pause fails. */
  lemma NilOverPaused() returns (start: Unit, es: seq<Event>, u: Unit, t: Tid)
    ensures Initial(start) && Agree(start) && Reaches(start, es, u) && ByThreads(es)
    ensures t in u.threads && u.threads[t] == WakeDone(true) && u.facts.box == Paused
  {
    t := 3;
    start := Unit(9, false, 5, true, Facts(0, true, false, false, Running), Free, map[]);
    var arrive, mark := Arrive(1, SleepDue), Advance(1, Yes);
    var s1 := Apply(start, arrive);
    var m := Apply(s1, mark);
    assert m.threads == map[1 := SleepQueued] && m.lock == Free && !m.held && m.facts == Facts(0, true, false, true, Running);
    hide Reaches, Apply, Enabled;
    var a, o := SleepMisleads(m);
    var b;
    b, u := WakeTrusts(o, 3);
    Joined(m, a, o, b, u);
    BothByThreads(a, b);
    Prepend(s1, mark, a + b, u);
    Prepend(start, arrive, [mark] + (a + b), u);
    BothByThreads([mark], a + b);
    es := [arrive] + ([mark] + (a + b));
    BothByThreads([arrive], [mark] + (a + b));
  }

  // -------------------------------------------------------------------------
  // What the other calls leave

  /** A sleep that froze the unit leaves it paused, frozen and asleep; one that stopped it, stopped and
      asleep; one whose call failed leaves the container as it was, believed awake again where the
      workload is said to run on, so that it is found idle again. */
  lemma SleepLeaves(u: Unit, t: Tid, a: Answer)
    requires Inv(u) && Agree(u) && t in u.threads && (u.threads[t].SleepPausing? || u.threads[t].SleepStopping?)
    ensures
      var v, pausing := Apply(u, Advance(t, a)), u.threads[t].SleepPausing?;
      && v.lock == Free && t in v.threads && v.threads[t] == SleepReturned && v.facts.lastByte == u.facts.lastByte
      && (a == Yes ==> !v.facts.awake && v.facts.box == if pausing then Paused else Stopped)
      && (a == Yes && pausing ==> v.facts.frozen)
      && (a != Yes ==> v.facts.box == u.facts.box && (v.facts.awake <==> pausing || a == Other))
  {
    assert u.lock == HeldBy(t);
    hide WakeStep, OtherStep;
  }

  /** A pause on purpose that returns nil leaves the unit asleep, paused and frozen, unless it was not
      running; one that fails leaves everything as it was. */
  lemma FreezeLeaves(u: Unit, t: Tid, a: Answer)
    requires Inv(u) && t in u.threads && u.threads[t].FreezePausing?
    ensures
      var v := Apply(u, Advance(t, a));
      && v.lock == Free && t in v.threads && v.threads[t] == FreezeDone(a != No)
      && (a == Yes ==> v.facts.box == Paused && v.facts.frozen && !v.facts.awake)
      && (a == Other ==> v.facts == u.facts.(awake := false))
      && (a == No ==> v.facts == u.facts)
  {
    assert u.lock == HeldBy(t);
    hide WakeStep, SleepStep;
  }

  /** It pauses nothing that is frozen already. */
  lemma FreezeBegins(u: Unit, t: Tid, a: Answer)
    requires Inv(u) && t in u.threads && u.threads[t].FreezeEntered?
    ensures
      var v := Apply(u, Advance(t, a));
      && t in v.threads && v.threads[t] == (if u.facts.frozen then FreezeDone(true) else FreezePausing) && v.facts == u.facts
      && v.lock == if u.facts.frozen then Free else HeldBy(t)
  {
    assert u.lock == HeldBy(t);
    hide WakeStep, SleepStep;
  }

  /** A correction that got its second listing leaves a belief the container bears out. */
  lemma CorrectionLeaves(u: Unit, t: Tid, a: Answer)
    requires t in u.threads && u.threads[t].Correcting?
    ensures
      var v := Apply(u, Advance(t, a));
      && t !in v.threads && v.facts.box == u.facts.box
      && (a == No || u.facts.box == Running ==> v.facts == u.facts)
      && (a != No && u.facts.box != Running ==> !v.facts.awake && (v.facts.frozen <==> u.facts.box == Paused))
  {
    hide WakeStep, SleepStep;
  }

  /** It begins whenever nobody has the lock, and never waits for it. */
  lemma CorrectionTries(u: Unit, t: Tid)
    ensures Enabled(u, Arrive(t, Correcting)) <==> t !in u.threads && u.lock == Free
    ensures Enabled(u, Arrive(t, Correcting)) ==> Apply(u, Arrive(t, Correcting)).lock == HeldBy(t)
  {
  }

  /** A wake that was let in calls nobody for a unit believed awake, unpauses one believed frozen, and
      starts any other; an awake belief it was asked to confirm it drops when the container is found
      not to run, and keeps when the provider cannot say. */
  lemma WakeCalls(u: Unit, t: Tid, a: Answer)
    requires Enabled(u, Advance(t, a))
    ensures
      var v := Apply(u, Advance(t, a));
      && (u.threads[t] == WakeAdmitted(false) && u.facts.awake ==> t in v.threads && v.threads[t] == WakeSampling)
      && (u.threads[t] == WakeAdmitted(true) && u.facts.awake ==> t in v.threads && v.threads[t] == Confirming)
      && (u.threads[t].WakeAdmitted? && !u.facts.awake ==> t in v.threads && v.threads[t] == WakeCold)
      && (u.threads[t] == Confirming && a != No && u.facts.box != Running ==>
            t in v.threads && v.threads[t] == WakeCold && !v.facts.awake)
      && (u.threads[t] == Confirming && (a == No || u.facts.box == Running) ==>
            t in v.threads && v.threads[t] == WakeSampling && v.facts == u.facts)
      && (u.threads[t] == WakeCold ==>
            t in v.threads && v.threads[t] == (if u.facts.frozen then Unpausing else Starting) && !v.facts.frozen)
  {
    hide SleepStep, OtherStep;
  }

  // -------------------------------------------------------------------------
  // One sleep at a time

  /** The reaper's mark is on exactly while one sleep of the unit is under way. */
  ghost predicate OneSleep(u: Unit) {
    && (forall x, y :: x in u.threads && y in u.threads && Marked(u.threads[x]) && Marked(u.threads[y]) ==> x == y)
    && (HasMarked(u) ==> u.facts.stopping)
  }

  lemma StepMarks(u: Unit, pc: Pc, a: Answer)
    ensures
      var o := Step(u, pc, a);
      && (o.next.At? && Marked(o.next.pc) && !Marked(pc) ==> !u.facts.stopping && o.facts.stopping)
      && (o.next.At? && Marked(o.next.pc) && Marked(pc) ==> o.facts.stopping == u.facts.stopping)
      && (!Marked(pc) && u.facts.stopping ==> o.facts.stopping)
  {
  }

  lemma EventKeepsOneSleep(u: Unit, e: Event)
    requires OneSleep(u) && Enabled(u, e)
    ensures OneSleep(Apply(u, e))
  {
    var v := Apply(u, e);
    if e.Advance? {
      StepMarks(u, u.threads[e.tid], e.answer);
    }
    hide Step, Inside;
    forall x | x in v.threads && Marked(v.threads[x]) && !(e.Advance? && e.tid == x) ensures x in u.threads && Marked(u.threads[x]) && HasMarked(u) {
      assert x in u.threads;
    }
    hide Marked;
  }

  lemma {:induction false} RunKeepsOneSleep(u: Unit, es: seq<Event>, v: Unit)
    requires OneSleep(u) && Reaches(u, es, v)
    ensures OneSleep(v)
    decreases |es|
  {
    hide OneSleep, Enabled, Apply;
    if es != [] {
      EventKeepsOneSleep(u, es[0]);
      RunKeepsOneSleep(Apply(u, es[0]), es[1..], v);
    }
  }

  /** In every run the reaper has at most one sleep of a unit under way, and its mark says whether. */
  lemma OneSleepAtATime(u: Unit, es: seq<Event>, v: Unit)
    requires Initial(u) && Reaches(u, es, v)
    ensures OneSleep(v) && (v.facts.stopping <==> HasMarked(v))
  {
    RunKeepsOneSleep(u, es, v);
    RunKeepsInv(u, es, v);
    hide Reaches, OneSleep;
    assert v.facts.stopping ==> HasMarked(v);
    OneSleepMeans(v);
  }

  lemma OneSleepMeans(v: Unit)
    requires OneSleep(v)
    ensures HasMarked(v) ==> v.facts.stopping
  {
  }
}
