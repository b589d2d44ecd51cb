/**
 A resume under way when a sandbox is paused. Thaw clears each unit's flag a second time just before
 it wakes it, without waiting for a Hold: if a pause set that flag in between, it is cleared under the
 pause, and the wake that follows is let in. From internal/daemon/freeze.go.
 */
module ThawRace {
  import opened Counting
  import opened UnitLock
  import opened PauseHold

  // -------------------------------------------------------------------------
  // Runs

  lemma {:induction false} Chained(s: Sandbox, a: seq<Act>, m: Sandbox, b: seq<Act>, t: Sandbox)
    requires Run(s, a, m) && Run(m, b, t)
    ensures Run(s, a + b, t)
    decreases |a|
  {
    hide Can, Do;
    if a == [] {
      assert a + b == b;
    } else {
      assert (a + b)[1..] == a[1..] + b;
      Chained(Do(s, a[0]), a[1..], m, b, t);
    }
  }

  lemma First(s: Sandbox, a: Act, acts: seq<Act>, t: Sandbox)
    requires Can(s, a) && Run(Do(s, a), acts, t)
    ensures Run(s, [a] + acts, t)
  {
    hide Can, Do;
    assert ([a] + acts)[1..] == acts;
  }

  ghost predicate OnlyAdvances(es: seq<Event>) {
    forall e :: e in es ==> e.Advance?
  }

  /** A run of one unit's threads is one of the sandbox. */
  lemma {:induction false} Lifted(s: Sandbox, x: Name, es: seq<Event>, v: Unit) returns (acts: seq<Act>)
    requires x in s.units && Reaches(s.units[x], es, v) && OnlyAdvances(es)
    ensures Run(s, acts, SetUnit(s, x, v))
    decreases |es|
  {
    hide Apply, Enabled;
    if es == [] {
      acts := [];
      assert SetUnit(s, x, v).units == s.units;
    } else {
      assert es[0] in es && forall e :: e in es[1..] ==> e in es;
      var m := Apply(s.units[x], es[0]);
      var n := SetUnit(s, x, m);
      acts := Lifted(n, x, es[1..], v);
      assert SetUnit(n, x, v).units == SetUnit(s, x, v).units;
      First(s, OnUnit(x, es[0]), acts, SetUnit(s, x, v));
      acts := [OnUnit(x, es[0])] + acts;
    }
  }

  // -------------------------------------------------------------------------
  // One unit

  /** v's threads are u's, but for some that ended, and c's own. */
  ghost predicate NobodyNew(u: Unit, c: Tid, v: Unit) {
    v.held == u.held && forall d :: d != c && d in v.threads ==> d in u.threads
  }

  /** Whoever holds the lock leaves it; a thread in the queue stays there. */
  lemma LockComesFree(u: Unit, c: Tid) returns (es: seq<Event>, v: Unit)
    requires Inv(u) && c in u.threads && Queued(u.threads[c])
    ensures Reaches(u, es, v) && OnlyAdvances(es) && NobodyNew(u, c, v)
    ensures v.lock == Free && c in v.threads && v.threads[c] == u.threads[c]
  {
    if u.lock == Free {
      es, v := [], u;
    } else {
      assert c != u.lock.tid;
      es, v := LockIsLeft(u, u.lock.tid);
    }
  }

  /** A freeze in the queue gets to its end. */
  lemma FreezeGetsThere(u: Unit, c: Tid) returns (es: seq<Event>, v: Unit)
    requires Inv(u) && c in u.threads && u.threads[c] == FreezeQueued
    ensures Reaches(u, es, v) && OnlyAdvances(es) && NobodyNew(u, c, v)
    ensures c in v.threads && v.threads[c] == FreezeDone(true)
  {
    var a, m := LockComesFree(u, c);
    var step := Advance(c, Yes);
    var n := Apply(m, step);
    assert n.threads[c] == FreezeEntered && n.lock == HeldBy(c) && NobodyNew(m, c, n);
    var b;
    b, v := LockIsLeft(n, c);
    hide Reaches, Apply, Enabled, Inv, Step;
    assert Enabled(m, step);
    Prepend(m, step, b, v);
    Joined(u, a, m, [step] + b, v);
    es := a + ([step] + b);
  }

  /** With the flag clear, a wake that took the lock is let in. */
  lemma EnteredGetsIn(u: Unit, d: Tid) returns (es: seq<Event>, v: Unit)
    requires d in u.threads && u.threads[d].WakeEntered? && !u.held && u.lock == HeldBy(d)
    ensures Reaches(u, es, v) && OnlyAdvances(es) && NobodyNew(u, d, v)
    ensures d in v.threads && LetIn(v.threads[d]) && v.lock == HeldBy(d)
  {
    hide SleepStep, OtherStep;
    var step := Advance(d, Yes);
    v := Apply(u, step);
    Prepend(u, step, [], v);
    es := [step] + [];
  }

  /** With the flag clear, a wake still to be checked is let in. */
  lemma WakeGetsIn(u: Unit, d: Tid) returns (es: seq<Event>, v: Unit)
    requires Inv(u) && d in u.threads && (u.threads[d].WakeQueued? || u.threads[d].WakeEntered?) && !u.held
    ensures Reaches(u, es, v) && OnlyAdvances(es) && NobodyNew(u, d, v)
    ensures d in v.threads && LetIn(v.threads[d]) && v.lock == HeldBy(d)
  {
    if u.threads[d].WakeEntered? {
      es, v := EnteredGetsIn(u, d);
    } else {
      var a, m := LockComesFree(u, d);
      var step := Advance(d, Yes);
      var n := Apply(m, step);
      assert n.threads[d].WakeEntered? && !n.held && n.lock == HeldBy(d) && NobodyNew(m, d, n);
      hide Reaches, Apply, Inv, Step, Enabled;
      var b;
      b, v := EnteredGetsIn(n, d);
      Prepend(m, step, b, v);
      Joined(u, a, m, [step] + b, v);
      es := a + ([step] + b);
    }
  }

  /** A wake that may come up does. */
  lemma LiveComesUp(u: Unit, d: Tid) returns (es: seq<Event>, v: Unit)
    requires Inv(u) && Live(u, d)
    ensures Reaches(u, es, v) && OnlyAdvances(es) && NobodyNew(u, d, v)
    ensures d in v.threads && v.threads[d] == WakeDone(true)
  {
    if u.threads[d] == WakeDone(true) {
      es, v := [], u;
    } else if LetIn(u.threads[d]) {
      assert Inside(u.threads[d]);
      es, v := WakeSucceeds(u, d);
    } else {
      var a, m := WakeGetsIn(u, d);
      hide Reaches, Inv;
      var b;
      b, v := WakeSucceeds(m, d);
      Joined(u, a, m, b, v);
      es := a + b;
    }
  }

  // -------------------------------------------------------------------------
  // The pause gets to its end while the resume waits

  /** t is s but for call c, which moved on, and for what the units' threads did. */
  ghost predicate Beside(s: Sandbox, c: Tid, t: Sandbox) {
    && t.units.Keys == s.units.Keys && t.releases == s.releases && c in s.calls && c in t.calls
    && t.calls == s.calls[c := t.calls[c]]
    && (forall d :: NotIn(s, d) ==> NotIn(t, d))
  }

  lemma BesideTwice(s: Sandbox, c: Tid, m: Sandbox, t: Sandbox)
    requires Beside(s, c, m) && Beside(m, c, t)
    ensures Beside(s, c, t)
  {
    hide NotIn;
  }

  /** The freeze of the unit a call is at, from entering it to its thread's end. */
  lemma UnitFreezes(s: Sandbox, c: Tid) returns (acts: seq<Act>, t: Sandbox)
    requires SandboxInv(s) && AtUnit(s, c) && s.calls[c].Freezing? && NotIn(s, c)
    ensures Run(s, acts, t) && t.calls == s.calls && t.releases == s.releases && t.units.Keys == s.units.Keys
    ensures c in UnitAt(t, c).threads && UnitAt(t, c).threads[c] == FreezeDone(true)
    ensures forall d :: d != c && NotIn(s, d) ==> NotIn(t, d)
    ensures forall x :: x in s.units && x != NameAt(s, c) ==> c !in t.units[x].threads
  {
    var x, u := NameAt(s, c), UnitAt(s, c);
    var m := Do(s, EnterFreeze(c));
    EnterGoes(s, c, true, FreezeQueued);
    var w := m.units[x];
    assert w.threads[c] == FreezeQueued && forall d :: d != c && d in w.threads ==> d in u.threads;
    var es, v := FreezeGetsThere(w, c);
    hide Reaches, Inv, Apply, Enabled, SandboxInv;
    acts := Lifted(m, x, es, v);
    t := SetUnit(m, x, v);
    First(s, EnterFreeze(c), acts, t);
    acts := [EnterFreeze(c)] + acts;
    forall d | d != c && NotIn(s, d) ensures NotIn(t, d) {
      forall y | y in t.units ensures d !in t.units[y].threads {
        assert d !in s.units[y].threads;
      }
    }
  }

  /** One unit is frozen and the call goes on. */
  lemma FreezeGoesOn(s: Sandbox, c: Tid) returns (acts: seq<Act>, t: Sandbox)
    requires SandboxInv(s) && AtUnit(s, c) && s.calls[c].Freezing? && NotIn(s, c)
    ensures Run(s, acts, t) && Beside(s, c, t) && NotIn(t, c)
    ensures
      var Freezing(us, i, since, clean) := s.calls[c];
      t.calls[c] == if i + 1 == |us| then Returned(us, since, clean, true) else Freezing(us, i + 1, since, clean)
  {
    var m;
    acts, m := UnitFreezes(s, c);
    var leave := LeaveFreeze(c);
    assert Can(m, leave);
    t := Do(m, leave);
    var u, v := UnitAt(m, c), Apply(UnitAt(m, c), Collect(c));
    assert c !in v.threads && forall d :: d in v.threads ==> d in u.threads;
    assert t.units == m.units[NameAt(m, c) := v];
    hide Run, SandboxInv, Apply, Enabled;
    forall d | NotIn(s, d) ensures NotIn(t, d) {
      forall y | y in t.units ensures d !in t.units[y].threads {
        assert d != c ==> NotIn(m, d);
      }
    }
    Single(m, leave);
    Chained(s, acts, m, [leave], t);
    acts := acts + [leave];
  }

  lemma Single(s: Sandbox, a: Act)
    requires Can(s, a)
    ensures Run(s, [a], Do(s, a))
  {
    hide Can, Do;
    assert [a][1..] == [];
  }

  /** Every unit is frozen and the call returns nil. */
  lemma {:induction false} FreezeReturns(s: Sandbox, c: Tid) returns (acts: seq<Act>, t: Sandbox)
    requires SandboxInv(s) && AtUnit(s, c) && s.calls[c].Freezing? && NotIn(s, c)
    ensures Run(s, acts, t) && Beside(s, c, t)
    ensures t.calls[c] == Returned(s.calls[c].us, s.calls[c].since, s.calls[c].clean, true)
    decreases |s.calls[c].us| - s.calls[c].i
  {
    acts, t := FreezeGoesOn(s, c);
    if t.calls[c].Freezing? {
      RunKeepsSandbox(s, acts, t);
      assert Placed(t, c);
      AtItsUnit(t, c);
      var more, end := FreezeReturns(t, c);
      hide Run, SandboxInv;
      BesideTwice(s, c, t, end);
      Chained(s, acts, t, more, end);
      acts, t := acts + more, end;
    }
  }

  lemma AtItsUnit(s: Sandbox, c: Tid)
    requires c in s.calls && Placed(s, c) && (s.calls[c].Freezing? || s.calls[c].Storing? || s.calls[c].Waking?)
    ensures AtUnit(s, c)
  {
    var x := s.calls[c].us[s.calls[c].i];
    assert x in s.calls[c].us;
  }

  // -------------------------------------------------------------------------
  // The resume goes on

  /** A Thaw that can still clear a flag gets to where it is about to. */
  lemma GetsToStore(s: Sandbox, d: Tid) returns (acts: seq<Act>, t: Sandbox)
    requires SandboxInv(s) && d in s.calls && Clears(s, d)
    ensures Run(s, acts, t) && Beside(s, d, t) && t.calls[d].Storing?
  {
    if s.calls[d].Storing? {
      acts, t := [], s;
      assert s.calls == s.calls[d := s.calls[d]];
    } else {
      var m;
      acts, m := WakeComesUp(s, d);
      var leave := LeaveWake(d);
      assert Can(m, leave);
      t := Do(m, leave);
      var u, v := UnitAt(m, d), Apply(UnitAt(m, d), Collect(d));
      assert forall x :: x in v.threads ==> x in u.threads;
      assert t.units == m.units[NameAt(m, d) := v];
      hide Run, SandboxInv, Apply, Enabled;
      forall x | NotIn(s, x) ensures NotIn(t, x) {
        forall y | y in t.units ensures x !in t.units[y].threads {
          assert NotIn(m, x);
        }
      }
      Single(m, leave);
      Chained(s, acts, m, [leave], t);
      acts := acts + [leave];
    }
  }

  /** A Thaw's wake that may come up does. */
  lemma WakeComesUp(s: Sandbox, d: Tid) returns (acts: seq<Act>, t: Sandbox)
    requires SandboxInv(s) && d in s.calls && Clears(s, d) && s.calls[d].Waking?
    ensures Run(s, acts, t) && t.calls == s.calls && t.releases == s.releases && t.units.Keys == s.units.Keys
    ensures d in UnitAt(t, d).threads && UnitAt(t, d).threads[d] == WakeDone(true)
    ensures forall x :: NotIn(s, x) ==> NotIn(t, x)
  {
    var x, u := NameAt(s, d), UnitAt(s, d);
    assert Inv(u) && d in u.threads;
    var es, v := LiveComesUp(u, d);
    acts := Lifted(s, x, es, v);
    t := SetUnit(s, x, v);
    hide Run, Reaches, SandboxInv, Inv;
    forall y | NotIn(s, y) ensures NotIn(t, y) {
      assert y !in u.threads;
    }
  }

  /** A Thaw about to clear a flag clears it, and its wake is let in. */
  lemma StoreLetsIn(s: Sandbox, d: Tid) returns (acts: seq<Act>, t: Sandbox)
    requires SandboxInv(s) && AtUnit(s, d) && s.calls[d].Storing? && NotIn(s, d)
    ensures Run(s, acts, t) && t.releases == s.releases && (forall c :: c in s.calls && c != d ==> c in t.calls && t.calls[c] == s.calls[c])
    ensures !NobodyIn(t)
  {
    var x := NameAt(s, d);
    var m := Do(s, Store(d));
    EnterGoes(s, d, false, WakeQueued(false));
    var w := m.units[x];
    assert w.threads[d] == WakeQueued(false) && !w.held;
    var es, v := WakeGetsIn(w, d);
    hide Reaches, Inv, Apply, Enabled, SandboxInv, LetIn;
    acts := Lifted(m, x, es, v);
    t := SetUnit(m, x, v);
    First(s, Store(d), acts, t);
    acts := [Store(d)] + acts;
    assert t.units[x] == v && d in v.threads && LetIn(v.threads[d]);
  }

  // -------------------------------------------------------------------------
  // The exact condition

  /** A Freeze that has set the hold stays that call, with the stamp it got then. */
  ghost predicate Stamped(s: Sandbox, c: Tid, since: nat, clean: bool) {
    && c in s.calls && (s.calls[c].Freezing? || s.calls[c].GivingUp? || s.calls[c].Returned?)
    && s.calls[c].since == since && s.calls[c].clean == clean
  }

  lemma ActKeepsStamp(s: Sandbox, a: Act, c: Tid, since: nat, clean: bool)
    requires Can(s, a) && Stamped(s, c, since, clean)
    ensures Stamped(Do(s, a), c, since, clean)
  {
    hide Apply, Enabled, Danger;
  }

  lemma {:induction false} RunKeepsStamp(s: Sandbox, acts: seq<Act>, t: Sandbox, c: Tid, since: nat, clean: bool)
    requires Run(s, acts, t) && Stamped(s, c, since, clean)
    ensures Stamped(t, c, since, clean)
    decreases |acts|
  {
    hide Can, Do, Stamped;
    if acts != [] {
      ActKeepsStamp(s, acts[0], c, since, clean);
      RunKeepsStamp(Do(s, acts[0]), acts[1..], t, c, since, clean);
    }
  }

  lemma CleanHoldIsKept(h: Sandbox, acts: seq<Act>, t: Sandbox, c: Tid, since: nat)
    requires SandboxInv(h) && Stamped(h, c, since, true) && Run(h, acts, t) && HoldsStill(t, c)
    ensures NobodyIn(t)
  {
    RunKeepsStamp(h, acts, t, c, since, true);
    RunKeepsSandbox(h, acts, t);
    hide Run, UnitsInv, Quiet, Danger, NobodyIn;
    assert Holds(t, c);
    QuietMeansNobodyIn(t);
  }

  /** Freeze's own Hold is about to end. */
  ghost predicate HoldEnds(s: Sandbox, c: Tid) {
    Can(s, EndSweep) && s.sweep.owner == c && s.calls[c].Begun?
  }

  lemma HeldDanger(s: Sandbox, c: Tid)
    requires HoldEnds(s, c) && Danger(s)
    ensures exists d :: d != c && d in Do(s, EndSweep).calls && Clears(Do(s, EndSweep), d)
  {
    hide Live;
    var h := Do(s, EndSweep);
    var d :| d in s.calls && Clears(s, d);
    assert d != c && h.calls[d] == s.calls[d];
    assert AtUnit(h, d) && UnitAt(h, d) == UnitAt(s, d);
    assert Clears(h, d);
  }

  /** A pause whose Hold ends while a Thaw can still clear a flag can return nil, with no release after
      it, and have a wake let in on one of its units. */
  lemma ThawBreaksPause(s: Sandbox, c: Tid) returns (acts: seq<Act>, t: Sandbox)
    requires SandboxInv(s) && HoldEnds(s, c) && Danger(s)
    ensures Run(Do(s, EndSweep), acts, t) && HoldsStill(t, c)
    ensures exists x, w :: x in t.units && w in t.units[x].threads && LetIn(t.units[x].threads[w])
  {
    var h := Do(s, EndSweep);
    HeldDanger(s, c);
    ActKeepsInv(s, EndSweep);
    assert Placed(s, c);
    assert NotIn(h, c) && h.calls[c] == Freezing(s.calls[c].us, 0, h.releases, false);
    hide Can, Do, Danger, Clears, Quiet, Apply, Holds, LetIn;
    var d :| d != c && d in h.calls && Clears(h, d);
    var a1, h1 := GetsToStore(h, d);
    RunKeepsSandbox(h, a1, h1);
    assert Placed(h1, d) && Placed(h1, c) && NotIn(h1, c) && NotIn(h1, d);
    AtItsUnit(h1, c);
    var a2, h2 := FreezeReturns(h1, c);
    RunKeepsSandbox(h1, a2, h2);
    assert Placed(h2, d);
    AtItsUnit(h2, d);
    hide SandboxInv, Run, UnitsInv;
    var a3;
    a3, t := StoreLetsIn(h2, d);
    Chained(h1, a2, h2, a3, t);
    Chained(h, a1, h1, a2 + a3, t);
    acts := a1 + (a2 + a3);
  }

  /** The exact condition: a Freeze keeps every wake out, in every run, from its return until a release
      begins, if and only if no Thaw could still clear a flag when its Hold ended. */
  lemma PauseIsKeptIff(start: Sandbox, before: seq<Act>, s: Sandbox, c: Tid)
    requires Fresh(start) && Run(start, before, s) && HoldEnds(s, c)
    ensures
      (forall acts, t :: Run(Do(s, EndSweep), acts, t) && HoldsStill(t, c) ==>
         forall x, w :: x in t.units && w in t.units[x].threads ==> !LetIn(t.units[x].threads[w]))
      <==> !Danger(s)
  {
    FreshIsSound(start);
    RunKeepsSandbox(start, before, s);
    var h := Do(s, EndSweep);
    ActKeepsInv(s, EndSweep);
    assert Stamped(h, c, s.releases, !Danger(s));
    hide Run, Can, Do, SandboxInv, Danger, Quiet, HoldsStill, Stamped, LetIn;
    if Danger(s) {
      var acts, t := ThawBreaksPause(s, c);
    } else {
      forall acts, t | Run(h, acts, t) && HoldsStill(t, c)
        ensures forall x, w :: x in t.units && w in t.units[x].threads ==> !LetIn(t.units[x].threads[w])
      {
        CleanHoldIsKept(h, acts, t, c, s.releases);
      }
    }
  }

  // -------------------------------------------------------------------------
  // And it does happen

  /** A Hold gets through every unit. */
  lemma {:induction false} SweepRuns(s: Sandbox) returns (acts: seq<Act>, t: Sandbox)
    requires s.sweep.Sweeping? && s.sweep.owner in s.calls && s.sweep.todo <= s.units.Keys
    ensures Run(s, acts, t) && t.calls == s.calls && t.releases == s.releases && t.units.Keys == s.units.Keys
    ensures t.sweep == Sweeping(s.sweep.owner, {})
    ensures forall x :: x in s.units ==> t.units[x].threads == s.units[x].threads
    decreases |s.sweep.todo|
  {
    acts, t := [], s;
    if s.sweep.todo != {} {
      var x := Member(s.sweep.todo);
      var store := SweepStore(x);
      var m := Do(s, store);
      acts, t := SweepRuns(m);
      hide Do, Can;
      First(s, store, acts, t);
      acts := [store] + acts;
    }
  }

  /** A call begins, and its Hold gets through every unit. */
  lemma CallSweeps(s: Sandbox, c: Tid, us: seq<Name>, thaw: bool) returns (acts: seq<Act>, t: Sandbox)
    requires Can(s, Begin(c, us, thaw)) && s.sweep == Idle
    ensures Run(s, acts, t) && Can(t, EndSweep) && t.sweep.owner == c && t.units.Keys == s.units.Keys
    ensures t.calls == s.calls[c := if thaw then ThawBegun(us) else Begun(us)]
    ensures forall x :: x in s.units ==> t.units[x].threads == s.units[x].threads
  {
    var begin, sweep := Begin(c, us, thaw), StartSweep(c);
    var s1 := Do(s, begin);
    var s2 := Do(s1, sweep);
    acts, t := SweepRuns(s2);
    hide Do, Run;
    First(s1, sweep, acts, t);
    First(s, begin, [sweep] + acts, t);
    acts := [begin] + ([sweep] + acts);
  }

  /** In any sandbox: a Thaw has released the hold and is about to clear the first flag when a Freeze
      begins, and has still not when the Hold of that Freeze ends. */
  lemma ThawMayBeUnderWay(start: Sandbox, us: seq<Name>) returns (acts: seq<Act>, s: Sandbox, c: Tid)
    requires Fresh(start) && us != [] && forall x :: x in us <==> x in start.units
    ensures Run(start, acts, s) && HoldEnds(s, c) && Danger(s)
  {
    c := 2;
    var a1, s1 := CallSweeps(start, 1, us, true);
    var s2 := Do(s1, EndSweep);
    assert s2.calls == map[1 := Storing(us, 0)] && NotIn(s2, 2);
    var a2;
    a2, s := CallSweeps(s2, 2, us, false);
    var x := us[0];
    assert x in us && x in start.units && x in s.units;
    assert AtUnit(s, 1) && Clears(s, 1);
    hide Do, Can, Run;
    First(s1, EndSweep, a2, s);
    Chained(start, a1, s1, [EndSweep] + a2, s);
    acts := a1 + ([EndSweep] + a2);
  }
}
