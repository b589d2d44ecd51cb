/**
 How long a unit that was just woken is left alone. sleep reads the idle clock again under the lock
 wakeUnit stamped it under, so a sleep that goes ahead has seen the whole window pass - unless a
 touch, which reads the clock and stores it in two steps and takes no lock, stores an older reading
 over the wake's. From internal/daemon/proxy.go and the reaper's use of it in serve.go.
 */
module IdleWindow {
  import opened Counting
  import opened UnitLock

  /** A sleep that has decided, and goes on to stop or freeze the unit. */
  predicate Committed(pc: Pc) {
    pc.SleepDecided? || pc.SleepPausing? || pc.SleepStopping?
  }

  /** Some sleep went ahead before the unit's window had passed since m. */
  ghost predicate CutShort(u: Unit, m: int) {
    exists t :: t in u.threads && Committed(u.threads[t]) && u.threads[t].at < m + u.window
  }

  /** A clock reading older than m is waiting to be stored. */
  ghost predicate HasStale(u: Unit, m: int) {
    exists t :: t in u.threads && Stamps(u.threads[t]) && u.threads[t].stamp < m
  }

  // -------------------------------------------------------------------------
  // The window is kept

  /** Either the window since m has passed, or nothing older than m is stored or will be. */
  ghost predicate Fresh(u: Unit, m: int) {
    && m <= u.now && !CutShort(u, m)
    && (m + u.window <= u.now || (m <= u.facts.lastByte && !HasStale(u, m)))
  }

  /** One thread's step stores and decides nothing older. */
  lemma StepStaysFresh(u: Unit, m: int, pc: Pc, a: Answer)
    requires m <= u.now && (m + u.window <= u.now || m <= u.facts.lastByte)
    requires m + u.window <= u.now || (Stamps(pc) ==> m <= pc.stamp)
    requires Committed(pc) ==> m + u.window <= pc.at
    ensures
      var o := Step(u, pc, a);
      && (m + u.window <= u.now || m <= o.facts.lastByte)
      && (o.next.At? && Stamps(o.next.pc) ==> m + u.window <= u.now || m <= o.next.pc.stamp)
      && (o.next.At? && Committed(o.next.pc) ==> m + u.window <= o.next.pc.at)
  {
    hide Inside;
    if IsSleep(pc) {
      hide WakeStep, OtherStep;
    } else {
      hide SleepStep;
    }
  }

  lemma FreshIsKept(u: Unit, m: int, e: Event)
    requires Fresh(u, m) && Enabled(u, e)
    ensures Fresh(Apply(u, e), m)
  {
    if e.Advance? {
      var pc := u.threads[e.tid];
      assert m + u.window <= u.now || (Stamps(pc) ==> m <= pc.stamp);
      assert Committed(pc) ==> m + u.window <= pc.at;
      StepStaysFresh(u, m, pc, e.answer);
    }
    hide Step, Inside;
    var v := Apply(u, e);
    assert forall t :: t in v.threads && t in u.threads && v.threads[t] == u.threads[t] && Stamps(v.threads[t]) ==>
      m + u.window <= u.now || m <= v.threads[t].stamp;
    assert forall t :: t in v.threads && t in u.threads && v.threads[t] == u.threads[t] && Committed(v.threads[t]) ==>
      m + u.window <= v.threads[t].at;
  }

  lemma {:induction false} RunStaysFresh(u: Unit, m: int, es: seq<Event>, v: Unit)
    requires Fresh(u, m) && Reaches(u, es, v)
    ensures Fresh(v, m)
    decreases |es|
  {
    hide Fresh, Enabled, Apply;
    if es != [] {
      FreshIsKept(u, m, es[0]);
      RunStaysFresh(Apply(u, es[0]), m, es[1..], v);
    }
  }

  /** u is the moment wakeUnit returns nil, having stamped the unit with the time m. */
  ghost predicate JustWoken(u: Unit, m: int) {
    exists before: Unit, t, a ::
      && Inv(before) && Enabled(before, Advance(t, a)) && before.threads[t] == WakeStoring(m)
      && u == Apply(before, Advance(t, a))
  }

  lemma WokenIsStamped(u: Unit, m: int)
    requires JustWoken(u, m)
    ensures Inv(u) && u.lock == Free && u.facts.lastByte == m && m <= u.now && !CutShort(u, m)
  {
    var before: Unit, t, a :|
      && Inv(before) && Enabled(before, Advance(t, a)) && before.threads[t] == WakeStoring(m)
      && u == Apply(before, Advance(t, a));
    StepKeepsInv(before, Advance(t, a));
    var o := Step(before, WakeStoring(m), a);
    assert o.facts.lastByte == m && o.next == At(WakeDone(true));
    assert before.lock == HeldBy(t);
    hide Step, Past, HasMarked;
    forall x | x in u.threads ensures !Committed(u.threads[x]) {
      assert x != t ==> u.threads[x] == before.threads[x] && !Inside(before.threads[x]);
    }
  }

  /** A stale reading pending, with the window since m still running. */
  ghost predicate InDanger(u: Unit, m: int) {
    HasStale(u, m) && u.now < m + u.window
  }

  /** From a wake out of that danger, no sleep goes ahead within the unit's window of that wake,
      whatever connections, ticks and corrections do. */
  lemma WindowIsKept(u: Unit, m: int, es: seq<Event>, v: Unit)
    requires JustWoken(u, m) && !InDanger(u, m) && Reaches(u, es, v)
    ensures !CutShort(v, m)
  {
    WokenIsStamped(u, m);
    RunStaysFresh(u, m, es, v);
    hide Reaches;
  }

  // -------------------------------------------------------------------------
  // Otherwise it can be cut short

  /** The unit is woken from cold by a thread of its own; the hold, if any, is let go first. */
  lemma WokenAgain(u: Unit) returns (es: seq<Event>, v: Unit)
    requires u.lock == Free && !u.facts.awake
    ensures Reaches(u, es, v) && v.facts.awake && v.lock == Free && v.facts.stopping == u.facts.stopping
    ensures v.now == u.now && v.window == u.window
    ensures forall x :: x in u.threads ==> x in v.threads && v.threads[x] == u.threads[x]
  {
    hide OtherStep, SleepStep;
    var t := Above(u.threads.Keys);
    assert t !in u.threads;
    var step := Advance(t, Yes);
    var u1 := Apply(u, SetHeld(false));
    var u2 := Apply(u1, Arrive(t, WakeQueued(false)));
    var u3 := Apply(u2, step);
    var u4 := Apply(u3, step);
    assert u4.threads[t] == WakeAdmitted(false) && u4.lock == HeldBy(t);
    hide Reaches;
    es, v := WakeSucceeds(u4, t);
    Prepend(u3, step, es, v);
    Prepend(u2, step, [step] + es, v);
    Prepend(u1, Arrive(t, WakeQueued(false)), [step] + ([step] + es), v);
    es := [Arrive(t, WakeQueued(false))] + ([step] + ([step] + es));
    Prepend(u, SetHeld(false), es, v);
    es := [SetHeld(false)] + es;
  }

  /** A sleep can decide as soon as the clock allows: the reaper has one queued, or can start one. */
  ghost predicate SleepNear(u: Unit) {
    u.lock == Free && ((u.facts.awake && !u.facts.stopping) || exists k :: k in u.threads && u.threads[k].SleepQueued?)
  }

  /** From a unit nobody has locked, with t's stale touch left waiting, a sleep gets near. */
  lemma SleepGetsNear(u: Unit, t: Tid) returns (es: seq<Event>, v: Unit)
    requires Inv(u) && u.lock == Free && t in u.threads && u.threads[t].Touching?
    ensures Reaches(u, es, v) && SleepNear(v) && v.now == u.now && v.window == u.window
    ensures t in v.threads && v.threads[t] == u.threads[t]
  {
    if u.facts.stopping {
      var r :| r in u.threads && Marked(u.threads[r]);
      assert !Inside(u.threads[r]);
      if u.threads[r].SleepQueued? {
        es, v := [], u;
      } else {
        var step := Advance(r, Yes);
        var m := Apply(u, step);
        es, v := AwakeGetsNear(m, t);
        Prepend(u, step, es, v);
        es := [step] + es;
      }
    } else {
      es, v := AwakeGetsNear(u, t);
    }
  }

  lemma AwakeGetsNear(u: Unit, t: Tid) returns (es: seq<Event>, v: Unit)
    requires u.lock == Free && !u.facts.stopping && t in u.threads && u.threads[t].Touching?
    ensures Reaches(u, es, v) && SleepNear(v) && v.now == u.now && v.window == u.window
    ensures t in v.threads && v.threads[t] == u.threads[t]
  {
    if u.facts.awake {
      es, v := [], u;
    } else {
      es, v := WokenAgain(u);
    }
  }

  /** The reaper's sleep, from looking at the unit to queueing for it. */
  lemma SleepQueues(u: Unit, t: Tid) returns (es: seq<Event>, v: Unit)
    requires t !in u.threads && u.lock == Free && !u.facts.stopping && LooksIdle(u)
    ensures Reaches(u, es, v) && t in v.threads && v.threads[t] == SleepQueued
    ensures v.now == u.now && v.window == u.window && v.lock == Free && v.facts.lastByte == u.facts.lastByte
  {
    hide WakeStep, OtherStep;
    var arrive, step := Arrive(t, SleepDue), Advance(t, Yes);
    var u1 := Apply(u, arrive);
    v := Apply(u1, step);
    Prepend(u1, step, [], v);
    es := [arrive] + ([step] + []);
    Prepend(u, arrive, [step] + [], v);
  }

  lemma QueuedDecides(u: Unit, k: Tid) returns (es: seq<Event>, v: Unit)
    requires k in u.threads && u.threads[k].SleepQueued? && u.lock == Free && u.now - u.facts.lastByte >= u.window
    ensures Reaches(u, es, v) && v.window == u.window && k in v.threads && v.threads[k] == SleepDecided(u.now)
  {
    hide WakeStep, OtherStep;
    var step := Advance(k, Yes);
    var u1 := Apply(u, step);
    v := Apply(u1, step);
    Prepend(u1, step, [], v);
    es := [step] + ([step] + []);
    Prepend(u, step, [step] + [], v);
  }

  /** The stale touch stores its reading, the clock reaches the end of the window after that reading,
      and a sleep decides. */
  lemma StaleDecides(u: Unit, t: Tid) returns (es: seq<Event>, v: Unit)
    requires SleepNear(u) && t in u.threads && u.threads[t].Touching?
    ensures Reaches(u, es, v) && v.window == u.window
    ensures
      var late := u.threads[t].stamp + u.window;
      exists k :: k in v.threads && v.threads[k] == SleepDecided(if u.now < late then late else u.now)
  {
    var late := u.threads[t].stamp + u.window;
    var store, tick := Advance(t, Yes), Tick(if u.now < late then late - u.now else 0);
    var u1 := Apply(u, store);
    var u2 := Apply(u1, tick);
    assert u2.lock == Free && u2.now - u2.facts.lastByte >= u2.window && u2.window == u.window && t !in u2.threads;
    assert forall x :: x in u.threads && x != t ==> x in u2.threads && u2.threads[x] == u.threads[x];
    assert u2.facts.awake == u.facts.awake && u2.facts.stopping == u.facts.stopping;
    hide Step, Reaches;
    es, v := NearDecides(u2, t);
    Prepend(u1, tick, es, v);
    Prepend(u, store, [tick] + es, v);
    es := [store] + ([tick] + es);
  }

  lemma NearDecides(u: Unit, t: Tid) returns (es: seq<Event>, v: Unit)
    requires SleepNear(u) && t !in u.threads && u.now - u.facts.lastByte >= u.window
    ensures Reaches(u, es, v) && v.window == u.window && exists k :: k in v.threads && v.threads[k] == SleepDecided(u.now)
  {
    hide Reaches;
    if k :| k in u.threads && u.threads[k].SleepQueued? {
      es, v := QueuedDecides(u, k);
    } else {
      var fs, m := SleepQueues(u, t);
      var gs;
      gs, v := QueuedDecides(m, t);
      Joined(u, fs, m, gs, v);
      es := fs + gs;
    }
  }

  lemma StaleReadingCutsShort(u: Unit, m: int) returns (es: seq<Event>, v: Unit)
    requires JustWoken(u, m) && InDanger(u, m)
    ensures Reaches(u, es, v) && CutShort(v, m)
  {
    WokenIsStamped(u, m);
    hide JustWoken, Reaches;
    var t :| t in u.threads && Stamps(u.threads[t]) && u.threads[t].stamp < m;
    assert u.threads[t].Touching?;
    var fs, near := SleepGetsNear(u, t);
    var gs;
    gs, v := StaleDecides(near, t);
    Joined(u, fs, near, gs, v);
    es := fs + gs;
  }

  /** The exact condition: a unit just woken gets its full window in every run from here if and only
      if, at this moment, no touch is between reading the clock before the wake did and storing it,
      or the window since the wake's own reading has run out already. */
  lemma WindowIffNoStaleReading(u: Unit, m: int)
    requires JustWoken(u, m)
    ensures (forall es, v :: Reaches(u, es, v) ==> !CutShort(v, m)) <==> !InDanger(u, m)
  {
    hide JustWoken, InDanger, CutShort, Reaches;
    if InDanger(u, m) {
      var es, v := StaleReadingCutsShort(u, m);
    } else {
      forall es, v | Reaches(u, es, v) ensures !CutShort(v, m) {
        WindowIsKept(u, m, es, v);
      }
    }
  }

  // -------------------------------------------------------------------------
  // And it does happen

  /** wakeUnit on a unit believed awake, up to its return. */
  lemma FastPath(u: Unit, t: Tid) returns (es: seq<Event>, v: Unit)
    requires t !in u.threads && u.lock == Free && u.facts.awake && !u.held
    ensures Reaches(u, es, v) && ByThreads(es) && t in v.threads && v.threads[t] == WakeStoring(u.now) && v.lock == HeldBy(t)
    ensures v.facts == u.facts && v.window == u.window && v.now == u.now
    ensures forall x :: x in u.threads && x != t ==> x in v.threads && v.threads[x] == u.threads[x]
  {
    hide OtherStep, SleepStep;
    var arrive, step := Arrive(t, WakeQueued(false)), Advance(t, Yes);
    var u1 := Apply(u, arrive);
    var u2 := Apply(u1, step);
    var u3 := Apply(u2, step);
    assert u3.threads[t] == WakeAdmitted(false);
    hide Reaches;
    es, v := AdmittedStamps(u3, t);
    Prepend(u2, step, es, v);
    Prepend(u1, step, [step] + es, v);
    Prepend(u, arrive, [step] + ([step] + es), v);
    es := [arrive] + ([step] + ([step] + es));
  }

  lemma AdmittedStamps(u: Unit, t: Tid) returns (es: seq<Event>, v: Unit)
    requires t in u.threads && u.threads[t] == WakeAdmitted(false) && u.facts.awake && u.lock == HeldBy(t)
    ensures Reaches(u, es, v) && ByThreads(es) && t in v.threads && v.threads[t] == WakeStoring(u.now) && v.lock == HeldBy(t)
    ensures v.facts == u.facts && v.window == u.window && v.now == u.now
    ensures forall x :: x in u.threads && x != t ==> x in v.threads && v.threads[x] == u.threads[x]
  {
    hide OtherStep, SleepStep;
    var step := Advance(t, Yes);
    var u1 := Apply(u, step);
    v := Apply(u1, step);
    Prepend(u1, step, [], v);
    es := [step] + ([step] + []);
    Prepend(u, step, [step] + [], v);
  }

  /** A touch reads the clock at 0, a wake stamps the unit at 5 and returns, and the touch has still to
      store its 0, in a unit whose window is longer than nothing. */
  lemma StaleReadingHappens(window: nat) returns (start: Unit, es: seq<Event>, u: Unit)
    requires window > 0
    ensures Initial(start) && start.window == window && Reaches(start, es, u) && JustWoken(u, 5) && InDanger(u, 5)
  {
    start := Unit(0, false, window, false, Facts(0, true, false, false, Running), Free, map[]);
    var u1 := Apply(start, Arrive(1, Touching(0)));
    var u2 := Apply(u1, Tick(5));
    var more, u3 := FastPath(u2, 2);
    var last := Advance(2, Yes);
    StepKeepsInv(start, Arrive(1, Touching(0)));
    StepKeepsInv(u1, Tick(5));
    RunKeepsInv(u2, more, u3);
    hide Inv;
    u := Apply(u3, last);
    assert 1 in u.threads && u.threads[1] == Touching(0);
    Extend(u2, more, u3, last);
    hide Reaches;
    Prepend(u1, Tick(5), more + [last], u);
    es := [Arrive(1, Touching(0))] + ([Tick(5)] + (more + [last]));
    Prepend(start, Arrive(1, Touching(0)), [Tick(5)] + (more + [last]), u);
  }
}
