/**
 Whether a unit paused on purpose keeps its memory until it is resumed. The hold keeps wakes out, but
 sleep looks only at the idle clock once it has the lock: a sleep the reaper had already decided on
 stops the paused container. From internal/daemon/freeze.go, and sleep in proxy.go.
 */
module StaysPaused {
  import opened UnitLock

  /** freeze paused the unit and returned; the unit is held. */
  ghost predicate JustPaused(u: Unit) {
    Inv(u) && u.held && u.lock == Free && !u.facts.awake && u.facts.box == Paused
  }

  /** The reaper has a sleep of this unit on its way, and the unit is one it stops rather than
      freezes. */
  ghost predicate SleepOnItsWay(u: Unit) {
    !u.freezeOnIdle && exists t :: t in u.threads && (u.threads[t].SleepDue? || u.threads[t].SleepQueued?)
  }

  /** Nobody releases the hold and nobody outside touches the container. */
  predicate Undisturbed(es: seq<Event>) {
    forall e :: e in es ==> e != SetHeld(false) && !e.Outside?
  }

  // -------------------------------------------------------------------------
  // Without one it stays paused

  predicate Harmless(freezeOnIdle: bool, pc: Pc) {
    !LetIn(pc) && if freezeOnIdle then !pc.SleepStopping? else !(IsSleep(pc) && !pc.SleepReturned?)
  }

  ghost predicate AtRest(u: Unit) {
    && u.held && u.facts.box == Paused && (u.freezeOnIdle || !u.facts.awake)
    && forall t :: t in u.threads ==> Harmless(u.freezeOnIdle, u.threads[t])
  }

  lemma StepAtRest(u: Unit, pc: Pc, a: Answer)
    requires u.held && u.facts.box == Paused && (u.freezeOnIdle || !u.facts.awake) && Harmless(u.freezeOnIdle, pc)
    ensures
      var o := Step(u, pc, a);
      && o.facts.box == Paused && (u.freezeOnIdle || !o.facts.awake)
      && (o.next.At? ==> Harmless(u.freezeOnIdle, o.next.pc))
  {
    hide Inside;
  }

  lemma RestIsKept(u: Unit, e: Event)
    requires AtRest(u) && Enabled(u, e) && e != SetHeld(false) && !e.Outside?
    ensures AtRest(Apply(u, e))
  {
    if e.Advance? {
      StepAtRest(u, u.threads[e.tid], e.answer);
    }
    hide Step, Inside;
    if e.Arrive? {
      assert Harmless(u.freezeOnIdle, e.pc);
    }
    hide Harmless;
  }

  lemma {:induction false} RunAtRest(u: Unit, es: seq<Event>, v: Unit)
    requires AtRest(u) && Undisturbed(es) && Reaches(u, es, v)
    ensures AtRest(v)
    decreases |es|
  {
    hide AtRest, Enabled, Apply;
    if es != [] {
      assert es[0] in es && forall e :: e in es[1..] ==> e in es;
      RestIsKept(u, es[0]);
      RunAtRest(Apply(u, es[0]), es[1..], v);
    }
  }

  // -------------------------------------------------------------------------
  // With one it can be stopped

  lemma DecidedSleepStops(u: Unit, t: Tid) returns (es: seq<Event>, v: Unit)
    requires !u.freezeOnIdle && t in u.threads && u.threads[t].SleepDecided?
    ensures Reaches(u, es, v) && Undisturbed(es) && v.facts.box == Stopped
  {
    var step := Advance(t, Yes);
    var u1 := Apply(u, step);
    v := Apply(u1, step);
    Prepend(u1, step, [], v);
    es := [step] + ([step] + []);
    Prepend(u, step, [step] + [], v);
  }

  lemma QueuedSleepStops(u: Unit, t: Tid) returns (es: seq<Event>, v: Unit)
    requires u.lock == Free && !u.freezeOnIdle && t in u.threads && u.threads[t].SleepQueued?
    ensures Reaches(u, es, v) && Undisturbed(es) && v.facts.box == Stopped
  {
    var w := u.window;
    var idle := u.now - u.facts.lastByte;
    var late, step := Tick(if idle < w then w - idle else 0), Advance(t, Yes);
    var u1 := Apply(u, late);
    var u2 := Apply(u1, step);
    var u3 := Apply(u2, step);
    var rest;
    rest, v := DecidedSleepStops(u3, t);
    Prepend(u2, step, rest, v);
    Prepend(u1, step, [step] + rest, v);
    Prepend(u, late, [step] + ([step] + rest), v);
    es := [late] + ([step] + ([step] + rest));
  }

  lemma DueSleepStops(u: Unit, t: Tid) returns (es: seq<Event>, v: Unit)
    requires u.lock == Free && !u.freezeOnIdle && !u.facts.stopping && t in u.threads && u.threads[t].SleepDue?
    ensures Reaches(u, es, v) && Undisturbed(es) && v.facts.box == Stopped
  {
    var step := Advance(t, Yes);
    var u1 := Apply(u, step);
    es, v := QueuedSleepStops(u1, t);
    Prepend(u, step, es, v);
    es := [step] + es;
  }

  lemma SleepOnItsWayStops(u: Unit) returns (es: seq<Event>, v: Unit)
    requires JustPaused(u) && SleepOnItsWay(u)
    ensures Reaches(u, es, v) && Undisturbed(es) && v.facts.box == Stopped
  {
    var t :| t in u.threads && (u.threads[t].SleepDue? || u.threads[t].SleepQueued?);
    if u.threads[t].SleepQueued? {
      es, v := QueuedSleepStops(u, t);
    } else if !u.facts.stopping {
      es, v := DueSleepStops(u, t);
    } else {
      // Marked already: by a sleep still queued, or by one about to clear the mark.
      var r :| r in u.threads && Marked(u.threads[r]);
      assert !Inside(u.threads[r]);
      if u.threads[r].SleepQueued? {
        es, v := QueuedSleepStops(u, r);
      } else {
        var step := Advance(r, Yes);
        es, v := DueSleepStops(Apply(u, step), t);
        Prepend(u, step, es, v);
        es := [step] + es;
      }
    }
  }

  /** The exact condition: a unit just paused on purpose stays paused in every run up to its release
      if and only if the reaper had no stop of it on its way. */
  lemma StaysPausedIff(u: Unit)
    requires JustPaused(u)
    ensures (forall es, v :: Undisturbed(es) && Reaches(u, es, v) ==> v.facts.box == Paused) <==> !SleepOnItsWay(u)
  {
    if SleepOnItsWay(u) {
      hide JustPaused, SleepOnItsWay, Undisturbed, Reaches;
      var es, v := SleepOnItsWayStops(u);
    } else {
      assert AtRest(u) by {
        forall t | t in u.threads ensures Harmless(u.freezeOnIdle, u.threads[t]) {
          assert !Inside(u.threads[t]);
        }
      }
      hide JustPaused, SleepOnItsWay, Undisturbed, Reaches;
      forall es, v | Undisturbed(es) && Reaches(u, es, v) ensures v.facts.box == Paused {
        RunAtRest(u, es, v);
      }
    }
  }

  /** u became v by pausing it, with every thread but t as it was. */
  ghost predicate PausedBy(u: Unit, t: Tid, v: Unit) {
    && v.held == u.held && v.freezeOnIdle == u.freezeOnIdle && v.now == u.now && v.window == u.window && v.lock == Free
    && (forall x :: x in v.threads && x != t ==> x in u.threads)
    && v.facts == u.facts.(box := Paused, awake := false, frozen := true)
    && forall x :: x in u.threads && x != t ==> x in v.threads && v.threads[x] == u.threads[x]
  }

  lemma EnteredFreezePauses(u: Unit, t: Tid) returns (es: seq<Event>, v: Unit)
    requires t in u.threads && u.threads[t] == FreezeEntered && u.lock == HeldBy(t) && !u.facts.frozen
    ensures Reaches(u, es, v) && ByThreads(es) && PausedBy(u, t, v)
  {
    hide WakeStep, SleepStep;
    var step := Advance(t, Yes);
    var u1 := Apply(u, step);
    v := Apply(u1, step);
    Prepend(u1, step, [], v);
    es := [step] + ([step] + []);
    Prepend(u, step, [step] + [], v);
  }

  /** freeze of a unit that is not frozen yet. */
  lemma FreezePauses(u: Unit, t: Tid) returns (es: seq<Event>, v: Unit)
    requires t !in u.threads && u.lock == Free && !u.facts.frozen
    ensures Reaches(u, es, v) && ByThreads(es) && PausedBy(u, t, v)
  {
    hide WakeStep, SleepStep, Reaches;
    var arrive, step := Arrive(t, FreezeQueued), Advance(t, Yes);
    var u1 := Apply(u, arrive);
    var u2 := Apply(u1, step);
    es, v := EnteredFreezePauses(u2, t);
    Prepend(u1, step, es, v);
    Prepend(u, arrive, [step] + es, v);
    es := [arrive] + ([step] + es);
  }

  /** And it does happen: the reaper finds the unit idle, and the pause takes the lock first. */
  lemma SleepCanBeOnItsWay() returns (start: Unit, es: seq<Event>, u: Unit)
    ensures Initial(start) && Reaches(start, es, u) && JustPaused(u) && SleepOnItsWay(u)
  {
    start := Unit(9, false, 5, false, Facts(0, true, false, false, Running), Free, map[]);
    var u1 := Apply(start, Arrive(1, SleepDue));
    var u2 := Apply(u1, SetHeld(true));
    var more;
    more, u := FreezePauses(u2, 2);
    assert 1 in u.threads && u.threads[1] == SleepDue;
    Prepend(u1, SetHeld(true), more, u);
    es := [Arrive(1, SleepDue)] + ([SetHeld(true)] + more);
    Prepend(start, Arrive(1, SleepDue), [SetHeld(true)] + more, u);
    RunKeepsInv(start, es, u);
    hide Reaches, Inv;
  }
}
