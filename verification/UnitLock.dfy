/**
 One unit and everything that drives its container: connections and dependency walks (wakeUnit), the
 reaper (sleep), the pause call (freeze), discovery's correction (correctAwake), and the writes that
 take no lock (touch, a revoked belief, the hold flag). Each runs as a thread of small steps; threads
 interleave freely, and a provider call is two steps, issued and answered, with anything in between.
 From internal/daemon/proxy.go, serve.go and freeze.go.
 */
module UnitLock {

  type Tid = int

  /** What the container really is. */
  datatype Box = Running | Paused | Stopped

  /** A provider's answer; Other is the third outcome a call has: a probe loop out of time, a stop
      that left the workload running, a pause of a container that is not running. */
  datatype Answer = Yes | No | Other

  datatype Pc =
    // wakeUnit: confirm asks for an awake belief to be checked with the provider
    | WakeQueued(confirm: bool)
    | WakeEntered(confirm: bool)
    | WakeAdmitted(confirm: bool)
    | Confirming
    | WakeCold
    | Unpausing
    | Starting
    | Probing
    | WakeSampling
    | WakeStoring(stamp: int)
    | WakeDone(ok: bool)
    // the reaper's sleep: due and not yet marked, then the sleep itself, which decides at some time
    | SleepDue
    | SleepQueued
    | SleepEntered
    | SleepDecided(at: int)
    | SleepPausing(at: int)
    | SleepStopping(at: int)
    | SleepReturned
    // freeze
    | FreezeQueued
    | FreezeEntered
    | FreezePausing
    | FreezeDone(ok: bool)
    // correctAwake, and a touch that has read the clock and not stored it
    | Correcting
    | Touching(stamp: int)

  datatype Lock = Free | HeldBy(tid: Tid)

  /** What the daemon believes of the unit, its idle clock, the reaper's mark, and the container. */
  datatype Facts = Facts(lastByte: int, awake: bool, frozen: bool, stopping: bool, box: Box)

  /** window is how long the unit must be quiet, its own or the daemon's; freezeOnIdle says it is then
      paused rather than stopped. */
  datatype Unit = Unit(now: int, held: bool, window: nat, freezeOnIdle: bool, facts: Facts, lock: Lock,
                       threads: map<Tid, Pc>)

  datatype Event =
    | Tick(d: nat)
    | Arrive(tid: Tid, pc: Pc)
    | Advance(tid: Tid, answer: Answer)
    | SetHeld(held: bool)
    | Revoke
    | Outside(box: Box)
    | Collect(tid: Tid)

  predicate IsWake(pc: Pc) {
    || pc.WakeQueued? || pc.WakeEntered? || pc.WakeAdmitted? || pc.Confirming? || pc.WakeCold?
    || pc.Unpausing? || pc.Starting? || pc.Probing? || pc.WakeSampling? || pc.WakeStoring? || pc.WakeDone?
  }

  predicate IsSleep(pc: Pc) {
    || pc.SleepDue? || pc.SleepQueued? || pc.SleepEntered? || pc.SleepDecided? || pc.SleepPausing?
    || pc.SleepStopping? || pc.SleepReturned?
  }

  predicate Queued(pc: Pc) {
    pc.WakeQueued? || pc.SleepQueued? || pc.FreezeQueued?
  }

  /** Between taking the lock and leaving it. */
  predicate Inside(pc: Pc) {
    || (IsWake(pc) && !pc.WakeQueued? && !pc.WakeDone?)
    || (IsSleep(pc) && !pc.SleepDue? && !pc.SleepQueued? && !pc.SleepReturned?)
    || pc.FreezeEntered? || pc.FreezePausing? || pc.Correcting?
  }

  /** The reaper's test of a unit: believed awake, and quiet for the window. */
  predicate LooksIdle(u: Unit) {
    u.facts.awake && u.now - u.facts.lastByte >= u.window
  }

  /** How a thread begins. correctAwake only tries the lock; the others queue for it, and a touch
      takes none. */
  predicate MayArrive(u: Unit, pc: Pc) {
    match pc
    case WakeQueued(_) => true
    case FreezeQueued => true
    case SleepDue => LooksIdle(u)
    case Touching(stamp) => stamp == u.now
    case Correcting => u.lock == Free
    case _ => false
  }

  predicate Enabled(u: Unit, e: Event) {
    match e
    case Arrive(t, pc) => t !in u.threads && MayArrive(u, pc)
    case Advance(t, _) =>
      t in u.threads && !u.threads[t].FreezeDone? && !u.threads[t].WakeDone? && (Queued(u.threads[t]) ==> u.lock == Free)
    case Collect(t) => t in u.threads && (u.threads[t].FreezeDone? || u.threads[t].WakeDone?)
    case _ => true
  }

  /** Where a thread goes next. */
  datatype Next = Gone | At(pc: Pc)

  datatype Outcome = Outcome(facts: Facts, next: Next)

  function WakeStep(u: Unit, pc: Pc, a: Answer): Outcome {
    var f := u.facts;
    match pc
    case WakeQueued(c) => Outcome(f, At(WakeEntered(c)))
    case WakeEntered(c) => Outcome(f, At(if u.held then WakeDone(false) else WakeAdmitted(c)))
    case WakeAdmitted(c) => Outcome(f, At(if !f.awake then WakeCold else if c then Confirming else WakeSampling))
    case Confirming =>
      // A provider that cannot say leaves the belief as it was.
      if a == No || f.box == Running then Outcome(f, At(WakeSampling)) else Outcome(f.(awake := false), At(WakeCold))
    case WakeCold => Outcome(f.(frozen := false), At(if f.frozen then Unpausing else Starting))
    case Unpausing =>
      if a == Yes then Outcome(f.(box := Running, awake := true), At(WakeSampling)) else Outcome(f, At(Starting))
    case Starting => if a == Yes then Outcome(f.(box := Running), At(Probing)) else Outcome(f, At(WakeDone(false)))
    case Probing =>
      if a == Yes then Outcome(f.(awake := true), At(WakeSampling)) else Outcome(f, At(if a == No then Probing else WakeDone(false)))
    case WakeSampling => Outcome(f, At(WakeStoring(u.now)))
    case WakeStoring(stamp) => Outcome(f.(lastByte := stamp), At(WakeDone(true)))
    case _ => Outcome(f, Gone)
  }

  function SleepStep(u: Unit, pc: Pc, a: Answer): Outcome {
    var f := u.facts;
    match pc
    case SleepDue => if f.stopping then Outcome(f, Gone) else Outcome(f.(stopping := true), At(SleepQueued))
    case SleepQueued => Outcome(f, At(SleepEntered))
    case SleepEntered => Outcome(f, At(if u.now - f.lastByte < u.window then SleepReturned else SleepDecided(u.now)))
    case SleepDecided(at) =>
      Outcome(f.(awake := false), At(if u.freezeOnIdle then SleepPausing(at) else SleepStopping(at)))
    case SleepPausing(_) =>
      Outcome(if a == Yes then f.(box := Paused, frozen := true) else f.(awake := true), At(SleepReturned))
    case SleepStopping(_) =>
      Outcome(if a == Yes then f.(box := Stopped) else if a == Other then f.(awake := true) else f, At(SleepReturned))
    case _ => Outcome(f.(stopping := false), Gone)
  }

  function OtherStep(u: Unit, pc: Pc, a: Answer): Outcome {
    var f := u.facts;
    match pc
    case FreezeQueued => Outcome(f, At(FreezeEntered))
    case FreezeEntered => Outcome(f, At(if f.frozen then FreezeDone(true) else FreezePausing))
    case FreezePausing =>
      if a == Yes then Outcome(f.(box := Paused, awake := false, frozen := true), At(FreezeDone(true)))
      else if a == Other then Outcome(f.(awake := false), At(FreezeDone(true)))
      else Outcome(f, At(FreezeDone(false)))
    case Correcting =>
      // The second listing: one that fails, or finds it running, corrects nothing.
      Outcome(if a == No || f.box == Running then f else f.(frozen := f.box == Paused, awake := false), Gone)
    case Touching(stamp) => Outcome(f.(lastByte := stamp), Gone)
    case _ => Outcome(f, Gone)
  }

  function Step(u: Unit, pc: Pc, a: Answer): Outcome {
    if IsWake(pc) then WakeStep(u, pc, a) else if IsSleep(pc) then SleepStep(u, pc, a) else OtherStep(u, pc, a)
  }

  /** The thread goes on or ends; the lock is taken on the way in and left on the way out. */
  function Place(u: Unit, t: Tid, o: Outcome): Unit {
    u.(facts := o.facts,
       lock := if o.next.At? && Inside(o.next.pc) then HeldBy(t) else if u.lock == HeldBy(t) then Free else u.lock,
       threads := if o.next.At? then u.threads[t := o.next.pc] else u.threads - {t})
  }

  function Apply(u: Unit, e: Event): Unit
    requires Enabled(u, e)
  {
    match e
    case Tick(d) => u.(now := u.now + d)
    case Arrive(t, pc) => Place(u, t, Outcome(u.facts, At(pc)))
    case Advance(t, a) => Place(u, t, Step(u, u.threads[t], a))
    case SetHeld(b) => u.(held := b)
    case Revoke => u.(facts := u.facts.(awake := false))
    case Outside(box) => u.(facts := u.facts.(box := box))
    case Collect(t) => Place(u, t, Outcome(u.facts, Gone))
  }

  ghost predicate Reaches(u: Unit, es: seq<Event>, v: Unit)
    decreases |es|
  {
    if es == [] then u == v else Enabled(u, es[0]) && Reaches(Apply(u, es[0]), es[1..], v)
  }

  /** Threads begin and go on, and nothing else happens. */
  ghost predicate ByThreads(es: seq<Event>) {
    forall e :: e in es ==> e.Arrive? || e.Advance?
  }

  lemma Prepend(u: Unit, e: Event, es: seq<Event>, v: Unit)
    requires Enabled(u, e) && Reaches(Apply(u, e), es, v)
    ensures Reaches(u, [e] + es, v)
  {
    hide Enabled, Apply;
    assert ([e] + es)[1..] == es;
  }

  lemma {:induction false} Extend(u: Unit, es: seq<Event>, v: Unit, e: Event)
    requires Reaches(u, es, v) && Enabled(v, e)
    ensures Reaches(u, es + [e], Apply(v, e))
    decreases |es|
  {
    hide Enabled, Apply;
    if es == [] {
      assert (es + [e])[1..] == [];
    } else {
      assert (es + [e])[1..] == es[1..] + [e];
      Extend(Apply(u, es[0]), es[1..], v, e);
    }
  }

  lemma {:induction false} Joined(u: Unit, es: seq<Event>, m: Unit, fs: seq<Event>, v: Unit)
    requires Reaches(u, es, m) && Reaches(m, fs, v)
    ensures Reaches(u, es + fs, v)
    decreases |es|
  {
    hide Enabled, Apply;
    if es == [] {
      assert es + fs == fs;
    } else {
      assert (es + fs)[1..] == es[1..] + fs;
      Joined(Apply(u, es[0]), es[1..], m, fs, v);
    }
  }

  // -------------------------------------------------------------------------
  // The lock

  /** A Start, Stop, Pause or Unpause has been issued and not answered. */
  predicate InProviderCall(pc: Pc) {
    pc.Unpausing? || pc.Starting? || pc.SleepPausing? || pc.SleepStopping? || pc.FreezePausing?
  }

  /** A sleep from the reaper's mark to clearing it. */
  predicate Marked(pc: Pc) {
    IsSleep(pc) && !pc.SleepDue?
  }

  /** A thread that has read the clock and will store what it read. */
  predicate Stamps(pc: Pc) {
    pc.WakeStoring? || pc.Touching?
  }

  /** Exactly the lock's owner is past it. */
  ghost predicate Exclusive(u: Unit) {
    && (forall t :: t in u.threads ==> (Inside(u.threads[t]) <==> u.lock == HeldBy(t)))
    && (u.lock.HeldBy? ==> u.lock.tid in u.threads)
  }

  /** No stamp is ahead of the clock. */
  ghost predicate Past(u: Unit) {
    && u.facts.lastByte <= u.now
    && (forall t :: t in u.threads && Stamps(u.threads[t]) ==> u.threads[t].stamp <= u.now)
  }

  ghost predicate HasMarked(u: Unit) {
    exists t :: t in u.threads && Marked(u.threads[t])
  }

  /** A unit marked as stopping has a sleep that will clear the mark. */
  ghost predicate Inv(u: Unit) {
    Exclusive(u) && Past(u) && (u.facts.stopping ==> HasMarked(u))
  }

  ghost predicate Initial(u: Unit) {
    u.threads == map[] && u.lock == Free && !u.facts.stopping && u.facts.lastByte <= u.now
  }

  /** A thread gets past the lock only from its queue. */
  lemma StepTakesLock(u: Unit, pc: Pc, a: Answer)
    ensures var n := Step(u, pc, a).next; n.At? && Inside(n.pc) ==> Inside(pc) || Queued(pc)
    ensures var n := Step(u, pc, a).next; n.At? && Stamps(n.pc) ==> n.pc.stamp == u.now
    ensures Step(u, pc, a).facts.lastByte == u.facts.lastByte || (Stamps(pc) && Step(u, pc, a).facts.lastByte == pc.stamp)
  {
  }

  /** A marked sleep keeps its thread until it clears the mark, which only it sets. */
  lemma StepKeepsMark(u: Unit, pc: Pc, a: Answer)
    ensures
      var o := Step(u, pc, a);
      o.facts.stopping && (u.facts.stopping ==> Marked(pc)) ==> o.next.At? && Marked(o.next.pc)
  {
  }

  lemma PlaceKeepsExclusive(u: Unit, t: Tid, o: Outcome)
    requires Exclusive(u)
    requires o.next.At? && Inside(o.next.pc) ==> u.lock == Free || u.lock == HeldBy(t)
    ensures Exclusive(Place(u, t, o))
  {
    hide Inside;
  }

  lemma AdvanceKeepsMark(u: Unit, t: Tid, a: Answer)
    requires t in u.threads && (u.facts.stopping ==> HasMarked(u)) && Place(u, t, Step(u, u.threads[t], a)).facts.stopping
    ensures HasMarked(Place(u, t, Step(u, u.threads[t], a)))
  {
    StepKeepsMark(u, u.threads[t], a);
    hide Step, Marked;
    var v := Place(u, t, Step(u, u.threads[t], a));
    if u.facts.stopping {
      var x :| x in u.threads && Marked(u.threads[x]);
      assert x != t ==> x in v.threads && v.threads[x] == u.threads[x];
    }
    if !u.facts.stopping || Marked(u.threads[t]) {
      assert t in v.threads && Marked(v.threads[t]);
    }
  }

  lemma OthersKeepMark(u: Unit, t: Tid, next: Next)
    requires HasMarked(u) && (t in u.threads ==> !Marked(u.threads[t]))
    ensures HasMarked(Place(u, t, Outcome(u.facts, next)))
  {
    hide Marked, Inside;
    var x :| x in u.threads && Marked(u.threads[x]);
    var v := Place(u, t, Outcome(u.facts, next));
    assert x in v.threads && v.threads[x] == u.threads[x];
  }

  lemma StepKeepsExclusive(u: Unit, e: Event)
    requires Inv(u) && Enabled(u, e)
    ensures Exclusive(Apply(u, e))
  {
    hide Step, Past, HasMarked, Place;
    match e
    case Advance(t, a) =>
      StepTakesLock(u, u.threads[t], a);
      PlaceKeepsExclusive(u, t, Step(u, u.threads[t], a));
    case Arrive(t, pc) => PlaceKeepsExclusive(u, t, Outcome(u.facts, At(pc)));
    case Collect(t) => PlaceKeepsExclusive(u, t, Outcome(u.facts, Gone));
    case _ =>
  }

  lemma StepKeepsPast(u: Unit, e: Event)
    requires Inv(u) && Enabled(u, e)
    ensures Past(Apply(u, e))
  {
    if e.Advance? {
      StepTakesLock(u, u.threads[e.tid], e.answer);
    }
    hide Step, HasMarked, Exclusive, Inside;
  }

  lemma StepKeepsInv(u: Unit, e: Event)
    requires Inv(u) && Enabled(u, e)
    ensures Inv(Apply(u, e))
  {
    StepKeepsExclusive(u, e);
    StepKeepsPast(u, e);
    hide Step, Past, Exclusive, Inside;
    match e
    case Advance(t, a) =>
      if Apply(u, e).facts.stopping {
        AdvanceKeepsMark(u, t, a);
      }
    case Arrive(t, pc) =>
      if u.facts.stopping {
        OthersKeepMark(u, t, At(pc));
      }
    case Collect(t) =>
      if u.facts.stopping {
        OthersKeepMark(u, t, Gone);
      }
    case _ =>
  }

  lemma {:induction false} RunKeepsInv(u: Unit, es: seq<Event>, v: Unit)
    requires Inv(u) && Reaches(u, es, v)
    ensures Inv(v)
    decreases |es|
  {
    hide Inv, Enabled, Apply;
    if es != [] {
      StepKeepsInv(u, es[0]);
      RunKeepsInv(Apply(u, es[0]), es[1..], v);
    }
  }

  /** Start, Stop, Pause and Unpause of one unit never overlap, whoever issues them. */
  lemma CallsNeverOverlap(u: Unit, es: seq<Event>, v: Unit, a: Tid, b: Tid)
    requires Initial(u) && Reaches(u, es, v)
    requires a in v.threads && b in v.threads && InProviderCall(v.threads[a]) && InProviderCall(v.threads[b])
    ensures a == b
  {
    RunKeepsInv(u, es, v);
    hide Reaches;
  }

  // -------------------------------------------------------------------------
  // Runs that end what is under way

  /** A wake that was let in: it may start or unpause the container. */
  predicate LetIn(pc: Pc) {
    IsWake(pc) && !pc.WakeQueued? && !pc.WakeEntered? && !pc.WakeDone?
  }

  /** Nothing but t and the unit's facts moved. */
  ghost predicate OnlyThread(u: Unit, t: Tid, v: Unit) {
    && v.now == u.now && v.held == u.held && v.window == u.window && v.freezeOnIdle == u.freezeOnIdle
    && (forall x :: x != t ==> (x in v.threads <==> x in u.threads))
    && (forall x :: x != t && x in u.threads && x in v.threads ==> v.threads[x] == u.threads[x])
  }

  ghost predicate AllAdvance(es: seq<Event>, t: Tid) {
    forall e :: e in es ==> e.Advance? && e.tid == t
  }

  /** How far a thread is from leaving the lock. */
  function Left(pc: Pc): nat {
    match pc
    case WakeEntered(_) => 9
    case WakeAdmitted(_) => 8
    case Confirming => 7
    case WakeCold => 6
    case Unpausing => 5
    case Starting => 4
    case Probing => 3
    case WakeSampling => 2
    case SleepEntered => 3
    case SleepDecided(_) => 2
    case FreezeEntered => 2
    case _ => 1
  }

  /** A wake that found the unit awake and means to leave it at that. */
  predicate Trusts(pc: Pc) {
    pc.Confirming? || pc.WakeSampling? || pc.WakeStoring?
  }

  lemma GoodAnswerGoesOn(u: Unit, pc: Pc)
    requires LetIn(pc)
    ensures
      var o := Step(u, pc, Yes);
      && o.next.At? && o.facts.stopping == u.facts.stopping
      && (o.next.pc == WakeDone(true) || (LetIn(o.next.pc) && Left(o.next.pc) < Left(pc)))
      && (!Trusts(pc) || u.facts.awake ==> !(Trusts(o.next.pc) || o.next.pc.WakeDone?) || o.facts.awake)
  {
  }

  lemma LastAnswerGoesOn(u: Unit, pc: Pc)
    requires Inside(pc)
    ensures
      var o := Step(u, pc, Other);
      && (o.next.At? && Inside(o.next.pc) ==> Left(o.next.pc) < Left(pc))
      && (Freezes(pc) ==>
            o.next.At? && (o.next.pc == FreezeDone(true) || o.next.pc.FreezePausing?))
  {
  }

  lemma AdvanceMovesOne(u: Unit, t: Tid, a: Answer)
    requires t in u.threads && u.lock == HeldBy(t) && Inside(u.threads[t])
    ensures Enabled(u, Advance(t, a))
    ensures
      var o, v := Step(u, u.threads[t], a), Apply(u, Advance(t, a));
      && OnlyThread(u, t, v) && v.facts == o.facts
      && v.lock == (if o.next.At? && Inside(o.next.pc) then HeldBy(t) else Free)
      && (o.next.At? ==> t in v.threads && v.threads[t] == o.next.pc)
  {
    hide Step;
  }

  lemma OnlyThreadTwice(u: Unit, t: Tid, m: Unit, v: Unit)
    requires OnlyThread(u, t, m) && OnlyThread(m, t, v)
    ensures OnlyThread(u, t, v)
  {
  }

  /** A wake that was let in comes up, if every call it makes succeeds. */
  lemma {:induction false} WakeSucceeds(u: Unit, t: Tid) returns (es: seq<Event>, v: Unit)
    requires t in u.threads && LetIn(u.threads[t]) && u.lock == HeldBy(t)
    ensures Reaches(u, es, v) && AllAdvance(es, t) && OnlyThread(u, t, v)
    ensures v.lock == Free && t in v.threads && v.threads[t] == WakeDone(true) && v.facts.stopping == u.facts.stopping
    ensures !Trusts(u.threads[t]) || u.facts.awake ==> v.facts.awake
    decreases Left(u.threads[t])
  {
    var e := Advance(t, Yes);
    AdvanceMovesOne(u, t, Yes);
    GoodAnswerGoesOn(u, u.threads[t]);
    hide Step, Apply, Enabled;
    var m := Apply(u, e);
    var more := [];
    if m.threads[t] == WakeDone(true) {
      v := m;
      assert Reaches(m, [], m);
    } else {
      more, v := WakeSucceeds(m, t);
      OnlyThreadTwice(u, t, m, v);
    }
    Prepend(u, e, more, v);
    es := [e] + more;
  }

  predicate Freezes(pc: Pc) {
    pc.FreezeEntered? || pc.FreezePausing?
  }

  /** Whoever holds the lock leaves it, whatever its calls answer. */
  lemma {:induction false} LockIsLeft(u: Unit, t: Tid) returns (es: seq<Event>, v: Unit)
    requires t in u.threads && Inside(u.threads[t]) && u.lock == HeldBy(t)
    ensures Reaches(u, es, v) && AllAdvance(es, t) && OnlyThread(u, t, v) && v.lock == Free
    ensures Freezes(u.threads[t]) ==> t in v.threads && v.threads[t] == FreezeDone(true)
    decreases Left(u.threads[t])
  {
    var e := Advance(t, Other);
    AdvanceMovesOne(u, t, Other);
    LastAnswerGoesOn(u, u.threads[t]);
    hide Step, Apply, Enabled;
    var m := Apply(u, e);
    var more := [];
    if m.lock == Free {
      v := m;
      assert Reaches(m, [], m);
    } else {
      more, v := LockIsLeft(m, t);
      OnlyThreadTwice(u, t, m, v);
    }
    Prepend(u, e, more, v);
    es := [e] + more;
  }
}
