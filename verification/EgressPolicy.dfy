/**
 Changing a running sandbox's egress policy from several processes: mutate, ResetPolicy, Forget and
 Sync of internal/daemon/egresspolicy.go against a filter whose control API compares a tag before it swaps
 the policy (Control.put in internal/egress/control.go, with If-Match of section 13.1.1 of RFC 9110).

 The tag of a policy is a hash taken to be injective, so a tag stands for the policy it was made
 from. Policies themselves are left abstract.
 */
module EgressPolicy {
  import opened Text

  /** The host's copy of a live policy, and the declared policy it was made against. */
  datatype Saved<P> = Saved(policy: P, declared: P)

  /** Where one process stands in one call. Everything from MutateRead on is under the lock. */
  datatype Process<!P> =
    | Idle
    | MutateWait(next: P -> Option<P>)
    | MutateRead(next: P -> Option<P>, tries: nat)
    | MutatePush(next: P -> Option<P>, tries: nat, seen: P, policy: P)
    | MutateSave(policy: P)
    | ResetWait
    | ResetPush
    | ResetForget
    | ForgetWait
    | ForgetDrop
    | SyncWait
    | SyncLoad
    | SyncCompare(copy: P)
    | SyncPush(copy: P, seen: P)
    | Releasing

  /** What was done to the filter or its saved copy. Outside is a change of the policy in force made by
      something that is not this API: a direct PUT, or a filter container replaced or restarted from
      an older copy. Forgotten drops the copy alone. */
  datatype Change<!P> = Update(next: P -> Option<P>) | Reset | Forgotten | Resync(policy: P) | Outside(policy: P)

  /** changes is every change of the policy in force since the filter was created, in order;
      disturbed says an outside change came after the last one made through this API. */
  datatype State<!P> = State(declared: P, inForce: P, saved: Option<Saved<P>>, lock: Option<nat>,
                             processes: map<nat, Process<P>>, changes: seq<Change<P>>, disturbed: bool)

  function Start<P>(declared: P): State<P> {
    State(declared, declared, None, None, map[], [], false)
  }

  function At<P>(s: State<P>, pid: nat): Process<P> {
    if pid in s.processes then s.processes[pid] else Idle
  }

  function Go<P>(s: State<P>, pid: nat, p: Process<P>): State<P> {
    s.(processes := s.processes[pid := p])
  }

  /** The filter takes a policy; the change is recorded. */
  function Put<P>(s: State<P>, policy: P, change: Change<P>): State<P> {
    s.(inForce := policy, changes := s.changes + [change], disturbed := change.Outside?)
  }

  // -------------------------------------------------------------------------
  // Steps

  datatype Event<!P> =
    | BeginMutate(pid: nat, next: P -> Option<P>)
    | BeginReset(pid: nat)
    | BeginForget(pid: nat)
    | BeginSync(pid: nat)
    | Acquire(pid: nat)
    | GiveUp(pid: nat)
    | Act(pid: nat)
    | OutsidePut(policy: P)

  predicate Waiting<P>(p: Process<P>) {
    p.MutateWait? || p.ResetWait? || p.ForgetWait? || p.SyncWait?
  }

  predicate HoldsLock<P>(p: Process<P>) {
    !p.Idle? && !Waiting(p)
  }

  ghost predicate Enabled<P>(s: State<P>, e: Event<P>) {
    match e
    case BeginMutate(pid, _) => At(s, pid).Idle?
    case BeginReset(pid) => At(s, pid).Idle?
    case BeginForget(pid) => At(s, pid).Idle?
    case BeginSync(pid) => At(s, pid).Idle? && s.saved.Some?
    case Acquire(pid) => Waiting(At(s, pid)) && s.lock.None?
    case GiveUp(pid) => Waiting(At(s, pid))
    case Act(pid) => HoldsLock(At(s, pid))
    case OutsidePut(_) => true
  }

  /** What a process does once it has the lock: one round trip to the filter or one change of the
      saved copy at a time. */
  ghost function ActUnderLock<P>(s: State<P>, pid: nat): State<P>
    requires HoldsLock(At(s, pid))
  {
    match At(s, pid)
    case MutateRead(next, tries) =>
      var p := next(s.inForce);
      if p.None? then Go(s, pid, Releasing) else Go(s, pid, MutatePush(next, tries, s.inForce, p.value))
    case MutatePush(next, tries, seen, policy) =>
      if s.inForce == seen then Go(Put(s, policy, Update(next)), pid, MutateSave(policy))
      else if tries + 1 < 3 then Go(s, pid, MutateRead(next, tries + 1))
      else Go(s, pid, Releasing)
    case MutateSave(policy) => Go(s.(saved := Some(Saved(policy, s.declared))), pid, Releasing)
    case ResetPush => Go(Put(s, s.declared, Reset), pid, ResetForget)
    case ResetForget => Go(s.(saved := None), pid, Releasing)
    case ForgetDrop => Go(s.(saved := None, changes := s.changes + [Forgotten]), pid, Releasing)
    case SyncLoad =>
      if s.saved.None? then Go(s, pid, Releasing)
      else if s.saved.value.declared != s.declared then Go(s.(saved := None), pid, Releasing)
      else Go(s, pid, SyncCompare(s.saved.value.policy))
    case SyncCompare(copy) =>
      if s.inForce == copy then Go(s, pid, Releasing) else Go(s, pid, SyncPush(copy, s.inForce))
    case SyncPush(copy, seen) =>
      if s.inForce == seen then Go(Put(s, copy, Resync(copy)), pid, Releasing) else Go(s, pid, Releasing)
    case Releasing => Go(s.(lock := None), pid, Idle)
    case _ => s
  }

  function Locked<P>(p: Process<P>): Process<P>
    requires Waiting(p)
  {
    match p
    case MutateWait(next) => MutateRead(next, 0)
    case ResetWait => ResetPush
    case ForgetWait => ForgetDrop
    case SyncWait => SyncLoad
    case _ => p
  }

  ghost function Apply<P>(s: State<P>, e: Event<P>): State<P>
    requires Enabled(s, e)
  {
    match e
    case BeginMutate(pid, next) => Go(s, pid, MutateWait(next))
    case BeginReset(pid) => Go(s, pid, ResetWait)
    case BeginForget(pid) => Go(s, pid, ForgetWait)
    case BeginSync(pid) => Go(s, pid, SyncWait)
    case Acquire(pid) => Go(s.(lock := Some(pid)), pid, Locked(At(s, pid)))
    case GiveUp(pid) => Go(s, pid, Idle)
    case Act(pid) => ActUnderLock(s, pid)
    case OutsidePut(policy) => Put(s, policy, Outside(policy))
  }

  ghost predicate Reaches<P>(s: State<P>, es: seq<Event<P>>, t: State<P>)
    decreases |es|
  {
    if es == [] then s == t else Enabled(s, es[0]) && Reaches(Apply(s, es[0]), es[1..], t)
  }

  // -------------------------------------------------------------------------
  // The invariant

  ghost function Changed<P>(declared: P, before: P, c: Change<P>): P {
    match c
    case Update(next) => if next(before).Some? then next(before).value else before
    case Reset => declared
    case Forgotten => before
    case Resync(policy) => policy
    case Outside(policy) => policy
  }

  /** The policy a list of changes leads to, each applied to what the ones before it left. */
  ghost function Composed<P>(declared: P, changes: seq<Change<P>>): P {
    if changes == [] then declared
    else Changed(declared, Composed(declared, changes[..|changes| - 1]), changes[|changes| - 1])
  }

  /** A saved copy is the policy in force, unless something outside changed the filter since. */
  ghost predicate Agrees<P>(s: State<P>) {
    s.saved.Some? && !s.disturbed ==> s.saved.value.policy == s.inForce
  }

  /** What the process that has the lock knows at each point. */
  ghost predicate Holds<P>(s: State<P>, p: Process<P>) {
    match p
    case MutatePush(next, _, seen, policy) => Agrees(s) && next(seen) == Some(policy)
    case MutateSave(policy) => !s.disturbed ==> s.inForce == policy
    case ResetForget => true
    case SyncCompare(copy) => Agrees(s) && s.saved == Some(Saved(copy, s.declared))
    case SyncPush(copy, seen) => Agrees(s) && s.saved == Some(Saved(copy, s.declared)) && copy != seen
    case _ => Agrees(s)
  }

  /** Exactly the process the lock names is between acquiring and releasing. */
  ghost predicate LockOwned<P>(s: State<P>) {
    forall pid: nat :: HoldsLock(At(s, pid)) <==> s.lock == Some(pid)
  }

  ghost predicate Inv<P>(s: State<P>) {
    && LockOwned(s)
    && (if s.lock.Some? then Holds(s, At(s, s.lock.value)) else Agrees(s))
    && (s.saved.Some? ==> s.saved.value.declared == s.declared)
    && s.inForce == Composed(s.declared, s.changes)
  }

  lemma ComposedStep<P>(declared: P, changes: seq<Change<P>>, c: Change<P>)
    ensures Composed(declared, changes + [c]) == Changed(declared, Composed(declared, changes), c)
  {
    assert (changes + [c])[..|changes|] == changes;
  }

  /** A step under the lock moves one process, which keeps the lock unless it goes idle. */
  lemma ActMovesOne<P>(s: State<P>, pid: nat)
    requires HoldsLock(At(s, pid)) && s.lock == Some(pid)
    ensures
      var t := ActUnderLock(s, pid);
      && (forall other: nat :: other != pid ==> At(t, other) == At(s, other))
      && (if HoldsLock(At(t, pid)) then t.lock == Some(pid) else t.lock.None?)
  {
  }

  lemma ActKeepsLock<P>(s: State<P>, pid: nat)
    requires LockOwned(s) && HoldsLock(At(s, pid))
    ensures LockOwned(ActUnderLock(s, pid))
  {
    hide ActUnderLock, HoldsLock;
    ActMovesOne(s, pid);
  }

  lemma ActComposes<P>(s: State<P>, pid: nat)
    requires Inv(s) && HoldsLock(At(s, pid))
    ensures var t := ActUnderLock(s, pid); t.inForce == Composed(t.declared, t.changes)
  {
    hide Composed;
    var t := ActUnderLock(s, pid);
    assert s.lock == Some(pid);
    if t.changes != s.changes {
      ComposedStep(s.declared, s.changes, t.changes[|s.changes|]);
    }
  }

  lemma ActKeepsInv<P>(s: State<P>, pid: nat)
    requires Inv(s) && HoldsLock(At(s, pid))
    ensures Inv(ActUnderLock(s, pid))
  {
    hide Composed, LockOwned, Holds, Agrees, ActUnderLock;
    ActKeepsLock(s, pid);
    ActComposes(s, pid);
    LockIs(s, pid);
    ActKnows(s, pid);
  }

  lemma ActKnows<P>(s: State<P>, pid: nat)
    requires HoldsLock(At(s, pid)) && s.lock == Some(pid) && Holds(s, At(s, pid))
    requires s.saved.Some? ==> s.saved.value.declared == s.declared
    ensures
      var t := ActUnderLock(s, pid);
      && (if t.lock.Some? then t.lock.value == pid && Holds(t, At(t, pid)) else Agrees(t))
      && (t.saved.Some? ==> t.saved.value.declared == t.declared)
  {
  }

  lemma LockIs<P>(s: State<P>, pid: nat)
    requires LockOwned(s) && HoldsLock(At(s, pid))
    ensures s.lock == Some(pid)
  {
  }

  lemma StepKeepsInv<P>(s: State<P>, e: Event<P>)
    requires Inv(s) && Enabled(s, e)
    ensures Inv(Apply(s, e))
  {
    hide Composed;
    if e.Act? {
      ActKeepsInv(s, e.pid);
    } else if e.OutsidePut? {
      ComposedStep(s.declared, s.changes, Outside(e.policy));
      assert forall pid: nat :: At(Apply(s, e), pid) == At(s, pid);
    } else {
      assert forall other: nat :: other != e.pid ==> At(Apply(s, e), other) == At(s, other);
    }
  }

  lemma {:induction false} RunKeepsInv<P>(s: State<P>, es: seq<Event<P>>, t: State<P>)
    requires Inv(s) && Reaches(s, es, t)
    ensures Inv(t)
    decreases |es|
  {
    hide Inv, Enabled, Apply;
    if es != [] {
      StepKeepsInv(s, es[0]);
      RunKeepsInv(Apply(s, es[0]), es[1..], t);
    }
  }

  // -------------------------------------------------------------------------
  // What the writers promise

  /** In every interleaving, whoever else writes to the filter: at most one process is between
      acquiring and releasing; the policy in force is the changes composed in the order they were
      made, so no update is lost; and while the lock is free a saved copy is the policy in force
      unless something outside changed the filter after the last write made here. */
  lemma WritersCompose<P>(declared: P, es: seq<Event<P>>, s: State<P>)
    requires Reaches(Start(declared), es, s)
    ensures forall p, q :: HoldsLock(At(s, p)) && HoldsLock(At(s, q)) ==> p == q
    ensures s.inForce == Composed(s.declared, s.changes)
    ensures s.lock.None? && s.saved.Some? && !s.disturbed ==> s.saved.value.policy == s.inForce
  {
    RunKeepsInv(Start(declared), es, s);
  }

  ghost predicate NothingOutside<P>(es: seq<Event<P>>) {
    forall i :: 0 <= i < |es| ==> !es[i].OutsidePut?
  }

  /** With no outside change: a policy read under the lock is still in force when it is pushed, and
      a Sync has nothing to push. */
  ghost predicate Calm<P>(s: State<P>) {
    && !s.disturbed
    && (forall i :: 0 <= i < |s.changes| ==> s.changes[i].Update? || s.changes[i].Reset? || s.changes[i].Forgotten?)
    && (s.lock.Some? ==>
          var p := At(s, s.lock.value);
          (p.MutatePush? ==> p.seen == s.inForce && p.tries == 0) && (p.MutateRead? ==> p.tries == 0) && !p.SyncPush?)
  }

  lemma StepKeepsCalm<P>(s: State<P>, e: Event<P>)
    requires Inv(s) && Calm(s) && Enabled(s, e) && !e.OutsidePut?
    ensures Calm(Apply(s, e))
  {
    hide Composed;
    if e.Act? {
      assert s.lock == Some(e.pid);
    }
  }

  lemma {:induction false} RunKeepsCalm<P>(s: State<P>, es: seq<Event<P>>, t: State<P>)
    requires Inv(s) && Calm(s) && NothingOutside(es) && Reaches(s, es, t)
    ensures Inv(t) && Calm(t)
    decreases |es|
  {
    hide Inv, Enabled, Apply, Calm;
    if es != [] {
      assert !es[0].OutsidePut?;
      StepKeepsInv(s, es[0]);
      StepKeepsCalm(s, es[0]);
      RunKeepsCalm(Apply(s, es[0]), es[1..], t);
    }
  }

  /** With every writer going through the lock and the filter staying up: whenever the lock is free
      a saved copy is the policy in force; no write ever meets a conflict; and Sync never changes
      anything, so it never puts back a policy somebody replaced. */
  lemma SyncNeverReverts<P>(declared: P, es: seq<Event<P>>, s: State<P>)
    requires NothingOutside(es) && Reaches(Start(declared), es, s)
    ensures s.lock.None? && s.saved.Some? ==> s.saved.value.policy == s.inForce
    ensures forall i :: 0 <= i < |s.changes| ==> s.changes[i].Update? || s.changes[i].Reset? || s.changes[i].Forgotten?
    ensures forall pid :: At(s, pid).MutatePush? ==> At(s, pid).seen == s.inForce
  {
    RunKeepsCalm(Start(declared), es, s);
    forall pid | At(s, pid).MutatePush? ensures At(s, pid).seen == s.inForce {
      assert HoldsLock(At(s, pid));
    }
  }

  /** One Sync alone, from a free lock, with nothing else running. */
  ghost function AfterSync<P>(s: State<P>, pid: nat): State<P>
    requires At(s, pid).SyncLoad?
  {
    var a := ActUnderLock(s, pid);
    if a.processes[pid].Releasing? then a
    else
      var b := ActUnderLock(a, pid);
      if b.processes[pid].Releasing? then b else ActUnderLock(b, pid)
  }

  /** What Sync is for: whatever the filter was replaced with, a Sync that runs undisturbed puts
      the saved copy back in force, exactly when it was not there already. */
  lemma SyncRepairs<P>(s: State<P>, pid: nat)
    requires At(s, pid).SyncLoad? && s.saved.Some? && s.saved.value.declared == s.declared
    ensures
      var t := AfterSync(s, pid);
      && t.inForce == s.saved.value.policy && t.saved == s.saved
      && t.changes == if s.inForce == s.saved.value.policy then s.changes else s.changes + [Resync(s.saved.value.policy)]
  {
  }

  // -------------------------------------------------------------------------
  // What is saved

  /** The copy that ought to be kept: the policy the last update came to, unless a reset or a forget
      came after it. Repairs and outside changes do not count. */
  ghost function Ought<P>(declared: P, changes: seq<Change<P>>): Option<Saved<P>> {
    if changes == [] then None
    else
      match changes[|changes| - 1]
      case Update(_) => Some(Saved(Composed(declared, changes), declared))
      case Reset => None
      case Forgotten => None
      case _ => Ought(declared, changes[..|changes| - 1])
  }

  lemma OughtStep<P>(declared: P, changes: seq<Change<P>>, c: Change<P>)
    ensures Ought(declared, changes + [c]) ==
      if c.Update? then Some(Saved(Changed(declared, Composed(declared, changes), c), declared))
      else if c.Reset? || c.Forgotten? then None
      else Ought(declared, changes)
  {
    hide Composed;
    ComposedStep(declared, changes, c);
    assert (changes + [c])[..|changes|] == changes;
  }

  /** The copy is what it ought to be, but between a push and the save that follows it. */
  ghost predicate SavedWell<P>(s: State<P>) {
    var ought := Ought(s.declared, s.changes);
    if s.lock.Some? && At(s, s.lock.value).MutateSave? then ought == Some(Saved(At(s, s.lock.value).policy, s.declared))
    else if s.lock.Some? && At(s, s.lock.value).ResetForget? then ought == None
    else s.saved == ought
  }

  lemma ActSavesWell<P>(s: State<P>, pid: nat)
    requires Inv(s) && SavedWell(s) && HoldsLock(At(s, pid))
    ensures SavedWell(ActUnderLock(s, pid))
  {
    hide Composed, Ought;
    assert s.lock == Some(pid);
    var t := ActUnderLock(s, pid);
    if t.changes != s.changes {
      OughtStep(s.declared, s.changes, t.changes[|s.changes|]);
    }
  }

  lemma StepSavesWell<P>(s: State<P>, e: Event<P>)
    requires Inv(s) && SavedWell(s) && Enabled(s, e)
    ensures SavedWell(Apply(s, e))
  {
    hide Composed, Ought, ActUnderLock;
    if e.Act? {
      ActSavesWell(s, e.pid);
    } else if e.OutsidePut? {
      OughtStep(s.declared, s.changes, Outside(e.policy));
    } else if s.lock.Some? {
      assert HoldsLock(At(s, s.lock.value)) && At(Apply(s, e), s.lock.value) == At(s, s.lock.value);
    }
  }

  lemma {:induction false} RunSavesWell<P>(s: State<P>, es: seq<Event<P>>, t: State<P>)
    requires Inv(s) && SavedWell(s) && Reaches(s, es, t)
    ensures Inv(t) && SavedWell(t)
    decreases |es|
  {
    hide Inv, SavedWell, Enabled, Apply;
    if es != [] {
      StepKeepsInv(s, es[0]);
      StepSavesWell(s, es[0]);
      RunSavesWell(Apply(s, es[0]), es[1..], t);
    }
  }

  /** In every interleaving, whenever the lock is free the copy kept is exactly the policy the last
      update came to, with the declared one, and none after a reset or a forget. */
  lemma LastUpdateIsSaved<P>(declared: P, es: seq<Event<P>>, s: State<P>)
    requires Reaches(Start(declared), es, s) && s.lock.None?
    ensures s.saved == Ought(s.declared, s.changes)
  {
    RunSavesWell(Start(declared), es, s);
  }

  /** So whatever the filter was replaced with, a Sync that runs undisturbed puts the last update back
      in force, if none was reset or forgotten since. */
  lemma SyncPutsLastUpdateBack<P>(declared: P, es: seq<Event<P>>, s: State<P>, pid: nat)
    requires Reaches(Start(declared), es, s) && At(s, pid).SyncLoad? && Ought(s.declared, s.changes).Some?
    ensures AfterSync(s, pid).inForce == Ought(s.declared, s.changes).value.policy
  {
    RunSavesWell(Start(declared), es, s);
    hide Reaches, Composed, Ought, AfterSync;
    assert s.lock == Some(pid);
    SyncRepairs(s, pid);
  }

  // -------------------------------------------------------------------------
  // What a writer alone does

  /** pid goes on under the lock until it has left it, if n steps are enough. */
  ghost function Alone<P>(s: State<P>, pid: nat, n: nat): State<P>
    decreases n
  {
    if n == 0 || !HoldsLock(At(s, pid)) then s else Alone(ActUnderLock(s, pid), pid, n - 1)
  }

  /** A change that the policy in force admits is put in force and saved; one it does not admit changes
      nothing. */
  lemma MutateAlone<P>(s: State<P>, pid: nat, next: P -> Option<P>, tries: nat)
    requires At(s, pid) == MutateRead(next, tries) && s.lock == Some(pid)
    ensures
      var t := Alone(s, pid, 4);
      && t.lock == None && At(t, pid) == Idle
      && (next(s.inForce).None? ==> t.inForce == s.inForce && t.saved == s.saved && t.changes == s.changes)
      && (next(s.inForce).Some? ==>
            && t.inForce == next(s.inForce).value && t.saved == Some(Saved(t.inForce, s.declared))
            && t.changes == s.changes + [Update(next)])
  {
    var a := ActUnderLock(s, pid);
    var b := ActUnderLock(a, pid);
    if next(s.inForce).Some? {
      var c := ActUnderLock(b, pid);
      var d := ActUnderLock(c, pid);
      assert Alone(d, pid, 0) == d;
      assert Alone(c, pid, 1) == d && Alone(b, pid, 2) == d && Alone(a, pid, 3) == d;
    } else {
      assert Alone(b, pid, 2) == b && Alone(a, pid, 3) == b;
    }
  }

  /** A reset puts the declared policy in force and keeps no copy; a forget drops the copy alone. */
  lemma ResetAlone<P>(s: State<P>, pid: nat)
    requires (At(s, pid) == ResetPush || At(s, pid) == ForgetDrop) && s.lock == Some(pid)
    ensures
      var t := Alone(s, pid, 3);
      && t.lock == None && At(t, pid) == Idle && t.saved == None
      && t.inForce == if At(s, pid) == ResetPush then s.declared else s.inForce
  {
    var a := ActUnderLock(s, pid);
    var b := ActUnderLock(a, pid);
    if At(s, pid) == ResetPush {
      var c := ActUnderLock(b, pid);
      assert Alone(c, pid, 0) == c && Alone(b, pid, 1) == c && Alone(a, pid, 2) == c;
    } else {
      assert Alone(b, pid, 1) == b && Alone(a, pid, 2) == b;
    }
  }

  /** A push that meets a conflict reads again, three times in all, and then gives up with nothing
      changed. */
  lemma ConflictRetries<P>(s: State<P>, pid: nat)
    requires At(s, pid).MutatePush? && At(s, pid).seen != s.inForce
    ensures
      var t, p := ActUnderLock(s, pid), At(s, pid);
      && t.inForce == s.inForce && t.saved == s.saved && t.changes == s.changes
      && At(t, pid) == if p.tries < 2 then MutateRead(p.next, p.tries + 1) else Releasing
  {
  }
}
