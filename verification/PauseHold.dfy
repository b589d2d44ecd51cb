/**
 Pausing a sandbox on purpose and resuming it (internal/daemon/freeze.go). Hold sets or clears the
 flag of every unit, one after another, and one Hold waits for another. Freeze holds the sandbox,
 then sets each unit's flag once more and freezes it under its lock, and releases the hold if one
 will not freeze. Thaw releases the hold, then clears each unit's flag once more and wakes it, and
 holds the sandbox again if one will not wake. Wakes, sleeps, touches and corrections of every unit
 run meanwhile, and so may any number of these calls; none of them waits for a Hold.
 */
module PauseHold {
  import opened UnitLock

  type Name = int

  // -------------------------------------------------------------------------
  // One unit under a hold

  ghost predicate Quiet(u: Unit) {
    u.held && forall t :: t in u.threads ==> !LetIn(u.threads[t])
  }

  lemma HeldLetsNobodyIn(u: Unit, pc: Pc, a: Answer)
    requires u.held && !LetIn(pc)
    ensures var n := Step(u, pc, a).next; n.At? ==> !LetIn(n.pc)
  {
  }

  lemma QuietIsKept(u: Unit, e: Event)
    requires Quiet(u) && Enabled(u, e) && e != SetHeld(false)
    ensures Quiet(Apply(u, e))
  {
    if e.Advance? {
      HeldLetsNobodyIn(u, u.threads[e.tid], e.answer);
    }
    hide Step, Inside;
  }

  /** A freeze that returns held the lock, so no wake was let in before it and none will be after. */
  lemma FreezeLeavesQuiet(u: Unit, t: Tid, a: Answer)
    requires Inv(u) && u.held && t in u.threads && (u.threads[t].FreezeEntered? || u.threads[t].FreezePausing?)
    requires var v := Apply(u, Advance(t, a)); t in v.threads && v.threads[t].FreezeDone?
    ensures Quiet(Apply(u, Advance(t, a)))
  {
    var v := Apply(u, Advance(t, a));
    assert u.lock == HeldBy(t);
    forall x | x in v.threads ensures !LetIn(v.threads[x]) {
      if x != t {
        assert v.threads[x] == u.threads[x] && !Inside(u.threads[x]);
      }
    }
  }

  // -------------------------------------------------------------------------
  // Pause and resume calls over a whole sandbox

  /** A Freeze over the units us: about to hold the sandbox, then i of them frozen, then about to
      release it after a failure, and returned. since is how many releases had begun when its Hold
      ended, and clean whether no Thaw could still clear a flag then. A Thaw: about to release the
      sandbox, about to clear the flag of the i-th unit, with its wake of the i-th unit under way,
      about to hold the sandbox again after a failure, and returned. And Hold called by itself. */
  datatype Call =
    | Begun(us: seq<Name>)
    | Freezing(us: seq<Name>, i: nat, since: nat, clean: bool)
    | GivingUp(us: seq<Name>, since: nat, clean: bool)
    | Returned(us: seq<Name>, since: nat, clean: bool, ok: bool)
    | ThawBegun(us: seq<Name>)
    | Storing(us: seq<Name>, i: nat)
    | Waking(us: seq<Name>, i: nat)
    | WakeFailed
    | Thawed(ok: bool)
    | Asked(held: bool)
    | Answered

  /** The Hold under way, if any: whose it is, and which units it has still to store. */
  datatype Sweep = Idle | Sweeping(owner: Tid, todo: set<Name>)

  /** releases counts how often releasing the hold began. */
  datatype Sandbox = Sandbox(units: map<Name, Unit>, calls: map<Tid, Call>, sweep: Sweep, releases: nat)

  datatype Act =
    | OnUnit(name: Name, e: Event)
    | Begin(call: Tid, us: seq<Name>, thaw: bool)
    | Ask(call: Tid, held: bool)
    | StartSweep(call: Tid)
    | SweepStore(name: Name)
    | EndSweep
    | EnterFreeze(call: Tid)
    | LeaveFreeze(call: Tid)
    | Store(call: Tid)
    | LeaveWake(call: Tid)
    | Wait(d: nat)

  /** What a unit does on its own, as opposed to what the calls here do to it. */
  predicate Own(s: Sandbox, e: Event) {
    match e
    case Arrive(t, pc) => t !in s.calls && pc != FreezeQueued
    case Collect(t) => t !in s.calls
    case SetHeld(_) => false
    case Tick(_) => false
    case _ => true
  }

  /** A call that is about to sweep, or sweeping, and what it stores. */
  predicate Sweeps(call: Call) {
    call.Begun? || call.GivingUp? || call.ThawBegun? || call.WakeFailed? || call.Asked?
  }

  predicate Wants(call: Call) {
    call.Begun? || call.WakeFailed? || call == Asked(true)
  }

  /** Where a call is, while it goes through the units. */
  predicate AtUnit(s: Sandbox, c: Tid) {
    && c in s.calls && (s.calls[c].Freezing? || s.calls[c].Storing? || s.calls[c].Waking?)
    && s.calls[c].i < |s.calls[c].us| && s.calls[c].us[s.calls[c].i] in s.units
  }

  function NameAt(s: Sandbox, c: Tid): Name
    requires AtUnit(s, c)
  {
    s.calls[c].us[s.calls[c].i]
  }

  function UnitAt(s: Sandbox, c: Tid): Unit
    requires AtUnit(s, c)
  {
    s.units[NameAt(s, c)]
  }

  ghost predicate NotIn(s: Sandbox, c: Tid) {
    forall x :: x in s.units ==> c !in s.units[x].threads
  }

  ghost predicate Can(s: Sandbox, a: Act) {
    match a
    case OnUnit(x, e) => x in s.units && Own(s, e) && Enabled(s.units[x], e)
    case Begin(c, us, _) => c !in s.calls && us != [] && NotIn(s, c) && forall x :: x in us <==> x in s.units
    case Ask(c, _) => c !in s.calls
    case StartSweep(c) => c in s.calls && Sweeps(s.calls[c]) && s.sweep == Idle
    case SweepStore(x) => s.sweep.Sweeping? && s.sweep.owner in s.calls && x in s.sweep.todo && x in s.units
    case EndSweep => s.sweep.Sweeping? && s.sweep.owner in s.calls && Sweeps(s.calls[s.sweep.owner]) && s.sweep.todo == {}
    case EnterFreeze(c) => AtUnit(s, c) && s.calls[c].Freezing? && c !in UnitAt(s, c).threads
    case LeaveFreeze(c) =>
      AtUnit(s, c) && s.calls[c].Freezing? && c in UnitAt(s, c).threads && UnitAt(s, c).threads[c].FreezeDone?
    case Store(c) => AtUnit(s, c) && s.calls[c].Storing? && c !in UnitAt(s, c).threads
    case LeaveWake(c) =>
      AtUnit(s, c) && s.calls[c].Waking? && c in UnitAt(s, c).threads && UnitAt(s, c).threads[c].WakeDone?
    case Wait(_) => true
  }

  function SetCall(s: Sandbox, c: Tid, call: Call): Sandbox {
    s.(calls := s.calls[c := call])
  }

  function SetUnit(s: Sandbox, x: Name, u: Unit): Sandbox {
    s.(units := s.units[x := u])
  }

  function Waited(s: Sandbox, d: nat): Sandbox {
    s.(units := map x | x in s.units :: Apply(s.units[x], Tick(d)))
  }

  /** One Hold at a time; a release counts from its beginning. */
  function Swept(s: Sandbox, c: Tid): Sandbox
    requires c in s.calls
  {
    s.(sweep := Sweeping(c, s.units.Keys), releases := if Wants(s.calls[c]) then s.releases else s.releases + 1)
  }

  function Stored(s: Sandbox, x: Name): Sandbox
    requires s.sweep.Sweeping? && s.sweep.owner in s.calls && x in s.units
  {
    SetUnit(s, x, Apply(s.units[x], SetHeld(Wants(s.calls[s.sweep.owner])))).(sweep := s.sweep.(todo := s.sweep.todo - {x}))
  }

  /** A call sets or clears the flag of the unit it is at and starts its own thread there. */
  function EnterWith(s: Sandbox, c: Tid, held: bool, pc: Pc): Sandbox
    requires AtUnit(s, c) && c !in UnitAt(s, c).threads && (pc == FreezeQueued || pc == WakeQueued(false))
  {
    SetUnit(s, NameAt(s, c), Apply(Apply(UnitAt(s, c), SetHeld(held)), Arrive(c, pc)))
  }

  function Collected(s: Sandbox, c: Tid): Sandbox
    requires AtUnit(s, c) && Enabled(UnitAt(s, c), Collect(c))
  {
    SetUnit(s, NameAt(s, c), Apply(UnitAt(s, c), Collect(c)))
  }

  /** One unit's freeze has returned: on to the next, or done, or release the hold and give up. */
  function NextFreeze(call: Call, ok: bool): Call
    requires call.Freezing?
  {
    var Freezing(us, i, since, clean) := call;
    if !ok then GivingUp(us, since, clean)
    else if i + 1 == |us| then Returned(us, since, clean, true)
    else Freezing(us, i + 1, since, clean)
  }

  /** One unit's wake has returned: on to the next, or done, or hold again and give up. */
  function NextWake(call: Call, ok: bool): Call
    requires call.Waking?
  {
    if !ok then WakeFailed else if call.i + 1 == |call.us| then Thawed(true) else Storing(call.us, call.i + 1)
  }

  /** A wake that may come up: let in, or up, or still to be checked against a flag that is clear. */
  predicate Live(u: Unit, d: Tid) {
    && d in u.threads
    && (|| LetIn(u.threads[d]) || u.threads[d] == WakeDone(true)
        || ((u.threads[d].WakeQueued? || u.threads[d].WakeEntered?) && !u.held))
  }

  /** A Thaw can still clear a flag: it is about to, or its wake may come up and it has another unit
      to go to. */
  ghost predicate Clears(s: Sandbox, d: Tid) {
    && AtUnit(s, d)
    && (|| s.calls[d].Storing?
        || (s.calls[d].Waking? && s.calls[d].i + 1 < |s.calls[d].us| && Live(UnitAt(s, d), d)))
  }

  ghost predicate Danger(s: Sandbox) {
    exists d :: d in s.calls && Clears(s, d)
  }

  /** A call whose Hold has ended. */
  ghost function AfterSweep(s: Sandbox, call: Call): Call {
    match call
    case Begun(us) => Freezing(us, 0, s.releases, !Danger(s))
    case GivingUp(us, since, clean) => Returned(us, since, clean, false)
    case ThawBegun(us) => Storing(us, 0)
    case WakeFailed => Thawed(false)
    case _ => Answered
  }

  ghost function Do(s: Sandbox, a: Act): Sandbox
    requires Can(s, a)
  {
    match a
    case OnUnit(x, e) => SetUnit(s, x, Apply(s.units[x], e))
    case Begin(c, us, thaw) => SetCall(s, c, if thaw then ThawBegun(us) else Begun(us))
    case Ask(c, held) => SetCall(s, c, Asked(held))
    case StartSweep(c) => Swept(s, c)
    case SweepStore(x) => Stored(s, x)
    case EndSweep => SetCall(s, s.sweep.owner, AfterSweep(s, s.calls[s.sweep.owner])).(sweep := Idle)
    case EnterFreeze(c) => EnterWith(s, c, true, FreezeQueued)
    case LeaveFreeze(c) => SetCall(Collected(s, c), c, NextFreeze(s.calls[c], UnitAt(s, c).threads[c].ok))
    case Store(c) => SetCall(EnterWith(s, c, false, WakeQueued(false)), c, Waking(s.calls[c].us, s.calls[c].i))
    case LeaveWake(c) => SetCall(Collected(s, c), c, NextWake(s.calls[c], UnitAt(s, c).threads[c].ok))
    case Wait(d) => Waited(s, d)
  }

  ghost predicate Run(s: Sandbox, acts: seq<Act>, t: Sandbox)
    decreases |acts|
  {
    if acts == [] then s == t else Can(s, acts[0]) && Run(Do(s, acts[0]), acts[1..], t)
  }

  ghost predicate Fresh(s: Sandbox) {
    s.calls == map[] && s.sweep == Idle && forall x :: x in s.units ==> Initial(s.units[x])
  }

  // -------------------------------------------------------------------------
  // The invariant

  ghost predicate UnitsInv(s: Sandbox) {
    forall x :: x in s.units ==> Inv(s.units[x])
  }

  /** Flags are being cleared. */
  predicate Releasing(s: Sandbox) {
    s.sweep.Sweeping? && s.sweep.owner in s.calls && !Wants(s.calls[s.sweep.owner])
  }

  /** Where a call's own thread is - a Thaw has one at the unit it is waking and nowhere else - and
      whose stamp is of a time before the release under way. */
  ghost predicate Placed(s: Sandbox, c: Tid)
    requires c in s.calls
  {
    match s.calls[c]
    case Begun(us) => us != [] && NotIn(s, c) && forall x :: x in us <==> x in s.units
    case ThawBegun(us) => us != [] && NotIn(s, c) && forall x :: x in us <==> x in s.units
    case Freezing(us, i, since, _) => i < |us| && Before(s, since) && forall x :: x in us <==> x in s.units
    case Returned(us, since, _, ok) => ok ==> Before(s, since) && forall x :: x in us <==> x in s.units
    case Storing(us, i) => i < |us| && NotIn(s, c) && forall x :: x in us <==> x in s.units
    case Waking(us, i) =>
      && i < |us| && (forall x :: x in us <==> x in s.units)
      && (forall x :: x in s.units && x != us[i] ==> c !in s.units[x].threads)
      && (us[i] in s.units ==> c in s.units[us[i]].threads && IsWake(s.units[us[i]].threads[c]))
    case _ => true
  }

  predicate Before(s: Sandbox, since: nat) {
    since <= s.releases && (Releasing(s) ==> since < s.releases)
  }

  /** Freezing unit x for call c has come to its end. */
  predicate FrozenBy(u: Unit, c: Tid) {
    c in u.threads && u.threads[c] == FreezeDone(true)
  }

  /** While a call freezes: the unit it is at is held, and those it has frozen are quiet. */
  ghost predicate FreezingHolds(s: Sandbox, c: Tid, us: seq<Name>, i: nat)
    requires i <= |us|
  {
    && (forall k :: 0 <= k < i ==> us[k] in s.units && Quiet(s.units[us[k]]))
    && (forall x :: x in s.units && c in s.units[x].threads ==> s.units[x].held)
    && (forall x :: x in s.units && FrozenBy(s.units[x], c) ==> Quiet(s.units[x]))
  }

  /** What a call that held the sandbox cleanly can count on until a release begins. */
  ghost predicate Holds(s: Sandbox, c: Tid)
    requires c in s.calls
  {
    match s.calls[c]
    case Freezing(us, i, since, clean) =>
      clean && since == s.releases && i <= |us| ==> FreezingHolds(s, c, us, i) && !Danger(s)
    case Returned(_, since, clean, ok) =>
      clean && ok && since == s.releases ==> (forall x :: x in s.units ==> Quiet(s.units[x])) && !Danger(s)
    case _ => true
  }

  ghost predicate SweepInv(s: Sandbox) {
    s.sweep.Sweeping? ==> s.sweep.owner in s.calls && Sweeps(s.calls[s.sweep.owner])
  }

  ghost predicate CallsInv(s: Sandbox) {
    forall c :: c in s.calls ==> Placed(s, c) && Holds(s, c)
  }

  ghost predicate SandboxInv(s: Sandbox) {
    UnitsInv(s) && SweepInv(s) && CallsInv(s)
  }

  // -------------------------------------------------------------------------
  // Steps that release nothing

  /** u became v without losing a hold: what was quiet is, and a freeze that ended left it quiet. */
  ghost predicate Evolves(u: Unit, v: Unit) {
    && (u.held ==> v.held) && (Quiet(u) ==> Quiet(v))
    && (u.held ==> forall c :: FrozenBy(v, c) ==> FrozenBy(u, c) || Quiet(v))
  }

  lemma OnlyFreezeEndsFreeze(u: Unit, pc: Pc, a: Answer)
    requires Step(u, pc, a).next == At(FreezeDone(true))
    ensures pc.FreezeEntered? || pc.FreezePausing?
  {
  }

  lemma StepEvolves(u: Unit, e: Event)
    requires Inv(u) && Enabled(u, e) && e != SetHeld(false)
    ensures Evolves(u, Apply(u, e))
  {
    var v := Apply(u, e);
    if Quiet(u) {
      QuietIsKept(u, e);
    }
    forall c | u.held && FrozenBy(v, c) && !FrozenBy(u, c) ensures Quiet(v) {
      assert e.Advance? && e.tid == c;
      OnlyFreezeEndsFreeze(u, u.threads[c], e.answer);
      FreezeLeavesQuiet(u, c, e.answer);
    }
    hide Step, Inside, Quiet, Inv, FrozenBy;
  }

  /** A thread that is no wake that may come up does not become one, unless a flag is cleared. */
  lemma StepStaysTame(u: Unit, e: Event, d: Tid)
    requires Enabled(u, e) && e != SetHeld(false) && d in u.threads && !Live(u, d)
    ensures !Live(Apply(u, e), d)
  {
    if e.Advance? && e.tid == d {
      TameGoesOn(u, u.threads[d], e.answer);
    }
    hide Step, Inside;
  }

  lemma TameGoesOn(u: Unit, pc: Pc, a: Answer)
    requires !LetIn(pc) && !pc.WakeDone? && ((pc.WakeQueued? || pc.WakeEntered?) ==> u.held)
    ensures var n := Step(u, pc, a).next;
      n.At? ==> !LetIn(n.pc) && n.pc != WakeDone(true) && ((n.pc.WakeQueued? || n.pc.WakeEntered?) ==> u.held)
  {
  }

  lemma EvolvesTwice(u: Unit, m: Unit, v: Unit)
    requires Evolves(u, m) && Evolves(m, v)
    ensures Evolves(u, v)
  {
    hide Quiet, FrozenBy;
  }

  /** What a call's thread may do while another act happens: it has none where it had none, a wake
      where it had one, and no wake that may come up unless it had. */
  ghost predicate KeepsPlace(s: Sandbox, t: Sandbox, c: Tid) {
    && t.units.Keys == s.units.Keys
    && (forall x :: x in s.units && c !in s.units[x].threads ==> c !in t.units[x].threads)
    && (forall x :: x in s.units && c in s.units[x].threads && IsWake(s.units[x].threads[c]) ==>
          c in t.units[x].threads && IsWake(t.units[x].threads[c]))
  }

  ghost predicate Tame(s: Sandbox, t: Sandbox, d: Tid) {
    forall x :: x in s.units && x in t.units && d in s.units[x].threads && !Live(s.units[x], d) ==> !Live(t.units[x], d)
  }

  ghost predicate AllEvolve(s: Sandbox, t: Sandbox) {
    t.units.Keys == s.units.Keys && forall x :: x in s.units ==> Evolves(s.units[x], t.units[x])
  }

  /** No Thaw moved on to clearing flags or waking. */
  ghost predicate NoNewWalk(s: Sandbox, t: Sandbox) {
    forall d :: d in t.calls && (t.calls[d].Storing? || t.calls[d].Waking?) ==> d in s.calls && t.calls[d] == s.calls[d]
  }

  lemma ClearsBefore(s: Sandbox, t: Sandbox, d: Tid)
    requires t.units.Keys == s.units.Keys && NoNewWalk(s, t) && Tame(s, t, d)
    requires d in t.calls && Clears(t, d) && (d in s.calls ==> Placed(s, d))
    ensures d in s.calls && Clears(s, d)
  {
    hide Live;
    assert AtUnit(s, d) && NameAt(s, d) == NameAt(t, d);
    var x := NameAt(s, d);
    assert s.calls[d].Waking? ==> d in s.units[x].threads;
  }

  lemma NoDangerIsKept(s: Sandbox, t: Sandbox)
    requires t.units.Keys == s.units.Keys && NoNewWalk(s, t) && (forall d :: Tame(s, t, d)) && CallsInv(s) && !Danger(s)
    ensures !Danger(t)
  {
    hide NoNewWalk, Clears, Tame, Placed, Holds;
    forall d | d in t.calls ensures !Clears(t, d) {
      if Clears(t, d) {
        ClearsBefore(s, t, d);
        assert false;
      }
    }
  }

  /** Every unit evolves, no Thaw gets on, and no release begins. */
  ghost predicate Goes(s: Sandbox, t: Sandbox) {
    && UnitsInv(t) && AllEvolve(s, t) && NoNewWalk(s, t) && t.releases == s.releases
    && (forall d :: Tame(s, t, d)) && (Releasing(t) ==> Releasing(s))
  }

  lemma FreezingIsKept(s: Sandbox, t: Sandbox, c: Tid, us: seq<Name>, i: nat)
    requires AllEvolve(s, t) && KeepsPlace(s, t, c) && i <= |us| && FreezingHolds(s, c, us, i)
    ensures FreezingHolds(t, c, us, i)
  {
    hide Quiet, FrozenBy, IsWake;
    forall x | x in t.units && c in t.units[x].threads
      ensures t.units[x].held && (FrozenBy(t.units[x], c) ==> Quiet(t.units[x]))
    {
      assert c in s.units[x].threads && s.units[x].held && Evolves(s.units[x], t.units[x]);
    }
    forall x | x in t.units && FrozenBy(t.units[x], c) ensures Quiet(t.units[x]) {
      FrozenHasThread(t.units[x], c);
    }
    forall k | 0 <= k < i ensures us[k] in t.units && Quiet(t.units[us[k]]) {
      var x := us[k];
      assert x in s.units && Quiet(s.units[x]);
      assert Evolves(s.units[x], t.units[x]);
    }
  }

  lemma FrozenHasThread(u: Unit, c: Tid)
    requires FrozenBy(u, c)
    ensures c in u.threads
  {
  }

  /** A call that neither moves nor loses its thread keeps what it holds. */
  lemma StillHolds(s: Sandbox, t: Sandbox, c: Tid)
    requires CallsInv(s) && Goes(s, t) && KeepsPlace(s, t, c) && c in s.calls && c in t.calls && t.calls[c] == s.calls[c]
    ensures Holds(t, c)
  {
    hide Quiet, FrozenBy, Danger, NoNewWalk, Tame, KeepsPlace, UnitsInv;
    assert Placed(s, c) && Holds(s, c);
    match s.calls[c]
    case Freezing(us, i, since, clean) =>
      if clean && since == s.releases {
        FreezingIsKept(s, t, c, us, i);
        NoDangerIsKept(s, t);
      }
    case Returned(us, since, clean, ok) =>
      if clean && ok && since == s.releases {
        forall x | x in t.units ensures Quiet(t.units[x]) {
          assert Evolves(s.units[x], t.units[x]);
        }
        NoDangerIsKept(s, t);
      }
    case _ =>
  }

  lemma StillPlaced(s: Sandbox, t: Sandbox, c: Tid)
    requires c in s.calls && Placed(s, c) && KeepsPlace(s, t, c) && c in t.calls && t.calls[c] == s.calls[c]
    requires forall since: nat :: Before(s, since) ==> Before(t, since)
    ensures Placed(t, c)
  {
    hide IsWake, Before;
    assert NotIn(s, c) ==> NotIn(t, c);
    if s.calls[c].Waking? {
      var x := s.calls[c].us[s.calls[c].i];
      assert x in s.units ==> c in s.units[x].threads && IsWake(s.units[x].threads[c]);
      assert x in t.units ==> c in t.units[x].threads && IsWake(t.units[x].threads[c]);
      forall y | y in t.units && y != x ensures c !in t.units[y].threads {
        assert c !in s.units[y].threads;
      }
    }
  }

  /** A call that neither moves nor loses its thread is as good as before. */
  lemma Kept(s: Sandbox, t: Sandbox, c: Tid)
    requires SandboxInv(s) && Goes(s, t) && c in s.calls && c in t.calls && t.calls[c] == s.calls[c] && KeepsPlace(s, t, c)
    ensures Placed(t, c) && Holds(t, c)
  {
    assert forall since: nat :: Before(s, since) ==> Before(t, since);
    hide Placed, Holds, KeepsPlace, AllEvolve, NoNewWalk, Before, Tame, UnitsInv;
    assert Placed(s, c);
    StillPlaced(s, t, c);
    StillHolds(s, t, c);
  }

  /** Whatever a call was stamped with, a release has begun since. */
  ghost predicate Void(s: Sandbox, t: Sandbox) {
    forall since: nat :: Before(s, since) ==> Before(t, since) && (since < t.releases || Danger(s))
  }

  /** A release voids what every call holds, and so does a Thaw that is about to clear a flag. */
  lemma VoidedKept(s: Sandbox, t: Sandbox, c: Tid)
    requires SandboxInv(s) && c in s.calls && c in t.calls && t.calls[c] == s.calls[c] && KeepsPlace(s, t, c)
    requires t.releases >= s.releases && Void(s, t)
    ensures Placed(t, c) && Holds(t, c)
  {
    hide Quiet, FrozenBy, Danger, UnitsInv, KeepsPlace, IsWake;
    assert Placed(s, c) && Holds(s, c);
    StillPlaced(s, t, c);
    if s.calls[c].Freezing? || (s.calls[c].Returned? && s.calls[c].ok) {
      assert Before(s, s.calls[c].since);
    }
  }

  // -------------------------------------------------------------------------
  // Acts on one unit

  /** u's thread may be gone or moved, but no wake that could not come up can. */
  ghost predicate TameUnit(u: Unit, v: Unit) {
    forall d :: d in u.threads && !Live(u, d) ==> !Live(v, d)
  }

  lemma SetUnitGoes(s: Sandbox, x: Name, v: Unit)
    requires UnitsInv(s) && x in s.units && Inv(v)
    ensures UnitsInv(SetUnit(s, x, v))
    ensures Evolves(s.units[x], v) && TameUnit(s.units[x], v) ==> Goes(s, SetUnit(s, x, v))
  {
    hide Inv, Quiet, Live, FrozenBy;
    var t := SetUnit(s, x, v);
    if Evolves(s.units[x], v) && TameUnit(s.units[x], v) {
      forall d ensures Tame(s, t, d) {
      }
    }
  }

  lemma WakeGoesOn(u: Unit, pc: Pc, a: Answer)
    requires IsWake(pc) && !pc.WakeDone?
    ensures Step(u, pc, a).next.At? && IsWake(Step(u, pc, a).next.pc)
  {
  }

  lemma OnUnitKeepsPlace(s: Sandbox, x: Name, e: Event, c: Tid)
    requires Can(s, OnUnit(x, e)) && c in s.calls
    ensures KeepsPlace(s, SetUnit(s, x, Apply(s.units[x], e)), c)
  {
    var u, v := s.units[x], Apply(s.units[x], e);
    if e.Advance? && e.tid == c && IsWake(u.threads[c]) {
      WakeGoesOn(u, u.threads[c], e.answer);
    }
    hide Step, IsWake, Inside;
    assert c !in u.threads ==> c !in v.threads;
    assert c in u.threads && IsWake(u.threads[c]) ==> c in v.threads && IsWake(v.threads[c]);
    hide Apply, Enabled;
  }

  lemma EventIsTame(u: Unit, e: Event)
    requires Enabled(u, e) && e != SetHeld(false)
    ensures TameUnit(u, Apply(u, e))
  {
    hide Apply, Enabled, Live;
    forall d | d in u.threads && !Live(u, d) ensures !Live(Apply(u, e), d) {
      StepStaysTame(u, e, d);
    }
  }

  lemma OnUnitKeeps(s: Sandbox, x: Name, e: Event)
    requires SandboxInv(s) && Can(s, OnUnit(x, e))
    ensures SandboxInv(Do(s, OnUnit(x, e)))
  {
    StepKeepsInv(s.units[x], e);
    StepEvolves(s.units[x], e);
    EventIsTame(s.units[x], e);
    var t := SetUnit(s, x, Apply(s.units[x], e));
    hide Inv, Evolves, TameUnit, Apply, Enabled, Placed, Holds, KeepsPlace;
    SetUnitGoes(s, x, Apply(s.units[x], e));
    hide Goes;
    assert UnitsInv(t);
    forall c | c in t.calls ensures Placed(t, c) && Holds(t, c) {
      OnUnitKeepsPlace(s, x, e, c);
      Kept(s, t, c);
    }
  }

  lemma TickGoes(u: Unit, d: nat)
    requires Inv(u)
    ensures var v := Apply(u, Tick(d)); Inv(v) && Evolves(u, v) && TameUnit(u, v) && v.threads == u.threads
  {
    StepKeepsInv(u, Tick(d));
    StepEvolves(u, Tick(d));
    EventIsTame(u, Tick(d));
  }

  lemma WaitGoes(s: Sandbox, d: nat)
    requires UnitsInv(s)
    ensures Goes(s, Waited(s, d)) && forall c :: KeepsPlace(s, Waited(s, d), c)
  {
    var t := Waited(s, d);
    hide Inv, Evolves, IsWake, Apply, Live;
    forall x | x in s.units
      ensures Inv(t.units[x]) && Evolves(s.units[x], t.units[x]) && TameUnit(s.units[x], t.units[x])
      ensures t.units[x].threads == s.units[x].threads
    {
      TickGoes(s.units[x], d);
    }
    forall c ensures Tame(s, t, c) && KeepsPlace(s, t, c) {
      forall x | x in s.units && c in s.units[x].threads && !Live(s.units[x], c) ensures !Live(t.units[x], c) {
        assert TameUnit(s.units[x], t.units[x]);
      }
    }
    hide KeepsPlace, Tame;
  }

  lemma WaitKeeps(s: Sandbox, d: nat)
    requires SandboxInv(s)
    ensures SandboxInv(Waited(s, d))
  {
    var t := Waited(s, d);
    WaitGoes(s, d);
    assert UnitsInv(t) && SweepInv(t);
    hide Goes, Placed, Holds, KeepsPlace, UnitsInv;
    forall c | c in t.calls ensures Placed(t, c) && Holds(t, c) {
      Kept(s, t, c);
    }
  }

  // -------------------------------------------------------------------------
  // Acts on one call

  lemma SameDanger(s: Sandbox, t: Sandbox)
    requires t.units == s.units && t.calls == s.calls
    ensures Danger(t) <==> Danger(s)
  {
    assert forall d :: Clears(t, d) <==> Clears(s, d);
  }

  /** A call that is neither clearing flags nor waking is no danger. */
  lemma NoDangerAdded(s: Sandbox, c: Tid, call: Call)
    requires !call.Storing? && !call.Waking? && Danger(SetCall(s, c, call))
    ensures Danger(s)
  {
    hide Live;
    var t := SetCall(s, c, call);
    var d :| d in t.calls && Clears(t, d);
    assert d != c && t.calls[d] == s.calls[d] && AtUnit(s, d) && UnitAt(s, d) == UnitAt(t, d);
    assert Clears(s, d);
  }

  /** Calls other than c, in a state with the same units. */
  lemma SameUnitsKeep(s: Sandbox, t: Sandbox, d: Tid)
    requires d in s.calls && Placed(s, d) && Holds(s, d) && d in t.calls && t.calls[d] == s.calls[d]
    requires t.units == s.units && t.releases == s.releases && (Danger(t) ==> Danger(s)) && (Releasing(t) ==> Releasing(s))
    ensures Placed(t, d) && Holds(t, d)
  {
    hide Quiet, Danger, FrozenBy, IsWake;
    assert forall since: nat :: Before(s, since) ==> Before(t, since);
    assert KeepsPlace(s, t, d);
    hide Before, Releasing;
    StillPlaced(s, t, d);
  }

  /** One call moves on; it is all that changes. */
  lemma MovedKeeps(s: Sandbox, c: Tid, call: Call)
    requires SandboxInv(s) && (s.sweep.Sweeping? ==> s.sweep.owner != c) && (Danger(SetCall(s, c, call)) ==> Danger(s))
    requires Placed(SetCall(s, c, call), c) && Holds(SetCall(s, c, call), c)
    ensures SandboxInv(SetCall(s, c, call))
  {
    var t := SetCall(s, c, call);
    assert UnitsInv(t) && SweepInv(t) && (Releasing(t) ==> Releasing(s));
    hide Danger, UnitsInv, Placed, Holds, Releasing, Sweeps;
    forall d | d in t.calls ensures Placed(t, d) && Holds(t, d) {
      if d != c {
        assert t.calls[d] == s.calls[d];
        SameUnitsKeep(s, t, d);
      }
    }
  }

  lemma BeginKeeps(s: Sandbox, c: Tid, call: Call)
    requires SandboxInv(s) && c !in s.calls
    requires call.Asked? || ((call.Begun? || call.ThawBegun?) && call.us != [] && NotIn(s, c) && forall x :: x in call.us <==> x in s.units)
    ensures SandboxInv(SetCall(s, c, call))
  {
    hide Danger, UnitsInv, Quiet;
    var t := SetCall(s, c, call);
    assert NotIn(s, c) ==> NotIn(t, c);
    if Danger(t) {
      NoDangerAdded(s, c, call);
    }
    MovedKeeps(s, c, call);
  }

  // -------------------------------------------------------------------------
  // The sweeps

  lemma StartKeeps(s: Sandbox, c: Tid)
    requires SandboxInv(s) && Can(s, StartSweep(c))
    ensures SandboxInv(Do(s, StartSweep(c)))
  {
    var t := Swept(s, c);
    SameDanger(s, t);
    assert UnitsInv(t) && SweepInv(t);
    if Wants(s.calls[c]) {
      assert !Releasing(t);
      hide Danger, UnitsInv, Placed, Holds, Releasing;
      forall d | d in t.calls ensures Placed(t, d) && Holds(t, d) {
        SameUnitsKeep(s, t, d);
      }
    } else {
      assert Void(s, t);
      forall d ensures KeepsPlace(s, t, d) {
      }
      hide Danger, UnitsInv, Placed, Holds, Releasing, Void, KeepsPlace;
      forall d | d in t.calls ensures Placed(t, d) && Holds(t, d) {
        VoidedKept(s, t, d);
      }
    }
  }

  lemma StoreOneKeeps(s: Sandbox, x: Name)
    requires SandboxInv(s) && Can(s, SweepStore(x))
    ensures SandboxInv(Do(s, SweepStore(x)))
  {
    var u := s.units[x];
    var e := SetHeld(Wants(s.calls[s.sweep.owner]));
    var v := Apply(u, e);
    var t := Stored(s, x);
    StepKeepsInv(u, e);
    SetUnitGoes(s, x, v);
    assert UnitsInv(t) && SweepInv(t);
    forall c ensures KeepsPlace(s, t, c) {
    }
    if e.held {
      StepEvolves(u, e);
      EventIsTame(u, e);
      assert Goes(s, SetUnit(s, x, v));
      assert Goes(s, t) by {
        SweepDoesNotMatter(s, SetUnit(s, x, v), t);
      }
      hide Goes, Placed, Holds, KeepsPlace, UnitsInv, Apply, Inv, Stored;
      assert t.calls == s.calls by {
        StoredKeepsCalls(s, x);
      }
      forall c | c in t.calls ensures Placed(t, c) && Holds(t, c) {
        Kept(s, t, c);
      }
    } else {
      assert Releasing(s) && Void(s, t);
      hide Danger, UnitsInv, Placed, Holds, Releasing, Void, KeepsPlace, Apply, Inv;
      forall c | c in t.calls ensures Placed(t, c) && Holds(t, c) {
        VoidedKept(s, t, c);
      }
    }
  }

  lemma StoredKeepsCalls(s: Sandbox, x: Name)
    requires s.sweep.Sweeping? && s.sweep.owner in s.calls && x in s.units
    ensures Stored(s, x).calls == s.calls
  {
  }

  lemma SweepDoesNotMatter(s: Sandbox, m: Sandbox, t: Sandbox)
    requires Goes(s, m) && t.units == m.units && t.calls == m.calls && t.releases == m.releases && (Releasing(t) ==> Releasing(s))
    ensures Goes(s, t)
  {
    hide Inv, Evolves, Live;
    forall d ensures Tame(s, t, d) {
      assert Tame(s, m, d);
    }
  }

  lemma EndKeeps(s: Sandbox)
    requires SandboxInv(s) && Can(s, EndSweep)
    ensures SandboxInv(Do(s, EndSweep))
  {
    var c := s.sweep.owner;
    var call := AfterSweep(s, s.calls[c]);
    var m := s.(sweep := Idle);
    SameDanger(s, m);
    assert Placed(s, c);
    var t := Do(s, EndSweep);
    assert t == SetCall(m, c, call);
    assert NotIn(s, c) ==> NotIn(t, c);
    if s.calls[c].ThawBegun? {
      assert Releasing(s) && Void(s, t) && Placed(t, c) && Holds(t, c);
      assert UnitsInv(t) && SweepInv(t);
      forall d ensures KeepsPlace(s, t, d) {
      }
      hide Danger, UnitsInv, Placed, Holds, Releasing, Void, KeepsPlace;
      forall d | d in t.calls ensures Placed(t, d) && Holds(t, d) {
        if d != c {
          VoidedKept(s, t, d);
        }
      }
    } else {
      if Danger(t) {
        NoDangerAdded(m, c, call);
      }
      assert FreshHold(t, c);
      assert Placed(t, c) && Holds(t, c) && UnitsInv(t) && SweepInv(t) && !Releasing(t);
      hide Danger, UnitsInv, Placed, Holds, Releasing, FreshHold;
      forall d | d in t.calls ensures Placed(t, d) && Holds(t, d) {
        if d != c {
          assert t.calls[d] == s.calls[d];
          SameUnitsKeep(s, t, d);
        }
      }
    }
  }

  /** A call that has just held the sandbox has frozen nothing yet. */
  ghost predicate FreshHold(s: Sandbox, c: Tid) {
    c in s.calls && s.calls[c].Freezing? ==> NotIn(s, c) && FreezingHolds(s, c, s.calls[c].us, 0)
  }

  // -------------------------------------------------------------------------
  // A call enters a unit, and leaves it

  lemma EnterGoes(s: Sandbox, c: Tid, held: bool, pc: Pc)
    requires UnitsInv(s) && AtUnit(s, c) && c !in UnitAt(s, c).threads && (pc == FreezeQueued || pc == WakeQueued(false))
    ensures UnitsInv(EnterWith(s, c, held, pc)) && (held ==> Goes(s, EnterWith(s, c, held, pc)))
    ensures forall d :: d != c ==> KeepsPlace(s, EnterWith(s, c, held, pc), d)
  {
    var u := UnitAt(s, c);
    var m := Apply(u, SetHeld(held));
    var v := Apply(m, Arrive(c, pc));
    StepKeepsInv(u, SetHeld(held));
    StepKeepsInv(m, Arrive(c, pc));
    if held {
      StepEvolves(u, SetHeld(held));
      StepEvolves(m, Arrive(c, pc));
      EvolvesTwice(u, m, v);
      EventIsTame(u, SetHeld(held));
      EventIsTame(m, Arrive(c, pc));
      assert m.threads == u.threads;
    }
    assert forall d :: d != c ==> (d in v.threads <==> d in u.threads) && (d in u.threads ==> v.threads[d] == u.threads[d]);
    hide Inv, Evolves, Apply, Enabled, IsWake, Live;
    assert held ==> TameUnit(u, v);
    SetUnitGoes(s, NameAt(s, c), v);
  }

  /** Entering sets the flag first, so the unit is held with the call's thread there. */
  lemma EnteredHolds(s: Sandbox, c: Tid)
    requires AtUnit(s, c) && s.calls[c].Freezing? && c !in UnitAt(s, c).threads && AllEvolve(s, EnterWith(s, c, true, FreezeQueued))
    requires FreezingHolds(s, c, s.calls[c].us, s.calls[c].i)
    ensures FreezingHolds(EnterWith(s, c, true, FreezeQueued), c, s.calls[c].us, s.calls[c].i)
  {
    var t, x, us := EnterWith(s, c, true, FreezeQueued), NameAt(s, c), s.calls[c].us;
    assert t.units[x].held && t.units[x].threads[c] == FreezeQueued && !FrozenBy(t.units[x], c);
    assert forall y :: y in s.units && y != x ==> t.units[y] == s.units[y];
    hide Quiet, Apply, Enabled, FrozenBy;
    forall k | 0 <= k < s.calls[c].i ensures us[k] in t.units && Quiet(t.units[us[k]]) {
      var y := us[k];
      assert y in s.units && Quiet(s.units[y]);
      assert Evolves(s.units[y], t.units[y]);
    }
  }

  lemma EnterKeeps(s: Sandbox, c: Tid)
    requires SandboxInv(s) && Can(s, EnterFreeze(c))
    ensures SandboxInv(Do(s, EnterFreeze(c)))
  {
    var t := EnterWith(s, c, true, FreezeQueued);
    EnterGoes(s, c, true, FreezeQueued);
    assert t.calls == s.calls && t.releases == s.releases && t.sweep == s.sweep;
    assert Placed(s, c) && Holds(s, c);
    assert Placed(t, c);
    if s.calls[c].clean && s.calls[c].since == s.releases {
      EnteredHolds(s, c);
      NoDangerIsKept(s, t);
    }
    assert UnitsInv(t) && SweepInv(t) && Holds(t, c);
    hide UnitsInv, EnterWith, Placed, Holds, KeepsPlace, Goes, Danger;
    forall d | d in t.calls ensures Placed(t, d) && Holds(t, d) {
      if d != c {
        Kept(s, t, d);
      }
    }
  }

  lemma CollectGoes(s: Sandbox, c: Tid)
    requires UnitsInv(s) && AtUnit(s, c) && Enabled(UnitAt(s, c), Collect(c))
    ensures Goes(s, Collected(s, c)) && c !in Collected(s, c).units[NameAt(s, c)].threads
    ensures Evolves(UnitAt(s, c), Collected(s, c).units[NameAt(s, c)])
    ensures forall d :: d != c || !IsWake(UnitAt(s, c).threads[c]) ==> KeepsPlace(s, Collected(s, c), d)
    ensures forall x :: x in s.units && x != NameAt(s, c) ==> Collected(s, c).units[x] == s.units[x]
  {
    var u := UnitAt(s, c);
    var v := Apply(u, Collect(c));
    StepKeepsInv(u, Collect(c));
    StepEvolves(u, Collect(c));
    EventIsTame(u, Collect(c));
    assert forall d :: d != c ==> (d in v.threads <==> d in u.threads) && (d in u.threads ==> v.threads[d] == u.threads[d]);
    hide Inv, Evolves, Apply, Enabled, IsWake, TameUnit;
    SetUnitGoes(s, NameAt(s, c), v);
  }

  lemma FreezeCollected(s: Sandbox, c: Tid)
    requires SandboxInv(s) && Can(s, LeaveFreeze(c))
    ensures SandboxInv(Collected(s, c))
  {
    var t := Collected(s, c);
    CollectGoes(s, c);
    assert !IsWake(UnitAt(s, c).threads[c]);
    assert t.calls == s.calls && UnitsInv(t) && SweepInv(t);
    hide UnitsInv, Placed, Holds, KeepsPlace, Goes, Apply, Enabled;
    forall d | d in t.calls ensures Placed(t, d) && Holds(t, d) {
      Kept(s, t, d);
    }
  }

  lemma LeaveKeeps(s: Sandbox, c: Tid)
    requires SandboxInv(s) && Can(s, LeaveFreeze(c))
    ensures SandboxInv(Do(s, LeaveFreeze(c)))
  {
    FreezeCollected(s, c);
    CollectGoes(s, c);
    var Freezing(us, i, since, clean) := s.calls[c];
    var m, ok := Collected(s, c), UnitAt(s, c).threads[c].ok;
    assert m.calls == s.calls && m.releases == s.releases && Holds(s, c) && Placed(s, c);
    assert ok ==> FrozenBy(UnitAt(s, c), c);
    assert ok && clean && since == s.releases ==> Quiet(m.units[us[i]]);
    hide SandboxInv, Collected, Apply, Inv, UnitsInv, Goes;
    NextFreezeKeeps(m, c, us, i, since, clean, ok);
  }

  lemma NextFreezeKeeps(s: Sandbox, c: Tid, us: seq<Name>, i: nat, since: nat, clean: bool, ok: bool)
    requires SandboxInv(s) && c in s.calls && s.calls[c] == Freezing(us, i, since, clean)
    requires ok && clean && since == s.releases && i < |us| && us[i] in s.units ==> Quiet(s.units[us[i]])
    ensures SandboxInv(SetCall(s, c, NextFreeze(s.calls[c], ok)))
  {
    hide Danger, UnitsInv, Quiet, FrozenBy;
    assert Placed(s, c) && Holds(s, c);
    var call := NextFreeze(s.calls[c], ok);
    var t := SetCall(s, c, call);
    if Danger(t) {
      NoDangerAdded(s, c, call);
    }
    assert Releasing(t) ==> Releasing(s);
    if ok && clean && since == s.releases {
      forall k | 0 <= k < i + 1 ensures us[k] in t.units && Quiet(t.units[us[k]]) {
        var x := us[k];
        assert x in us && x in s.units;
      }
      assert i + 1 == |us| ==> forall x :: x in t.units ==> x in us;
    }
    MovedKeeps(s, c, call);
  }

  lemma StoreKeeps(s: Sandbox, c: Tid)
    requires SandboxInv(s) && Can(s, Store(c))
    ensures SandboxInv(Do(s, Store(c)))
  {
    assert Clears(s, c) && Danger(s);
    var m := EnterWith(s, c, false, WakeQueued(false));
    var t := SetCall(m, c, Waking(s.calls[c].us, s.calls[c].i));
    EnterGoes(s, c, false, WakeQueued(false));
    assert Placed(s, c);
    assert Placed(t, c) && Holds(t, c);
    forall d | d != c ensures KeepsPlace(s, t, d) {
      assert KeepsPlace(s, m, d);
    }
    assert t.releases == s.releases && t.sweep == s.sweep && t.calls == s.calls[c := Waking(s.calls[c].us, s.calls[c].i)];
    assert UnitsInv(t) && SweepInv(t) && Void(s, t);
    hide UnitsInv, Placed, Holds, KeepsPlace, EnterWith, Danger, Clears, Void;
    forall d | d in t.calls ensures Placed(t, d) && Holds(t, d) {
      if d != c {
        VoidedKept(s, t, d);
      }
    }
  }

  lemma LeaveWakeKeeps(s: Sandbox, c: Tid)
    requires SandboxInv(s) && Can(s, LeaveWake(c))
    ensures SandboxInv(Do(s, LeaveWake(c)))
  {
    var m, ok := Collected(s, c), UnitAt(s, c).threads[c].ok;
    var call := NextWake(s.calls[c], ok);
    CollectGoes(s, c);
    assert Placed(s, c) && m.calls == s.calls && m.releases == s.releases && m.sweep == s.sweep;
    if call.Storing? {
      assert Clears(s, c) && Danger(s);
      NowhereElse(s, c);
      assert forall d :: d != c ==> KeepsPlace(s, m, d);
      hide Goes, Collected, Danger, Clears, KeepsPlace, Evolves, Enabled;
      NextStoreKeeps(s, m, c);
    } else {
      assert forall d :: d != c ==> KeepsPlace(s, m, d);
      hide Goes, Collected, KeepsPlace, Evolves, Enabled;
      WalkEndsKeeps(s, m, c, call);
    }
  }

  lemma NextStoreKeeps(s: Sandbox, m: Sandbox, c: Tid)
    requires SandboxInv(s) && Danger(s) && c in s.calls && s.calls[c].Waking? && s.calls[c].i + 1 < |s.calls[c].us|
    requires Goes(s, m) && NotIn(m, c) && m.calls == s.calls && m.sweep == s.sweep && forall d :: d != c ==> KeepsPlace(s, m, d)
    ensures SandboxInv(SetCall(m, c, Storing(s.calls[c].us, s.calls[c].i + 1)))
  {
    var t := SetCall(m, c, Storing(s.calls[c].us, s.calls[c].i + 1));
    assert Placed(s, c);
    assert SweepInv(t) && UnitsInv(t) && (Releasing(t) ==> Releasing(s));
    assert Void(s, t);
    assert NotIn(t, c) && Placed(t, c) && Holds(t, c);
    forall d | d != c ensures KeepsPlace(s, t, d) {
      assert KeepsPlace(s, m, d);
    }
    hide UnitsInv, Placed, Holds, KeepsPlace, Danger, Void, Goes;
    forall d | d in t.calls ensures Placed(t, d) && Holds(t, d) {
      if d != c {
        VoidedKept(s, t, d);
      }
    }
  }

  lemma WalkEndsKeeps(s: Sandbox, m: Sandbox, c: Tid, call: Call)
    requires SandboxInv(s) && c in s.calls && s.calls[c].Waking? && (call.WakeFailed? || call.Thawed?)
    requires Goes(s, m) && m.calls == s.calls && m.sweep == s.sweep && forall d :: d != c ==> KeepsPlace(s, m, d)
    ensures SandboxInv(SetCall(m, c, call))
  {
    var t := SetCall(m, c, call);
    assert SweepInv(t) && (Releasing(t) ==> Releasing(s)) && NoNewWalk(s, t);
    MovedOnGoes(s, m, t);
    assert UnitsInv(t) && Placed(t, c) && Holds(t, c);
    forall d | d != c ensures KeepsPlace(s, t, d) {
      assert KeepsPlace(s, m, d);
    }
    hide UnitsInv, Placed, Holds, KeepsPlace, Goes;
    forall d | d in t.calls ensures Placed(t, d) && Holds(t, d) {
      if d != c {
        Kept(s, t, d);
      }
    }
  }

  lemma NowhereElse(s: Sandbox, c: Tid)
    requires UnitsInv(s) && AtUnit(s, c) && s.calls[c].Waking? && Placed(s, c) && Enabled(UnitAt(s, c), Collect(c))
    ensures NotIn(Collected(s, c), c)
  {
    CollectGoes(s, c);
    var t := Collected(s, c);
    hide Goes, Collected, Evolves, Enabled;
    forall x | x in t.units ensures c !in t.units[x].threads {
      assert x != NameAt(s, c) ==> t.units[x] == s.units[x];
    }
  }

  lemma MovedOnGoes(s: Sandbox, m: Sandbox, t: Sandbox)
    requires Goes(s, m) && t.units == m.units && t.releases == m.releases && NoNewWalk(s, t) && (Releasing(t) ==> Releasing(s))
    ensures Goes(s, t)
  {
    hide Inv, Evolves, Live, NoNewWalk;
    forall d ensures Tame(s, t, d) {
      assert Tame(s, m, d);
    }
  }

  // -------------------------------------------------------------------------
  // Every act keeps the invariant

  lemma ActKeepsInv(s: Sandbox, a: Act)
    requires SandboxInv(s) && Can(s, a)
    ensures SandboxInv(Do(s, a))
  {
    hide SandboxInv, Apply, Enabled, Collected, EnterWith, Waited, Swept, Stored, AfterSweep, NextFreeze, NextWake;
    match a
    case OnUnit(x, e) => OnUnitKeeps(s, x, e);
    case Begin(c, us, thaw) => BeginKeeps(s, c, if thaw then ThawBegun(us) else Begun(us));
    case Ask(c, held) => BeginKeeps(s, c, Asked(held));
    case StartSweep(c) => StartKeeps(s, c);
    case SweepStore(x) => StoreOneKeeps(s, x);
    case EndSweep => EndKeeps(s);
    case EnterFreeze(c) => EnterKeeps(s, c);
    case LeaveFreeze(c) => LeaveKeeps(s, c);
    case Store(c) => StoreKeeps(s, c);
    case LeaveWake(c) => LeaveWakeKeeps(s, c);
    case Wait(d) => WaitKeeps(s, d);
  }

  lemma {:induction false} RunKeepsSandbox(s: Sandbox, acts: seq<Act>, t: Sandbox)
    requires SandboxInv(s) && Run(s, acts, t)
    ensures SandboxInv(t)
    decreases |acts|
  {
    hide SandboxInv, Can, Do;
    if acts != [] {
      ActKeepsInv(s, acts[0]);
      RunKeepsSandbox(Do(s, acts[0]), acts[1..], t);
    }
  }

  lemma FreshIsSound(s: Sandbox)
    requires Fresh(s)
    ensures SandboxInv(s)
  {
  }

  /** Call c held the sandbox, froze every unit and returned nil, and no release has begun since its
      Hold ended. */
  ghost predicate HoldsStill(s: Sandbox, c: Tid) {
    c in s.calls && s.calls[c].Returned? && s.calls[c].ok && s.calls[c].since == s.releases
  }

  /** No wake on any unit is let in. */
  ghost predicate NobodyIn(s: Sandbox) {
    forall x, w :: x in s.units && w in s.units[x].threads ==> !LetIn(s.units[x].threads[w])
  }

  lemma QuietMeansNobodyIn(s: Sandbox)
    requires forall x :: x in s.units ==> Quiet(s.units[x])
    ensures NobodyIn(s)
  {
    hide LetIn;
    forall x, w | x in s.units && w in s.units[x].threads ensures !LetIn(s.units[x].threads[w]) {
      assert Quiet(s.units[x]);
    }
  }

  /** From the moment Freeze returns nil until a release begins, no wake on any unit it covered is let
      in, not even one that was on its way when Freeze began: none is starting or unpausing - provided
      no Thaw could still clear a flag when its Hold ended. */
  lemma HeldUnitsAreNotWoken(s: Sandbox, acts: seq<Act>, t: Sandbox, c: Tid, x: Name, w: Tid)
    requires Fresh(s) && Run(s, acts, t) && HoldsStill(t, c) && t.calls[c].clean
    requires x in t.calls[c].us && x in t.units && w in t.units[x].threads
    ensures !LetIn(t.units[x].threads[w]) && !t.units[x].threads[w].Starting? && !t.units[x].threads[w].Unpausing?
  {
    FreshIsSound(s);
    RunKeepsSandbox(s, acts, t);
    hide Run, Inv, Can, Do, Danger;
    assert Holds(t, c);
    assert Quiet(t.units[x]);
  }
}
