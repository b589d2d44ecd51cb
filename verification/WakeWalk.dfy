/**
 Waking a service's dependencies before it starts (wake, wakeDeps, wakeAll and visited.claim of
 internal/daemon/proxy.go). Every unit on the way down runs in its own goroutine: it claims the
 dependencies nobody has claimed yet, one at a time, spawns a goroutine for each, waits for them,
 and only then wakes itself. Goroutines interleave freely; the graph may share dependencies and
 may have cycles.
 */
module WakeWalk {

  /** A unit's name, of which only equality matters. */
  type Name = int

  /** depends_on, by unit name. Every dependency is itself a unit: a name that resolves to nothing
      was skipped when the names were resolved. */
  type Graph = map<Name, seq<Name>>

  ghost predicate Closed(g: Graph) {
    forall u :: u in g ==> forall d :: d in g[u] ==> d in g
  }

  /** Where a claimed unit stands. Claimed has no goroutine yet; Claiming(i) has gone through i of
      its dependencies; Waiting waits for the goroutines it spawned; Waking is about to run wakeUnit. */
  datatype Phase = Claimed | Claiming(i: nat) | Waiting | Waking | Done(ok: bool)

  /** parent is who claimed a unit and rank is the order of claiming; woken lists the units whose
      wakeUnit has run, in the order it ran. */
  datatype State = State(phase: map<Name, Phase>, parent: map<Name, Name>, rank: map<Name, nat>, woken: seq<Name>)

  function Start(root: Name): State {
    State(map[root := Claiming(0)], map[], map[root := 0], [])
  }

  predicate IsKid(s: State, u: Name, d: Name) {
    d in s.parent && s.parent[d] == u
  }

  predicate IsDone(s: State, u: Name) {
    u in s.phase && s.phase[u].Done?
  }

  /** Whether a unit's goroutine can take a step. */
  ghost predicate Enabled(g: Graph, s: State, u: Name) {
    && u in s.phase && u in g
    && match s.phase[u]
       case Claimed => false
       case Claiming(_) => true
       case Waiting => forall d :: IsKid(s, u, d) ==> IsDone(s, d)
       case Waking => true
       case Done(_) => false
  }

  function SetPhase(s: State, u: Name, p: Phase): State {
    s.(phase := s.phase[u := p])
  }

  /** claim: exactly one asker takes a name nobody has. */
  function Claim(s: State, u: Name, d: Name): State {
    s.(phase := s.phase[d := Claimed], parent := s.parent[d := u], rank := s.rank[d := |s.phase|])
  }

  /** A new claim: d is under u, which goes on to its next dependency. */
  function ClaimNext(s: State, u: Name, d: Name, i: nat): State {
    SetPhase(Claim(s, u, d), u, Claiming(i + 1))
  }

  /** A unit's goroutines are spawned once all its claims are made. */
  function Spawn(s: State, u: Name): State {
    s.(phase := map x | x in s.phase :: if x == u then Waiting else if IsKid(s, u, x) then Claiming(0) else s.phase[x])
  }

  ghost predicate SomeKidFailed(s: State, u: Name) {
    exists d :: IsKid(s, u, d) && d in s.phase && s.phase[d] == Done(false)
  }

  /** One step of u's goroutine; ok is whether wakeUnit succeeds, where the step is that one. */
  ghost function Apply(g: Graph, s: State, u: Name, ok: bool): State
    requires Enabled(g, s, u)
  {
    match s.phase[u]
    case Claiming(i) =>
      if i == |g[u]| then Spawn(s, u)
      else if i > |g[u]| then s
      else if g[u][i] in s.phase then SetPhase(s, u, Claiming(i + 1))
      else ClaimNext(s, u, g[u][i], i)
    case Waiting => SetPhase(s, u, if SomeKidFailed(s, u) then Done(false) else Waking)
    case Waking => SetPhase(s, u, Done(ok)).(woken := s.woken + [u])
    case _ => s
  }

  datatype Event = Step(unit: Name, ok: bool)

  ghost predicate Reaches(g: Graph, s: State, es: seq<Event>, t: State)
    decreases |es|
  {
    if es == [] then s == t
    else Enabled(g, s, es[0].unit) && Reaches(g, Apply(g, s, es[0].unit, es[0].ok), es[1..], t)
  }

  ghost predicate Reachable(g: Graph, root: Name, s: State) {
    exists es :: Reaches(g, Start(root), es, s)
  }

  // -------------------------------------------------------------------------
  // The invariant

  /** Claims form a tree under the root, in order of claiming. */
  ghost predicate Tree(g: Graph, root: Name, s: State) {
    && root in s.phase && s.phase.Keys <= g.Keys && s.rank.Keys == s.phase.Keys
    && s.parent.Keys == s.phase.Keys - {root}
    && (forall d :: d in s.parent ==> s.parent[d] in s.phase && s.rank[s.parent[d]] < s.rank[d])
    && (forall d :: d in s.rank ==> s.rank[d] < |s.phase|)
  }

  /** What a unit's phase says about its dependencies and the units it claimed. */
  ghost predicate Settled(g: Graph, s: State, u: Name)
    requires u in s.phase && u in g
  {
    && (forall d :: IsKid(s, u, d) && d in s.phase ==>
          match s.phase[u]
          case Claimed => false
          case Claiming(_) => s.phase[d] == Claimed
          case Waiting => s.phase[d] != Claimed
          case Waking => s.phase[d] == Done(true)
          case Done(_) => s.phase[d].Done?)
    && match s.phase[u]
       case Claimed => u in s.parent
       case Claiming(i) => i <= |g[u]| && forall k :: 0 <= k < i ==> g[u][k] in s.phase
       case _ => forall d :: d in g[u] ==> d in s.phase
  }

  /** A unit is in woken once, when its wakeUnit ran, and all it claimed had come up by then; one
      that ended without it claimed one that failed. */
  ghost predicate Counted(s: State) {
    && (forall i, j :: 0 <= i < j < |s.woken| ==> s.woken[i] != s.woken[j])
    && (forall u :: u in s.woken ==> IsDone(s, u))
    && (forall u :: u in s.phase && s.phase[u] == Done(true) ==> u in s.woken)
    && (forall u :: u in s.phase && s.phase[u] == Done(false) && u !in s.woken ==>
          SomeKidFailed(s, u))
    && (forall u, d :: u in s.woken && IsKid(s, u, d) ==> d in s.phase && s.phase[d] == Done(true))
  }

  ghost predicate Inv(g: Graph, root: Name, s: State) {
    && Tree(g, root, s)
    && (forall u :: u in s.phase ==> Settled(g, s, u))
    && Counted(s)
  }

  lemma StartInv(g: Graph, root: Name)
    requires root in g
    ensures Inv(g, root, Start(root))
  {
  }

  // Each kind of step keeps each part.

  /** A unit whose goroutine can run has a parent that is waiting for it. */
  lemma ParentWaits(g: Graph, s: State, u: Name, x: Name)
    requires x in s.phase && x in g && Settled(g, s, x) && IsKid(s, x, u) && Enabled(g, s, u)
    ensures s.phase[x] == Waiting
  {
  }

  lemma SetKeepsOthers(g: Graph, s: State, u: Name, p: Phase, x: Name)
    requires Enabled(g, s, u) && p != Claimed && x != u && x in s.phase && x in g && Settled(g, s, x)
    ensures Settled(g, SetPhase(s, u, p), x)
  {
    var t := SetPhase(s, u, p);
    if IsKid(s, x, u) {
      ParentWaits(g, s, u, x);
    }
    assert forall d :: IsKid(t, x, d) <==> IsKid(s, x, d);
  }

  /** Nobody was claimed by a unit that was not claimed itself. */
  lemma NewcomerHasNoKids(g: Graph, root: Name, s: State, d: Name)
    requires Tree(g, root, s) && d !in s.phase
    ensures d !in s.parent && forall z :: !IsKid(s, d, z)
  {
  }

  /** A claim and its claimer's next phase, as x sees them: the same units under it, and the only one
      that moves is the claimer. */
  lemma ClaimFrames(g: Graph, root: Name, s: State, u: Name, d: Name, i: nat, x: Name)
    requires Tree(g, root, s) && u in s.phase && d !in s.phase && x in s.phase && x != u
    ensures var t := ClaimNext(s, u, d, i);
      && (forall z :: IsKid(t, x, z) <==> IsKid(s, x, z))
      && (forall z :: z in s.phase && z != u ==> z in t.phase && t.phase[z] == s.phase[z])
      && t.phase[u] == Claiming(i + 1) && t.phase.Keys == s.phase.Keys + {d}
  {
    NewcomerHasNoKids(g, root, s, d);
  }

  lemma ClaimKeepsOthers(g: Graph, root: Name, s: State, u: Name, d: Name, i: nat, x: Name)
    requires Tree(g, root, s) && Enabled(g, s, u) && d !in s.phase
    requires x in s.phase && x in g && x != u && Settled(g, s, x)
    ensures Settled(g, ClaimNext(s, u, d, i), x)
  {
    if IsKid(s, x, u) {
      ParentWaits(g, s, u, x);
    }
    ClaimFrames(g, root, s, u, d, i, x);
    NewcomerHasNoKids(g, root, s, d);
    assert forall z :: IsKid(s, x, z) ==> z in s.phase;
    hide Tree, Enabled, ClaimNext, IsKid;
  }

  lemma ClaimSettlesBoth(g: Graph, root: Name, s: State, u: Name, i: nat)
    requires Closed(g) && Tree(g, root, s) && Enabled(g, s, u) && s.phase[u] == Claiming(i) && i < |g[u]|
    requires g[u][i] !in s.phase && g[u][i] in g && Settled(g, s, u)
    ensures var t := ClaimNext(s, u, g[u][i], i); Settled(g, t, u) && Settled(g, t, g[u][i])
  {
    var d := g[u][i];
    NewcomerHasNoKids(g, root, s, d);
    hide Tree, Closed;
    var t := ClaimNext(s, u, d, i);
    assert forall z :: !IsKid(t, d, z);
    assert forall z :: z != d ==> (IsKid(t, u, z) <==> IsKid(s, u, z));
    forall k | 0 <= k < i + 1 ensures g[u][k] in t.phase {
      assert k < i ==> g[u][k] in s.phase;
    }
    assert !IsKid(s, u, u);
  }

  lemma ClaimKeepsSettled(g: Graph, root: Name, s: State, u: Name, i: nat, x: Name)
    requires Closed(g) && Tree(g, root, s) && Enabled(g, s, u) && s.phase[u] == Claiming(i) && i < |g[u]|
    requires forall y :: y in s.phase && y in g ==> Settled(g, s, y)
    requires g[u][i] !in s.phase
    requires x in ClaimNext(s, u, g[u][i], i).phase && x in g
    ensures Settled(g, ClaimNext(s, u, g[u][i], i), x)
  {
    hide Settled, Tree;
    if x == u || x == g[u][i] {
      ClaimSettlesBoth(g, root, s, u, i);
    } else {
      ClaimKeepsOthers(g, root, s, u, g[u][i], i, x);
    }
  }

  lemma SpawnKeepsSettled(g: Graph, s: State, u: Name, x: Name)
    requires Enabled(g, s, u) && s.phase[u] == Claiming(|g[u]|)
    requires forall y :: y in s.phase && y in g ==> Settled(g, s, y)
    requires x in s.phase && x in g
    ensures Settled(g, Spawn(s, u), x)
  {
    var t := Spawn(s, u);
    assert Settled(g, s, u) && Settled(g, s, x);
    assert forall y, z :: IsKid(t, y, z) <==> IsKid(s, y, z);
    if IsKid(s, x, u) {
      ParentWaits(g, s, u, x);
    }
  }

  lemma StepKeepsSettled(g: Graph, root: Name, s: State, u: Name, ok: bool, x: Name)
    requires Closed(g) && Inv(g, root, s) && Enabled(g, s, u)
    requires x in Apply(g, s, u, ok).phase && x in g
    ensures Settled(g, Apply(g, s, u, ok), x)
  {
    hide Counted, Closed, Tree;
    assert Settled(g, s, u);
    match s.phase[u]
    case Claiming(i) =>
      if i == |g[u]| {
        SpawnKeepsSettled(g, s, u, x);
      } else if g[u][i] !in s.phase {
        ClaimKeepsSettled(g, root, s, u, i, x);
      } else if x != u {
        SetKeepsOthers(g, s, u, Claiming(i + 1), x);
      }
    case Waiting =>
      if x != u {
        SetKeepsOthers(g, s, u, if SomeKidFailed(s, u) then Done(false) else Waking, x);
      } else {
        JoinSettles(g, s, u);
      }
    case Waking =>
      if x != u {
        SetKeepsOthers(g, s, u, Done(ok), x);
        SettledIgnoresWoken(g, SetPhase(s, u, Done(ok)), s.woken + [u], x);
      }
  }

  lemma SettledIgnoresWoken(g: Graph, s: State, woken: seq<Name>, x: Name)
    requires x in s.phase && x in g && Settled(g, s, x)
    ensures Settled(g, s.(woken := woken), x)
  {
    assert forall d :: IsKid(s.(woken := woken), x, d) <==> IsKid(s, x, d);
  }

  lemma JoinSettles(g: Graph, s: State, u: Name)
    requires Enabled(g, s, u) && s.phase[u] == Waiting && Settled(g, s, u)
    ensures Settled(g, SetPhase(s, u, if SomeKidFailed(s, u) then Done(false) else Waking), u)
  {
    var t := SetPhase(s, u, if SomeKidFailed(s, u) then Done(false) else Waking);
    assert forall d :: IsKid(t, u, d) <==> IsKid(s, u, d);
    assert forall d :: IsKid(s, u, d) ==> IsDone(s, d) && d != u;
  }

  lemma StepKeepsTree(g: Graph, root: Name, s: State, u: Name, ok: bool)
    requires Closed(g) && Tree(g, root, s) && Enabled(g, s, u)
    ensures Tree(g, root, Apply(g, s, u, ok))
  {
    var t := Apply(g, s, u, ok);
    if s.phase[u].Claiming? && s.phase[u].i < |g[u]| && g[u][s.phase[u].i] !in s.phase {
      ClaimKeepsTree(g, root, s, u, g[u][s.phase[u].i], s.phase[u].i);
    } else {
      assert t.phase.Keys == s.phase.Keys && t.parent == s.parent && t.rank == s.rank;
      assert |t.phase| == |t.phase.Keys| == |s.phase.Keys| == |s.phase|;
    }
  }

  lemma ClaimCounts(s: State, u: Name, d: Name, i: nat)
    requires u in s.phase && d !in s.phase
    ensures var t := ClaimNext(s, u, d, i); t.phase.Keys == s.phase.Keys + {d} && |t.phase| == |s.phase| + 1
  {
    var t := ClaimNext(s, u, d, i);
    assert t.phase.Keys == s.phase.Keys + {d};
    assert |t.phase| == |t.phase.Keys| && |s.phase| == |s.phase.Keys|;
  }

  lemma ClaimKeepsTree(g: Graph, root: Name, s: State, u: Name, d: Name, i: nat)
    requires Tree(g, root, s) && u in s.phase && d in g && d !in s.phase
    ensures Tree(g, root, ClaimNext(s, u, d, i))
  {
    ClaimCounts(s, u, d, i);
    ClaimRanks(g, root, s, u, d);
    var t := ClaimNext(s, u, d, i);
    assert t.parent == s.parent[d := u] && t.rank == s.rank[d := |s.phase|];
    hide ClaimNext;
  }

  lemma ClaimRanks(g: Graph, root: Name, s: State, u: Name, d: Name)
    requires Tree(g, root, s) && u in s.phase && d in g && d !in s.phase
    ensures
      var parent, rank := s.parent[d := u], s.rank[d := |s.phase|];
      && parent.Keys == s.parent.Keys + {d} && rank.Keys == s.rank.Keys + {d}
      && (forall y :: y in parent ==> parent[y] in rank && rank[parent[y]] < rank[y])
      && (forall y :: y in rank ==> rank[y] < |s.phase| + 1)
  {
    assert d !in s.rank && d !in s.parent && u != d;
  }

  lemma StepKeepsCounted(g: Graph, root: Name, s: State, u: Name, ok: bool)
    requires Inv(g, root, s) && Enabled(g, s, u)
    ensures Counted(Apply(g, s, u, ok))
  {
    hide Settled, Closed;
    var t := Apply(g, s, u, ok);
    DoneIsKept(g, root, s, u, ok);
    assert u !in s.woken;
    forall x | x in t.phase && t.phase[x] == Done(false) && x !in t.woken ensures SomeKidFailed(t, x) {
      if x == u {
        assert SomeKidFailed(s, u);
      } else {
        assert s.phase[x] == Done(false);
        assert SomeKidFailed(s, x);
      }
      var d :| IsKid(s, x, d) && d in s.phase && s.phase[d] == Done(false);
      assert IsKid(t, x, d) && t.phase[d] == Done(false);
    }
    WokenKidsAreUp(g, root, s, u, ok);
  }

  lemma WokenKidsAreUp(g: Graph, root: Name, s: State, u: Name, ok: bool)
    requires Inv(g, root, s) && Enabled(g, s, u)
    ensures
      var t := Apply(g, s, u, ok);
      forall x, d :: x in t.woken && IsKid(t, x, d) ==> d in t.phase && t.phase[d] == Done(true)
  {
    var t := Apply(g, s, u, ok);
    DoneIsKept(g, root, s, u, ok);
    assert Settled(g, s, u);
    forall x, d | x in t.woken && IsKid(t, x, d) ensures d in t.phase && t.phase[d] == Done(true) {
      if x in s.woken {
        assert IsDone(s, x) && x != u;
        assert IsKid(s, x, d);
      } else {
        assert x == u && s.phase[u] == Waking && IsKid(s, u, d);
      }
    }
  }

  /** A finished unit stays as it ended, nobody loses a parent, and only u can finish. */
  ghost predicate Preserves(s: State, t: State, u: Name) {
    && (forall x :: x in s.phase && s.phase[x].Done? ==> x in t.phase && t.phase[x] == s.phase[x])
    && (forall x :: x in t.phase && t.phase[x].Done? && x != u ==> x in s.phase && s.phase[x] == t.phase[x])
    && (forall x, d :: IsKid(s, x, d) ==> IsKid(t, x, d))
  }

  lemma SpawnPreserves(g: Graph, s: State, u: Name)
    requires Enabled(g, s, u) && s.phase[u].Claiming? && Settled(g, s, u)
    ensures Preserves(s, Spawn(s, u), u)
  {
    assert forall x, d :: IsKid(s, x, d) ==> IsKid(Spawn(s, u), x, d);
  }

  lemma ClaimPreserves(g: Graph, root: Name, s: State, u: Name, d: Name, i: nat)
    requires Tree(g, root, s) && Enabled(g, s, u) && d !in s.phase
    ensures Preserves(s, ClaimNext(s, u, d, i), u)
  {
    NewcomerHasNoKids(g, root, s, d);
    hide Tree;
    assert forall x, z :: IsKid(s, x, z) ==> IsKid(ClaimNext(s, u, d, i), x, z);
  }

  /** A step ends its unit by waking it, or without waking it because a unit it claimed failed. */
  lemma DoneIsKept(g: Graph, root: Name, s: State, u: Name, ok: bool)
    requires Inv(g, root, s) && Enabled(g, s, u)
    ensures
      var t := Apply(g, s, u, ok);
      && Preserves(s, t, u)
      && (u in t.phase && t.phase[u].Done? ==>
            if s.phase[u].Waking? then t.woken == s.woken + [u] && t.phase[u].ok == ok
            else t.woken == s.woken && t.phase[u] == Done(false) && SomeKidFailed(s, u))
      && (!(u in t.phase && t.phase[u].Done?) ==> t.woken == s.woken)
  {
    hide Counted, Settled, Tree;
    assert Settled(g, s, u);
    match s.phase[u]
    case Claiming(i) =>
      if i == |g[u]| {
        SpawnPreserves(g, s, u);
      } else if i < |g[u]| && g[u][i] !in s.phase {
        ClaimPreserves(g, root, s, u, g[u][i], i);
      }
    case Waiting =>
    case Waking =>
  }

  lemma StepKeepsInv(g: Graph, root: Name, s: State, u: Name, ok: bool)
    requires Closed(g) && Inv(g, root, s) && Enabled(g, s, u)
    ensures Inv(g, root, Apply(g, s, u, ok))
  {
    hide Settled, Counted, Enabled, Apply, Closed;
    StepKeepsTree(g, root, s, u, ok);
    StepKeepsCounted(g, root, s, u, ok);
    var t := Apply(g, s, u, ok);
    forall x | x in t.phase ensures Settled(g, t, x) {
      StepKeepsSettled(g, root, s, u, ok, x);
    }
  }

  lemma {:induction false} RunKeepsInv(g: Graph, root: Name, s: State, es: seq<Event>, t: State)
    requires Closed(g) && Inv(g, root, s) && Reaches(g, s, es, t)
    ensures Inv(g, root, t)
    decreases |es|
  {
    hide Inv, Enabled, Apply, Closed;
    if es != [] {
      StepKeepsInv(g, root, s, es[0].unit, es[0].ok);
      RunKeepsInv(g, root, Apply(g, s, es[0].unit, es[0].ok), es[1..], t);
    }
  }

  lemma ReachableInv(g: Graph, root: Name, s: State)
    requires Closed(g) && root in g && Reachable(g, root, s)
    ensures Inv(g, root, s)
  {
    hide Inv;
    var es :| Reaches(g, Start(root), es, s);
    StartInv(g, root);
    RunKeepsInv(g, root, Start(root), es, s);
  }

  // -------------------------------------------------------------------------
  // What the walk promises

  /** Whatever the schedule, no unit is woken twice. */
  lemma WokenAtMostOnce(g: Graph, root: Name, s: State, i: nat, j: nat)
    requires Closed(g) && root in g && Reachable(g, root, s)
    requires i < |s.woken| && j < |s.woken| && s.woken[i] == s.woken[j]
    ensures i == j
  {
    ReachableInv(g, root, s);
  }

  /** The root is about to start, or did. */
  ghost predicate RootStarts(s: State, root: Name) {
    root in s.phase && (s.phase[root] == Waking || root in s.woken)
  }

  /** Once the root gets to start, every unit claimed on the way was woken and came up. */
  lemma {:induction false} AllUnderAreUp(g: Graph, root: Name, s: State, u: Name)
    requires Inv(g, root, s) && RootStarts(s, root) && u in s.phase && u != root
    ensures s.phase[u] == Done(true)
    decreases s.rank[u]
  {
    var p := s.parent[u];
    assert Settled(g, s, p) && IsKid(s, p, u);
    if p != root {
      AllUnderAreUp(g, root, s, p);
    }
  }

  /** A chain of depends_on edges. */
  ghost predicate IsPath(g: Graph, path: seq<Name>) {
    path != [] && forall i :: 0 <= i < |path| - 1 ==> path[i] in g && path[i + 1] in g[path[i]]
  }

  /** A unit that came up, or is about to, has had every dependency claimed. */
  lemma DependenciesAreClaimed(g: Graph, root: Name, s: State, u: Name, d: Name)
    requires Inv(g, root, s) && RootStarts(s, root) && u in s.phase && d in g[u]
    ensures d in s.phase
  {
    if u != root {
      AllUnderAreUp(g, root, s, u);
    }
    assert Settled(g, s, u);
    assert s.phase[u] == Waking || s.phase[u].Done?;
  }

  lemma {:induction false} PathIsClaimed(g: Graph, root: Name, s: State, path: seq<Name>)
    requires Inv(g, root, s) && RootStarts(s, root) && IsPath(g, path) && path[0] == root
    ensures path[|path| - 1] in s.phase
    decreases |path|
  {
    if |path| > 1 {
      var init := path[..|path| - 1];
      assert IsPath(g, init);
      PathIsClaimed(g, root, s, init);
      var k := |path| - 2;
      assert path[k + 1] in g[path[k]];
      DependenciesAreClaimed(g, root, s, path[k], path[k + 1]);
    }
  }

  /** When the root is about to start, every unit it transitively depends on, through shared
      dependencies and around cycles, has been woken and came up; the root itself has not run. */
  lemma DependenciesAreUpFirst(g: Graph, root: Name, s: State, path: seq<Name>)
    requires Closed(g) && root in g && Reachable(g, root, s)
    requires root in s.phase && s.phase[root] == Waking
    requires IsPath(g, path) && path[0] == root && path[|path| - 1] != root
    ensures var u := path[|path| - 1]; u in s.phase && s.phase[u] == Done(true) && u in s.woken && root !in s.woken
  {
    ReachableInv(g, root, s);
    hide Settled, Tree;
    assert root !in s.woken;
    PathIsClaimed(g, root, s, path);
    AllUnderAreUp(g, root, s, path[|path| - 1]);
  }

  /** A unit that failed leads down to one whose own wakeUnit failed. */
  lemma {:induction false} FailureHasASource(g: Graph, root: Name, s: State, u: Name)
    requires Inv(g, root, s) && u in s.phase && s.phase[u] == Done(false)
    ensures exists x :: x in s.woken && x in s.phase && s.phase[x] == Done(false)
    decreases |s.phase| - s.rank[u]
  {
    hide Settled;
    if u !in s.woken {
      assert SomeKidFailed(s, u);
      var d :| IsKid(s, u, d) && d in s.phase && s.phase[d] == Done(false);
      FailureHasASource(g, root, s, d);
    }
  }

  /** The walk gives up on the root exactly when some unit it woke did not come up. */
  lemma GivesUpIffOneFailed(g: Graph, root: Name, s: State)
    requires Closed(g) && root in g && Reachable(g, root, s)
    requires root in s.phase && s.phase[root].Done?
    ensures root !in s.woken <==> exists x :: x in s.woken && x != root && x in s.phase && s.phase[x] == Done(false)
  {
    ReachableInv(g, root, s);
    hide Settled;
    if root !in s.woken {
      assert s.phase[root] == Done(false);
      FailureHasASource(g, root, s, root);
    } else {
      forall x | x in s.woken && x != root && x in s.phase ensures s.phase[x] == Done(true) {
        AllUnderAreUp(g, root, s, x);
      }
    }
  }

  lemma {:induction false} DoneStays(g: Graph, root: Name, s: State, es: seq<Event>, t: State, u: Name)
    requires Closed(g) && Inv(g, root, s) && Reaches(g, s, es, t) && u in s.phase && s.phase[u].Done?
    ensures u in t.phase && t.phase[u] == s.phase[u]
    decreases |es|
  {
    if es != [] {
      DoneIsKept(g, root, s, es[0].unit, es[0].ok);
      StepKeepsInv(g, root, s, es[0].unit, es[0].ok);
      hide Inv, Enabled, Apply, Closed;
      DoneStays(g, root, Apply(g, s, es[0].unit, es[0].ok), es[1..], t, u);
    }
  }

  /** What a unit's wakeUnit answered is how it ends, and what the walk reports of the root. */
  lemma EndsAsAnswered(g: Graph, root: Name, s: State, u: Name, ok: bool, es: seq<Event>, t: State)
    requires Closed(g) && root in g && Reachable(g, root, s) && u in s.phase && s.phase[u] == Waking && u in g
    requires Reaches(g, Apply(g, s, u, ok), es, t)
    ensures u in t.phase && t.phase[u] == Done(ok) && u in t.woken
  {
    ReachableInv(g, root, s);
    StepKeepsInv(g, root, s, u, ok);
    DoneStays(g, root, Apply(g, s, u, ok), es, t, u);
    RunKeepsWoken(g, Apply(g, s, u, ok), es, t, u);
  }

  lemma {:induction false} RunKeepsWoken(g: Graph, s: State, es: seq<Event>, t: State, u: Name)
    requires Reaches(g, s, es, t) && u in s.woken
    ensures u in t.woken
    decreases |es|
  {
    if es != [] {
      var m := Apply(g, s, es[0].unit, es[0].ok);
      assert u in m.woken;
      hide Apply, Enabled;
      RunKeepsWoken(g, m, es[1..], t, u);
    }
  }

  // -------------------------------------------------------------------------
  // The walk ends

  /** Steps a unit may still be part of. */
  function Weight(g: Graph, s: State, u: Name): nat
    requires u in g
  {
    if u !in s.phase then |g[u]| + 6
    else match s.phase[u]
      case Claimed => |g[u]| + 5
      case Claiming(i) => if i <= |g[u]| then |g[u]| - i + 4 else 4
      case Waiting => 3
      case Waking => 2
      case Done(_) => 0
  }

  function Work(g: Graph, s: State, names: seq<Name>): nat
    requires forall u :: u in names ==> u in g
  {
    if names == [] then 0 else Weight(g, s, names[0]) + Work(g, s, names[1..])
  }

  lemma {:induction false} WorkIsMonotone(g: Graph, s: State, t: State, names: seq<Name>)
    requires forall u :: u in names ==> u in g
    requires forall u :: u in names ==> Weight(g, t, u) <= Weight(g, s, u)
    ensures Work(g, t, names) <= Work(g, s, names)
  {
    hide Weight;
    if names != [] {
      WorkIsMonotone(g, s, t, names[1..]);
    }
  }

  lemma {:induction false} WorkDrops(g: Graph, s: State, t: State, names: seq<Name>, x: Name)
    requires forall u :: u in names ==> u in g
    requires forall u :: u in names ==> Weight(g, t, u) <= Weight(g, s, u)
    requires x in names && Weight(g, t, x) < Weight(g, s, x)
    ensures Work(g, t, names) < Work(g, s, names)
  {
    hide Weight;
    if names[0] == x {
      WorkIsMonotone(g, s, t, names[1..]);
    } else {
      WorkDrops(g, s, t, names[1..], x);
    }
  }

  /** A step takes weight from the unit that takes it and adds none anywhere. */
  lemma StepLosesWeight(g: Graph, root: Name, s: State, u: Name, ok: bool, x: Name)
    requires Closed(g) && Inv(g, root, s) && Enabled(g, s, u) && x in g
    ensures Weight(g, Apply(g, s, u, ok), x) <= Weight(g, s, x)
    ensures x == u ==> Weight(g, Apply(g, s, u, ok), x) < Weight(g, s, x)
  {
    hide Counted, Closed, Tree;
    assert Settled(g, s, u);
    if IsKid(s, u, x) && x in s.phase && s.phase[u].Claiming? {
      assert s.phase[x] == Claimed;
    }
  }

  lemma StepDoesWork(g: Graph, root: Name, s: State, u: Name, ok: bool, names: seq<Name>)
    requires Closed(g) && Inv(g, root, s) && Enabled(g, s, u) && forall x :: x in names <==> x in g
    ensures Work(g, Apply(g, s, u, ok), names) < Work(g, s, names)
  {
    hide Weight, Inv, Apply, Closed, Work;
    var t := Apply(g, s, u, ok);
    forall x | x in names ensures Weight(g, t, x) <= Weight(g, s, x) {
      StepLosesWeight(g, root, s, u, ok, x);
    }
    StepLosesWeight(g, root, s, u, ok, u);
    WorkDrops(g, s, t, names, u);
  }

  lemma {:induction false} RunDoesWork(g: Graph, root: Name, s: State, es: seq<Event>, t: State, names: seq<Name>)
    requires Closed(g) && Inv(g, root, s) && Reaches(g, s, es, t) && forall x :: x in names <==> x in g
    ensures |es| + Work(g, t, names) <= Work(g, s, names)
    decreases |es|
  {
    hide Inv, Enabled, Apply, Closed, Work;
    if es != [] {
      StepDoesWork(g, root, s, es[0].unit, es[0].ok, names);
      StepKeepsInv(g, root, s, es[0].unit, es[0].ok);
      RunDoesWork(g, root, Apply(g, s, es[0].unit, es[0].ok), es[1..], t, names);
    }
  }

  function Edges(g: Graph, u: Name): nat
    requires u in g
  {
    |g[u]|
  }

  /** The edges of the graph, and six for each of its units. */
  function Budget(g: Graph, names: seq<Name>): nat
    requires forall u :: u in names ==> u in g
  {
    if names == [] then 0 else Edges(g, names[0]) + 6 + Budget(g, names[1..])
  }

  lemma {:induction false} StartIsInBudget(g: Graph, root: Name, names: seq<Name>)
    requires forall u :: u in names ==> u in g
    ensures Work(g, Start(root), names) <= Budget(g, names)
  {
    if names != [] {
      StartIsInBudget(g, root, names[1..]);
    }
  }

  /** No schedule is longer than the size of the graph allows, cycles or not. */
  lemma WalkEnds(g: Graph, root: Name, es: seq<Event>, t: State, names: seq<Name>)
    requires Closed(g) && root in g && Reaches(g, Start(root), es, t)
    requires forall x :: x in names <==> x in g
    ensures |es| <= Budget(g, names)
  {
    hide Inv, Work, Budget;
    StartInv(g, root);
    RunDoesWork(g, root, Start(root), es, t, names);
    StartIsInBudget(g, root, names);
  }

  /** A unit with a goroutine that has not ended can run, or waits for one that can. */
  lemma {:induction false} SomeoneCanRun(g: Graph, root: Name, s: State, u: Name) returns (x: Name)
    requires Inv(g, root, s) && u in s.phase && !s.phase[u].Done? && s.phase[u] != Claimed
    ensures Enabled(g, s, x)
    decreases |s.phase| - s.rank[u]
  {
    hide Counted;
    x := u;
    if s.phase[u] == Waiting && !Enabled(g, s, u) {
      var d :| IsKid(s, u, d) && !IsDone(s, d);
      assert d in s.phase && Settled(g, s, u);
      x := SomeoneCanRun(g, root, s, d);
    }
  }

  /** Until the walk returns, some goroutine can take a step: cycles do not make it hang. */
  lemma NeverStuck(g: Graph, root: Name, s: State)
    requires Closed(g) && root in g && Reachable(g, root, s) && !IsDone(s, root)
    ensures exists x :: Enabled(g, s, x)
  {
    ReachableInv(g, root, s);
    hide Counted;
    assert Settled(g, s, root);
    var x := SomeoneCanRun(g, root, s, root);
  }

  /** When it returns, every goroutine it spawned has ended. */
  lemma {:induction false} NothingRunsOn(g: Graph, root: Name, s: State, u: Name)
    requires Closed(g) && root in g && Reachable(g, root, s) && IsDone(s, root) && u in s.phase
    ensures IsDone(s, u)
    decreases if u in s.rank then s.rank[u] else 0
  {
    ReachableInv(g, root, s);
    hide Counted, Reachable;
    if u != root {
      var p := s.parent[u];
      assert Settled(g, s, p) && IsKid(s, p, u);
      NothingRunsOn(g, root, s, p);
    }
  }

  // -------------------------------------------------------------------------
  // What it does not promise

  /** 1 needs 2 and 3, which both need 4. */
  function Diamond(): Graph {
    map[1 := [2, 3], 2 := [4], 3 := [4], 4 := []]
  }

  lemma {:induction false} Extend(g: Graph, s: State, es: seq<Event>, t: State, e: Event)
    requires Reaches(g, s, es, t) && Enabled(g, t, e.unit)
    ensures Reaches(g, s, es + [e], Apply(g, t, e.unit, e.ok))
    decreases |es|
  {
    hide Enabled, Apply;
    if es == [] {
      assert (es + [e])[1..] == [];
    } else {
      assert (es + [e])[1..] == es[1..] + [e];
      Extend(g, Apply(g, s, es[0].unit, es[0].ok), es[1..], t, e);
    }
  }

  lemma StepReachable(g: Graph, root: Name, s: State, u: Name, t: State)
    requires Reachable(g, root, s) && Enabled(g, s, u) && Apply(g, s, u, true) == t
    ensures Reachable(g, root, t)
  {
    hide Enabled, Apply, Reaches;
    var es :| Reaches(g, Start(root), es, s);
    Extend(g, Start(root), es, s, Step(u, true));
  }

  /** 1 has claimed 2 and 3. */
  lemma RootClaims() returns (s: State)
    ensures Reachable(Diamond(), 1, s) && s.woken == []
    ensures s.phase == map[1 := Claiming(2), 2 := Claimed, 3 := Claimed]
    ensures s.parent == map[2 := 1, 3 := 1]
  {
    var g := Diamond();
    var s1 := ClaimNext(Start(1), 1, 2, 0);
    assert Reachable(g, 1, Start(1)) by {
      assert Reaches(g, Start(1), [], Start(1));
    }
    hide Reachable;
    StepReachable(g, 1, Start(1), 1, s1);
    s := ClaimNext(s1, 1, 3, 1);
    StepReachable(g, 1, s1, 1, s);
  }

  /** 1 has spawned 2 and 3, and 2 has claimed 4. */
  lemma FirstClaims() returns (s: State)
    ensures Reachable(Diamond(), 1, s) && s.woken == []
    ensures s.phase == map[1 := Waiting, 2 := Claiming(1), 3 := Claiming(0), 4 := Claimed]
    ensures s.parent == map[2 := 1, 3 := 1, 4 := 2]
  {
    hide Reachable;
    var g := Diamond();
    var s2 := RootClaims();
    var s3 := Spawn(s2, 1);
    StepReachable(g, 1, s2, 1, s3);
    assert s3.phase == map[1 := Waiting, 2 := Claiming(0), 3 := Claiming(0)];
    s := ClaimNext(s3, 2, 4, 0);
    StepReachable(g, 1, s3, 2, s);
  }

  /** Below the root there is no such promise: once 2 has claimed 4, unit 3 gets to start although
      4 has not been woken. */
  lemma SharedDependencyMayLag() returns (s: State)
    ensures Reachable(Diamond(), 1, s)
    ensures 3 in s.phase && s.phase[3] == Waking && 4 in Diamond()[3] && s.woken == []
  {
    hide Reachable;
    var g := Diamond();
    var s4 := FirstClaims();
    var s5 := SetPhase(s4, 3, Claiming(1));
    StepReachable(g, 1, s4, 3, s5);
    var s6 := Spawn(s5, 3);
    StepReachable(g, 1, s5, 3, s6);
    s := SetPhase(s6, 3, Waking);
    StepReachable(g, 1, s6, 3, s);
  }
}
