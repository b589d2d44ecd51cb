/**
 Units below the root of a wake walk (wakeAll and visited.claim of internal/daemon/proxy.go). A unit
 waits for the dependencies it claimed itself; one that another branch claimed first it does not wait
 for. Which of its dependencies it can count on is decided by the graph alone: those that every path
 from the root reaches through it.
 */
module WakeBelow {
  import opened Counting
  import opened WakeWalk

  // -------------------------------------------------------------------------
  // What a unit can count on

  /** Whoever claimed a unit depends on it. */
  ghost predicate ParentsDepend(g: Graph, s: State) {
    forall d :: d in s.parent ==> s.parent[d] in g && d in g[s.parent[d]]
  }

  lemma StepKeepsParents(g: Graph, s: State, u: Name, ok: bool)
    requires ParentsDepend(g, s) && Enabled(g, s, u)
    ensures ParentsDepend(g, Apply(g, s, u, ok))
  {
  }

  lemma {:induction false} RunKeepsParents(g: Graph, s: State, es: seq<Event>, t: State)
    requires ParentsDepend(g, s) && Reaches(g, s, es, t)
    ensures ParentsDepend(g, t)
    decreases |es|
  {
    hide ParentsDepend, Enabled, Apply;
    if es != [] {
      StepKeepsParents(g, s, es[0].unit, es[0].ok);
      RunKeepsParents(g, Apply(g, s, es[0].unit, es[0].ok), es[1..], t);
    }
  }

  lemma ReachableParents(g: Graph, root: Name, s: State)
    requires Reachable(g, root, s)
    ensures ParentsDepend(g, s)
  {
    hide Reaches;
    var es :| Reaches(g, Start(root), es, s);
    RunKeepsParents(g, Start(root), es, s);
  }

  /** A path of claims from the root. */
  ghost predicate ClaimPath(s: State, path: seq<Name>) {
    path != [] && forall k :: 0 <= k < |path| - 1 ==> IsKid(s, path[k], path[k + 1])
  }

  lemma {:induction false} ClaimedFromRoot(g: Graph, root: Name, s: State, d: Name) returns (path: seq<Name>)
    requires Tree(g, root, s) && ParentsDepend(g, s) && d in s.phase
    ensures ClaimPath(s, path) && IsPath(g, path) && path[0] == root && path[|path| - 1] == d
    decreases s.rank[d]
  {
    if d == root {
      path := [root];
    } else {
      var p := s.parent[d];
      var init := ClaimedFromRoot(g, root, s, p);
      path := init + [d];
      hide Tree;
      forall k | 0 <= k < |path| - 1 ensures IsKid(s, path[k], path[k + 1]) && path[k] in g && path[k + 1] in g[path[k]] {
        if k < |init| - 1 {
          assert IsKid(s, init[k], init[k + 1]) && init[k + 1] in g[init[k]];
        }
      }
    }
  }

  /** Under a unit that is about to start, every unit claimed on the way came up. */
  lemma {:induction false} UnderIsUp(g: Graph, root: Name, s: State, path: seq<Name>, k: nat, j: nat)
    requires Inv(g, root, s) && ClaimPath(s, path) && k < j < |path| && path[k] in s.phase && s.phase[path[k]] == Waking
    ensures path[j] in s.phase && s.phase[path[j]] == Done(true)
    decreases j
  {
    assert IsKid(s, path[j - 1], path[j - 1 + 1]);
    if j - 1 == k {
      var u, d := path[k], path[j];
      assert Settled(g, s, u) && IsKid(s, u, d);
    } else {
      UnderIsUp(g, root, s, path, k, j - 1);
      var u, d := path[j - 1], path[j];
      assert u in s.woken && IsKid(s, u, d);
    }
  }

  /** Every path from the root to d goes through u. */
  ghost predicate Guards(g: Graph, root: Name, u: Name, d: Name) {
    forall path :: IsPath(g, path) && path[0] == root && path[|path| - 1] == d ==> u in path
  }

  lemma {:induction false} GuardedIsUpFirst(g: Graph, root: Name, s: State, u: Name, d: Name)
    requires Closed(g) && root in g && Reachable(g, root, s) && u in s.phase && s.phase[u] == Waking
    requires u in g && d in g[u] && d != u && Guards(g, root, u, d)
    ensures d in s.phase && s.phase[d] == Done(true)
  {
    hide *;
    ReachableInv(g, root, s);
    ReachableParents(g, root, s);
    InvParts(g, root, s, u);
    WakingHasClaimed(g, s, u, d);
    var path := ClaimedFromRoot(g, root, s, d);
    var k := MeetsGuard(g, root, u, d, path);
    UnderIsUp(g, root, s, path, k, |path| - 1);
  }

  lemma InvParts(g: Graph, root: Name, s: State, u: Name)
    requires Inv(g, root, s) && u in s.phase
    ensures u in g && Settled(g, s, u) && Tree(g, root, s)
  {
    hide Settled;
  }

  lemma MeetsGuard(g: Graph, root: Name, u: Name, d: Name, path: seq<Name>) returns (k: nat)
    requires Guards(g, root, u, d) && IsPath(g, path) && path[0] == root && path[|path| - 1] == d && d != u
    ensures k < |path| - 1 && path[k] == u
  {
    hide IsPath;
    k :| 0 <= k < |path| && path[k] == u;
  }

  lemma WakingHasClaimed(g: Graph, s: State, u: Name, d: Name)
    requires u in s.phase && u in g && Settled(g, s, u) && s.phase[u] == Waking && d in g[u]
    ensures d in s.phase
  {
  }

  // -------------------------------------------------------------------------
  // What it cannot: first every other goroutine claims and spawns

  /** Nothing has been waited for yet, and u's own goroutine has not moved. */
  ghost predicate Early(s: State, u: Name) {
    && (forall x :: x in s.phase ==> s.phase[x] == Claimed || s.phase[x].Claiming? || s.phase[x] == Waiting)
    && (u in s.phase ==> s.phase[u] == Claimed || s.phase[u] == Claiming(0))
    && (forall x :: !IsKid(s, u, x))
  }

  lemma ClaimStaysEarly(g: Graph, s: State, u: Name, x: Name)
    requires Early(s, u) && Enabled(g, s, x) && s.phase[x].Claiming? && x != u && Settled(g, s, x)
    ensures Early(Apply(g, s, x, true), u)
  {
    var t := Apply(g, s, x, true);
    assert forall y :: y in s.parent && y in t.parent && t.parent[y] == s.parent[y] ==> t.parent[y] != u by {
      assert forall y :: y in s.parent && s.parent[y] == u ==> IsKid(s, u, y);
    }
    forall y ensures !IsKid(t, u, y) {
      assert !IsKid(s, u, y);
    }
  }

  lemma ClaimerIsClaiming(g: Graph, root: Name, s: State, x: Name) returns (p: Name)
    requires Inv(g, root, s) && x in s.phase && s.phase[x] == Claimed
    ensures p in s.phase && s.phase[p].Claiming? && IsKid(s, p, x)
  {
    hide Counted;
    assert Settled(g, s, x);
    p := s.parent[x];
    assert IsKid(s, p, x) && Settled(g, s, p);
  }

  lemma LeftAreWaiting(g: Graph, root: Name, s: State, u: Name, x: Name)
    requires Inv(g, root, s) && Early(s, u) && x in s.phase && x != u
    requires forall y :: y in s.phase && y != u ==> !s.phase[y].Claiming?
    ensures s.phase[x] == Waiting
  {
    hide Inv;
    if s.phase[x] == Claimed {
      var p := ClaimerIsClaiming(g, root, s, x);
      assert false;
    }
  }

  /** Every goroutine but u's makes its claims and spawns, and then waits. */
  lemma {:induction false} OthersSpread(g: Graph, root: Name, s: State, u: Name, names: seq<Name>) returns (t: State)
    requires Closed(g) && root in g && Reachable(g, root, s) && Early(s, u) && forall x :: x in names <==> x in g
    ensures Reachable(g, root, t) && Early(t, u) && forall x :: x in t.phase && x != u ==> t.phase[x] == Waiting
    decreases Work(g, s, names)
  {
    ReachableInv(g, root, s);
    if x :| x in s.phase && x != u && s.phase[x].Claiming? {
      assert Settled(g, s, x) && x in g && Enabled(g, s, x);
      ClaimStaysEarly(g, s, u, x);
      hide Early, Apply, Inv, Reachable, Work, Closed, Settled, Enabled;
      var m := Apply(g, s, x, true);
      StepReachable(g, root, s, x, m);
      StepDoesWork(g, root, s, x, true, names);
      t := OthersSpread(g, root, m, u, names);
    } else {
      hide Reachable, Work, Closed, Inv;
      t := s;
      forall x | x in t.phase && x != u ensures t.phase[x] == Waiting {
        LeftAreWaiting(g, root, s, u, x);
      }
    }
  }

  /** By then every unit on a path that meets u only at its end has been claimed. */
  lemma {:induction false} PathIsCovered(g: Graph, root: Name, s: State, u: Name, path: seq<Name>)
    requires Inv(g, root, s) && (forall x :: x in s.phase && x != u ==> s.phase[x] == Waiting)
    requires IsPath(g, path) && path[0] == root && forall k :: 0 <= k < |path| - 1 ==> path[k] != u
    ensures path[|path| - 1] in s.phase
    decreases |path|
  {
    hide Counted;
    if |path| > 1 {
      var init := path[..|path| - 1];
      assert IsPath(g, init);
      PathIsCovered(g, root, s, u, init);
      var k := |path| - 2;
      var x, y := path[k], path[k + 1];
      assert x != u && s.phase[x] == Waiting && Settled(g, s, x) && y in g[x];
    }
  }

  lemma {:induction false} FirstMeeting(path: seq<Name>, u: Name) returns (j: nat)
    requires u in path
    ensures j < |path| && path[j] == u && forall k :: 0 <= k < j ==> path[k] != u
    decreases |path|
  {
    if path[0] == u {
      j := 0;
    } else {
      var rest := path[1..];
      assert u in rest;
      j := FirstMeeting(rest, u);
      j := j + 1;
    }
  }

  // -------------------------------------------------------------------------
  // Then u's goroutine and those under it, alone

  /** The units in far are claimed, and none of them is under a unit that is not. */
  ghost predicate Apart(s: State, far: set<Name>) {
    far <= s.phase.Keys && forall x, y :: IsKid(s, x, y) && x !in far ==> y !in far
  }

  ghost predicate NoneFailed(s: State) {
    forall x :: x in s.phase ==> s.phase[x] != Done(false)
  }

  /** A unit outside far that has not ended can run, or waits for one outside far that can. */
  lemma {:induction false} NearCanRun(g: Graph, root: Name, s: State, far: set<Name>, u: Name) returns (x: Name)
    requires Inv(g, root, s) && Apart(s, far) && u in s.phase && u !in far && !s.phase[u].Done? && s.phase[u] != Claimed
    ensures Enabled(g, s, x) && x !in far && (s.phase[u] == Waking ==> x == u)
    ensures x == u || (x in s.phase && s.phase[x] != Claimed)
    decreases |s.phase| - s.rank[u]
  {
    hide Counted;
    x := u;
    if s.phase[u] == Waiting && !Enabled(g, s, u) {
      var d :| IsKid(s, u, d) && !IsDone(s, d);
      assert d in s.phase && Settled(g, s, u);
      x := NearCanRun(g, root, s, far, d);
    }
  }

  /** A step of a unit outside far leaves far as it is, and fails nobody if its wake succeeds. */
  lemma NearStep(g: Graph, root: Name, s: State, far: set<Name>, x: Name)
    requires Tree(g, root, s) && Apart(s, far) && NoneFailed(s) && Enabled(g, s, x) && x !in far
    ensures
      var t := Apply(g, s, x, true);
      && Apart(t, far) && NoneFailed(t)
      && (forall y :: y in far ==> y in t.phase && t.phase[y] == s.phase[y])
  {
    var t := Apply(g, s, x, true);
    assert !SomeKidFailed(s, x);
    if s.phase[x].Claiming? && s.phase[x].i < |g[x]| && g[x][s.phase[x].i] !in s.phase {
      var d := g[x][s.phase[x].i];
      assert t.parent == s.parent[d := x] && d !in far;
      forall y, z | IsKid(t, y, z) && y !in far ensures z !in far {
        assert z != d ==> IsKid(s, y, z);
      }
    } else {
      forall y, z | IsKid(t, y, z) && y !in far ensures z !in far {
        assert IsKid(s, y, z);
      }
    }
    hide Tree;
  }

  /** A unit not yet about to start moves on only by its own step, and not past being about to. */
  lemma StepMoves(g: Graph, s: State, x: Name, u: Name)
    requires Enabled(g, s, x) && NoneFailed(s) && u in s.phase && !s.phase[u].Done? && s.phase[u] != Waking && s.phase[u] != Claimed
    requires u in g && Settled(g, s, x) && x in g
    ensures var t := Apply(g, s, x, true); u in t.phase && !t.phase[u].Done? && t.phase[u] != Claimed
  {
    assert !SomeKidFailed(s, u);
    if x != u && s.phase[x].Claiming? {
      assert !IsKid(s, x, u);
    }
  }

  /** u gets to where it is about to start, with far left waiting. */
  lemma {:induction false} NearStarts(g: Graph, root: Name, s: State, far: set<Name>, u: Name, names: seq<Name>) returns (t: State)
    requires Closed(g) && root in g && Reachable(g, root, s) && Apart(s, far) && NoneFailed(s)
    requires u in s.phase && u !in far && !s.phase[u].Done? && s.phase[u] != Claimed && forall x :: x in names <==> x in g
    ensures Reachable(g, root, t) && u in t.phase && t.phase[u] == Waking
    ensures forall y :: y in far ==> y in t.phase && y in s.phase && t.phase[y] == s.phase[y]
    decreases Work(g, s, names)
  {
    if s.phase[u] == Waking {
      t := s;
    } else {
      hide Apart, NoneFailed, Apply, Inv, Reachable, Work, Closed, Settled, Enabled, Tree;
      ReachableInv(g, root, s);
      var x := NearCanRun(g, root, s, far, u);
      StepParts(g, root, s, x, u);
      NearStep(g, root, s, far, x);
      StepMoves(g, s, x, u);
      var m := Apply(g, s, x, true);
      StepReachable(g, root, s, x, m);
      StepDoesWork(g, root, s, x, true, names);
      t := NearStarts(g, root, m, far, u, names);
      FarIsClaimed(s, far);
    }
  }

  lemma FarIsClaimed(s: State, far: set<Name>)
    requires Apart(s, far)
    ensures forall y :: y in far ==> y in s.phase
  {
  }

  lemma StepParts(g: Graph, root: Name, s: State, x: Name, u: Name)
    requires Inv(g, root, s) && Enabled(g, s, x) && u in s.phase
    ensures Tree(g, root, s) && x in s.phase && x in g && u in g && Settled(g, s, x)
  {
    hide Settled;
  }

  lemma EarlyIsApart(g: Graph, root: Name, s: State, u: Name)
    requires Inv(g, root, s) && Early(s, u)
    ensures Apart(s, s.phase.Keys - {u}) && NoneFailed(s)
  {
    hide Settled, Counted;
    assert forall x, y :: IsKid(s, x, y) ==> x in s.phase && x != u;
  }

  /** With everyone else waiting, u's goroutine is there and has not begun to claim. */
  lemma AsLeft(g: Graph, root: Name, s: State, u: Name)
    requires Inv(g, root, s) && Early(s, u) && u in s.phase && u != root
    requires forall x :: x in s.phase && x != u ==> s.phase[x] == Waiting
    ensures s.phase[u] == Claiming(0)
  {
    hide Inv;
    if s.phase[u] == Claimed {
      var p := ClaimerIsClaiming(g, root, s, u);
      assert false;
    }
  }

  /** Where d can be reached without u, some schedule has u about to start while d has not been woken. */
  lemma AvoidedMayLag(g: Graph, root: Name, u: Name, d: Name, to: seq<Name>, around: seq<Name>) returns (s: State)
    requires Closed(g) && root in g && u != root && d != u
    requires IsPath(g, to) && to[0] == root && to[|to| - 1] == u
    requires IsPath(g, around) && around[0] == root && around[|around| - 1] == d && u !in around
    ensures Reachable(g, root, s) && u in s.phase && s.phase[u] == Waking && d in s.phase && s.phase[d] == Waiting
  {
    var names := Listing(g.Keys);
    var start := Start(root);
    assert Reaches(g, start, [], start);
    assert Reachable(g, root, start) && Early(start, u);
    var m := OthersSpread(g, root, start, u, names);
    ReachableInv(g, root, m);
    hide Reachable, Inv, Early, Closed;
    PathIsCovered(g, root, m, u, around);
    var j := FirstMeeting(to, u);
    var upTo := to[..j + 1];
    assert IsPath(g, upTo);
    PathIsCovered(g, root, m, u, upTo);
    AsLeft(g, root, m, u);
    EarlyIsApart(g, root, m, u);
    var far := m.phase.Keys - {u};
    s := NearStarts(g, root, m, far, u, names);
    assert d in far;
  }

  /** The exact condition: a unit below the root gets a dependency up before it starts, in every
      schedule, if and only if every depends_on path from the root to that dependency goes through
      the unit. */
  lemma BelowRootIff(g: Graph, root: Name, u: Name, d: Name, to: seq<Name>)
    requires Closed(g) && root in g && u != root && u in g && d in g[u] && d != u
    requires IsPath(g, to) && to[0] == root && to[|to| - 1] == u
    ensures
      (forall s :: Reachable(g, root, s) && u in s.phase && s.phase[u] == Waking ==> d in s.phase && s.phase[d] == Done(true))
      <==> Guards(g, root, u, d)
  {
    hide Reachable, Closed;
    if Guards(g, root, u, d) {
      forall s | Reachable(g, root, s) && u in s.phase && s.phase[u] == Waking ensures d in s.phase && s.phase[d] == Done(true) {
        GuardedIsUpFirst(g, root, s, u, d);
      }
    } else {
      var around :| IsPath(g, around) && around[0] == root && around[|around| - 1] == d && u !in around;
      var s := AvoidedMayLag(g, root, u, d, to, around);
    }
  }
}
