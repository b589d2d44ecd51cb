/**
 The order in which `sbx sleep` stops a sandbox (sleepLayers in internal/cli/cli.go): a memoised
 depth-first search that gives each service the length of the longest chain of services depending on
 it, one layer per depth. A service met again while its own depth is being worked out - a cycle -
 counts as deep as there are units.
 */
module SleepLayers {
  import opened Counting

  type Name = int

  /** holds: running or frozen, so it has memory to give back. */
  datatype Unit = Unit(service: Name, dependsOn: seq<Name>, holds: bool)

  /** b is a service that depends on a. */
  ghost predicate Edge(us: seq<Unit>, a: Name, b: Name) {
    exists i: nat :: i < |us| && us[i].service == b && a in us[i].dependsOn
  }

  ghost predicate IsService(us: seq<Unit>, s: Name) {
    exists i: nat :: i < |us| && us[i].service == s
  }

  /** Up the graph: each name is followed by a service that depends on it, awake or asleep. */
  ghost predicate Walk(us: seq<Unit>, w: seq<Name>) {
    forall k :: 0 <= k < |w| - 1 ==> Edge(us, w[k], w[k + 1])
  }

  /** x transitively depends on y. */
  ghost predicate DependsOn(us: seq<Unit>, x: Name, y: Name) {
    exists w :: |w| >= 2 && Walk(us, w) && w[0] == y && w[|w| - 1] == x
  }

  ghost predicate Repeats(w: seq<Name>) {
    exists i: nat, j: nat :: i < j < |w| && w[i] == w[j]
  }

  ghost predicate LoopWalk(us: seq<Unit>, s: Name, w: seq<Name>) {
    |w| > 0 && w[0] == s && Walk(us, w) && Repeats(w)
  }

  /** s is on a cycle, or something on a cycle transitively depends on it. */
  ghost predicate LoopAbove(us: seq<Unit>, s: Name) {
    exists w :: LoopWalk(us, s, w)
  }

  /** s transitively depends on itself. */
  ghost predicate OnCycle(us: seq<Unit>, s: Name) {
    exists w :: Cycle(us, w) && w[0] == s
  }

  ghost predicate Cycle(us: seq<Unit>, w: seq<Name>) {
    |w| >= 2 && Walk(us, w) && w[0] == w[|w| - 1]
  }

  /** A chain of n + 1 services, each depending on the one before, starting at s. */
  ghost predicate HasWalk(us: seq<Unit>, s: Name, n: nat) {
    exists w :: |w| == n + 1 && w[0] == s && Walk(us, w)
  }

  // -------------------------------------------------------------------------
  // Walks

  lemma WalkFrom(us: seq<Unit>, s: Name, w: seq<Name>)
    requires |w| > 0 && Walk(us, w) && Edge(us, s, w[0])
    ensures Walk(us, [s] + w)
  {
    hide Edge;
    var v := [s] + w;
    forall k | 0 <= k < |v| - 1 ensures Edge(us, v[k], v[k + 1]) {
      if k > 0 {
        assert Edge(us, w[k - 1], w[k - 1 + 1]);
      }
    }
  }

  lemma LoopFurther(us: seq<Unit>, s: Name, d: Name)
    requires Edge(us, s, d) && LoopAbove(us, d)
    ensures LoopAbove(us, s)
  {
    hide Edge, Walk;
    var w :| LoopWalk(us, d, w);
    var i: nat, j: nat :| i < j < |w| && w[i] == w[j];
    WalkFrom(us, s, w);
    var v := [s] + w;
    assert v[i + 1] == v[j + 1];
    assert LoopWalk(us, s, v);
  }

  /** Where a service stands among the units. */
  ghost function IndexOf(us: seq<Unit>, s: Name): (i: nat)
    requires IsService(us, s)
    ensures i < |us| && us[i].service == s
  {
    var i: nat :| i < |us| && us[i].service == s; i
  }

  /** A walk longer than there are units comes back to where it was. */
  lemma LongWalkLoops(us: seq<Unit>, s: Name)
    requires IsService(us, s) && HasWalk(us, s, |us|)
    ensures LoopAbove(us, s)
  {
    var w :| |w| == |us| + 1 && w[0] == s && Walk(us, w);
    forall k | 0 <= k < |w| ensures IsService(us, w[k]) {
      if k > 0 {
        assert Edge(us, w[k - 1], w[k - 1 + 1]);
      }
    }
    var places := seq(|w|, k requires 0 <= k < |w| => IndexOf(us, w[k]));
    var a, b := Pigeonhole(|us|, places);
    assert w[a] == us[places[a]].service == w[b];
    assert LoopWalk(us, s, w);
  }

  /** The stack of a search, from a service on it to its top, closes into a cycle through the top. */
  lemma StackLoops(us: seq<Unit>, stack: seq<Name>, d: Name)
    requires |stack| > 0 && Walk(us, stack) && d in stack && Edge(us, stack[|stack| - 1], d)
    ensures LoopAbove(us, stack[|stack| - 1]) && OnCycle(us, stack[|stack| - 1])
  {
    hide Edge;
    var s := stack[|stack| - 1];
    var i :| 0 <= i < |stack| && stack[i] == d;
    var rest := stack[i..];
    forall k | 0 <= k < |rest| - 1 ensures Edge(us, rest[k], rest[k + 1]) {
      assert Edge(us, stack[i + k], stack[i + k + 1]);
    }
    WalkFrom(us, s, rest);
    var w := [s] + rest;
    assert w[0] == w[|w| - 1] && Cycle(us, w);
    assert LoopWalk(us, s, w);
  }

  // -------------------------------------------------------------------------
  // What the depths mean

  /** A depth below the number of units is above every depth it depends on being above; one at or
      past it is only given to what a cycle is above. */
  ghost predicate Means(us: seq<Unit>, s: Name, d: nat) {
    if d < |us| then HasWalk(us, s, d) else LoopAbove(us, s)
  }

  /** A service not on a cycle, or of a small depth, is deeper than everything that depends on it. */
  ghost predicate Deeper(us: seq<Unit>, depth: map<Name, nat>, s: Name, d: nat) {
    d < |us| || !OnCycle(us, s) ==> forall x :: Edge(us, s, x) ==> x in depth && depth[x] < d
  }

  ghost predicate Depths(us: seq<Unit>, depth: map<Name, nat>) {
    forall s :: s in depth ==> Means(us, s, depth[s]) && Deeper(us, depth, s, depth[s])
  }

  /** Around a cycle of more than one service, all with depths, somewhere a service is deeper than the
      one that depends on it. */
  ghost predicate Uneven(us: seq<Unit>, depth: map<Name, nat>) {
    forall w :: Cycle(us, w) && Mixed(w) && (forall k :: 0 <= k < |w| ==> w[k] in depth) ==> Falls(depth, w)
  }

  ghost predicate Mixed(w: seq<Name>) {
    exists k :: 0 < k < |w| && w[k] != w[0]
  }

  ghost predicate Falls(depth: map<Name, nat>, w: seq<Name>)
    requires forall k :: 0 <= k < |w| ==> w[k] in depth
  {
    exists k :: 0 <= k < |w| - 1 && depth[w[k + 1]] < depth[w[k]]
  }

  /** The service given its depth last is deeper than those depending on it that have one. */
  lemma LastIsUneven(us: seq<Unit>, depth: map<Name, nat>, s: Name, d: nat)
    requires Uneven(us, depth) && s !in depth
    requires forall x :: Edge(us, s, x) && x in depth ==> depth[x] < d
    ensures Uneven(us, depth[s := d])
  {
    hide Edge;
    var more := depth[s := d];
    forall w | Cycle(us, w) && Mixed(w) && (forall k :: 0 <= k < |w| ==> w[k] in more) ensures Falls(more, w) {
      if s in w {
        var k := LeavesBehind(w, s);
        assert Edge(us, w[k], w[k + 1]);
        var x := w[k + 1];
        assert x in depth && more[x] < more[w[k]];
      } else {
        assert forall k :: 0 <= k < |w| ==> w[k] != s;
        var k :| 0 <= k < |w| - 1 && depth[w[k + 1]] < depth[w[k]];
        assert more[w[k + 1]] < more[w[k]];
      }
    }
  }

  /** A cycle that is not s alone leaves s somewhere. */
  lemma LeavesBehind(w: seq<Name>, s: Name) returns (k: nat)
    requires |w| >= 2 && w[0] == w[|w| - 1] && Mixed(w) && s in w
    ensures k < |w| - 1 && w[k] == s && w[k + 1] != s
  {
    k := 0;
    if j: nat :| j < |w| - 1 && w[j] == s && w[j + 1] != s {
      return j;
    }
    var i: nat :| i < |w| && w[i] == s;
    StaysAt(w, s, i, |w| - 1);
    var m: nat :| 0 < m < |w| && w[m] != w[0];
    StaysAt(w, s, 0, m);
    assert false;
  }

  lemma {:induction false} StaysAt(w: seq<Name>, s: Name, i: nat, j: nat)
    requires i <= j < |w| && w[i] == s && forall k :: 0 <= k < |w| - 1 && w[k] == s ==> w[k + 1] == s
    ensures w[j] == s
    decreases j
  {
    if i < j {
      StaysAt(w, s, i, j - 1);
      assert w[j - 1 + 1] == s;
    }
  }

  /** One more link below d, from a dependent whose depth is r. */
  lemma OneDeeper(us: seq<Unit>, s: Name, x: Name, r: nat)
    requires IsService(us, s) && Edge(us, s, x) && Means(us, x, r)
    ensures Means(us, s, r + 1)
  {
    hide Edge, Walk, IsService;
    if r >= |us| {
      LoopFurther(us, s, x);
    } else {
      var w :| |w| == r + 1 && w[0] == x && Walk(us, w);
      WalkFrom(us, s, w);
      assert |[s] + w| == r + 2 && ([s] + w)[0] == s;
      assert HasWalk(us, s, r + 1);
      if r + 1 == |us| {
        LongWalkLoops(us, s);
      }
    }
  }

  /** Along a walk up from a service of small depth, depths fall. */
  lemma {:induction false} DepthFalls(us: seq<Unit>, depth: map<Name, nat>, w: seq<Name>, j: nat)
    requires Depths(us, depth) && Walk(us, w) && j < |w| && w[0] in depth && depth[w[0]] < |us|
    ensures w[j] in depth && depth[w[j]] + j <= depth[w[0]]
    decreases j
  {
    hide Edge, Means;
    if j > 0 {
      DepthFalls(us, depth, w, j - 1);
      assert Edge(us, w[j - 1], w[j - 1 + 1]);
      assert Deeper(us, depth, w[j - 1], depth[w[j - 1]]);
    }
  }

  /** So a small depth is exactly one with no cycle above it. */
  lemma SmallIffNoLoop(us: seq<Unit>, depth: map<Name, nat>, s: Name)
    requires Depths(us, depth) && s in depth
    ensures depth[s] < |us| <==> !LoopAbove(us, s)
  {
    hide Walk, HasWalk;
    assert Means(us, s, depth[s]);
    if depth[s] < |us| && LoopAbove(us, s) {
      var w :| LoopWalk(us, s, w);
      var i: nat, j: nat :| i < j < |w| && w[i] == w[j];
      DepthFalls(us, depth, w, i);
      TailWalk(us, w, i);
      DepthFalls(us, depth, w[i..], j - i);
    }
  }

  lemma TailWalk(us: seq<Unit>, w: seq<Name>, i: nat)
    requires Walk(us, w) && i <= |w|
    ensures Walk(us, w[i..])
  {
    hide Edge;
    var v := w[i..];
    forall k | 0 <= k < |v| - 1 ensures Edge(us, v[k], v[k + 1]) {
      assert Edge(us, w[i + k], w[i + k + 1]);
    }
  }

  // -------------------------------------------------------------------------
  // The search

  /** Depths once given stay. */
  ghost predicate Extends(a: map<Name, nat>, b: map<Name, nat>) {
    forall x :: x in a ==> x in b && b[x] == a[x]
  }

  predicate Listed(dependents: map<Name, seq<Name>>, a: Name, b: Name) {
    a in dependents && b in dependents[a]
  }

  /** dependents lists, for each name, the services that depend on it. */
  ghost predicate Lists(dependents: map<Name, seq<Name>>, us: seq<Unit>) {
    forall a, b :: Listed(dependents, a, b) <==> Edge(us, a, b)
  }

  lemma EdgeOfMore(us: seq<Unit>, u: Unit, a: Name, b: Name)
    ensures Edge(us + [u], a, b) <==> Edge(us, a, b) || (b == u.service && a in u.dependsOn)
  {
    var vs := us + [u];
    if Edge(us, a, b) {
      var i: nat :| i < |us| && us[i].service == b && a in us[i].dependsOn;
      assert vs[i] == us[i];
    }
    if b == u.service && a in u.dependsOn {
      assert vs[|us|] == u;
    }
    if Edge(vs, a, b) {
      var i: nat :| i < |vs| && vs[i].service == b && a in vs[i].dependsOn;
      assert i < |us| ==> vs[i] == us[i];
    }
  }

  class Layering {
    const units: seq<Unit>
    var dependents: map<Name, seq<Name>>
    var depth: map<Name, nat>
    var visiting: set<Name>

    ghost predicate Valid()
      reads this
    {
      Lists(dependents, units) && Depths(units, depth) && Uneven(units, depth) && visiting !! depth.Keys
    }

    constructor (units: seq<Unit>)
      ensures Valid() && this.units == units && depth == map[] && visiting == {}
    {
      this.units := units;
      depth, visiting, dependents := map[], {}, map[];
      new;
      for i := 0 to |units|
        invariant depth == map[] && visiting == {} && this.units == units
        invariant Lists(dependents, units[..i])
      {
        AddDependents(i);
      }
      assert units[..|units|] == units;
    }

    method AddDependents(i: nat)
      requires i < |units| && Lists(dependents, units[..i])
      modifies this`dependents
      ensures Lists(dependents, units[..i + 1])
    {
      var u := units[i];
      hide Edge;
      for j := 0 to |u.dependsOn|
        invariant forall a, b :: Listed(dependents, a, b) <==>
          Edge(units[..i], a, b) || (b == u.service && a in u.dependsOn[..j])
      {
        var d := u.dependsOn[j];
        ghost var before := dependents;
        var so := if d in dependents then dependents[d] else [];
        dependents := dependents[d := so + [u.service]];
        assert forall a, b :: Listed(dependents, a, b) <==> Listed(before, a, b) || (a == d && b == u.service);
      }
      forall a, b ensures Listed(dependents, a, b) <==> Edge(units[..i + 1], a, b) {
        EdgeOfMore(units[..i], u, a, b);
        assert units[..i + 1] == units[..i] + [u];
      }
    }

    /** Services whose depth is being worked out are on the stack, each a dependent of the one
        before; a service already there is met again only around a cycle. */
    method DepthOf(s: Name, ghost stack: seq<Name>) returns (d: nat)
      requires Valid() && IsService(units, s) && Walk(units, stack) && (forall x :: x in visiting <==> x in stack)
      requires |stack| > 0 ==> Edge(units, stack[|stack| - 1], s)
      requires forall x :: x in stack ==> IsService(units, x)
      modifies this`depth, this`visiting
      ensures Valid() && visiting == old(visiting)
      ensures Extends(old(depth), depth)
      ensures if s in visiting then d == |units| && depth == old(depth) else s in depth && d == depth[s]
      decreases |Unvisited(units, visiting)|
    {
      hide Edge, Walk, Means, Deeper, Listed, Unvisited, IsService, Uneven, OnCycle;
      if s in depth {
        return depth[s];
      }
      if s in visiting {
        return |units|;
      }
      ghost var outside := visiting;
      ghost var deeper := stack + [s];
      WalkTo(units, stack, s);
      FewerUnvisited(units, visiting, s);
      NoDepthYet(units, s);
      visiting := visiting + {s};
      d := 0;
      var list := if s in dependents then dependents[s] else [];
      ListIsDependents(dependents, units, s);
      for i := 0 to |list|
        invariant Valid() && visiting == outside + {s}
        invariant Extends(old(depth), depth)
        invariant Means(units, s, d)
        invariant forall k :: 0 <= k < i ==> SeenOrBelow(units, depth, visiting, s, list[k], d)
      {
        var x := list[i];
        assert Edge(units, s, x);
        DependentIsService(units, s, x);
        ghost var known, before := depth, d;
        var r := DepthOf(x, deeper);
        if x in visiting {
          StackLoops(units, deeper, x);
          LoopIsDeep(units, s, r + 1);
        } else {
          OneDeeper(units, s, x, r);
        }
        d := if d < r + 1 then r + 1 else d;
        forall k | 0 <= k < i + 1 ensures SeenOrBelow(units, depth, visiting, s, list[k], d) {
          if k < i {
            StillBelow(units, known, depth, visiting, s, list[k], before, d);
          }
        }
      }
      AllDeeper(units, depth, visiting, list, s, d);
      LastIsUneven(units, depth, s, d);
      MoreDepths(units, depth, s, d);
      visiting := visiting - {s};
      depth := depth[s := d];
    }
  }

  lemma WalkTo(us: seq<Unit>, stack: seq<Name>, s: Name)
    requires Walk(us, stack) && (|stack| > 0 ==> Edge(us, stack[|stack| - 1], s))
    ensures Walk(us, stack + [s])
  {
    hide Edge;
    var v := stack + [s];
    forall k | 0 <= k < |v| - 1 ensures Edge(us, v[k], v[k + 1]) {
      if k < |stack| - 1 {
        assert Edge(us, stack[k], stack[k + 1]);
      }
    }
  }

  lemma FewerUnvisited(us: seq<Unit>, visiting: set<Name>, s: Name)
    requires IsService(us, s) && s !in visiting
    ensures |Unvisited(us, visiting + {s})| < |Unvisited(us, visiting)|
  {
    assert s in Unvisited(us, visiting);
    assert Unvisited(us, visiting + {s}) == Unvisited(us, visiting) - {s};
  }

  lemma NoDepthYet(us: seq<Unit>, s: Name)
    requires IsService(us, s)
    ensures Means(us, s, 0)
  {
    assert |[s]| == 1 && [s][0] == s && Walk(us, [s]);
  }

  lemma ListIsDependents(dependents: map<Name, seq<Name>>, us: seq<Unit>, s: Name)
    requires Lists(dependents, us)
    ensures var list := if s in dependents then dependents[s] else []; forall x :: x in list <==> Edge(us, s, x)
  {
    hide Edge;
    assert forall x :: Listed(dependents, s, x) <==> Edge(us, s, x);
  }

  lemma DependentIsService(us: seq<Unit>, s: Name, x: Name)
    requires Edge(us, s, x)
    ensures IsService(us, x)
  {
  }

  lemma LoopIsDeep(us: seq<Unit>, s: Name, d: nat)
    requires LoopAbove(us, s) && d >= |us|
    ensures Means(us, s, d)
  {
  }

  /** A dependent already looked at: on the stack, which takes a cycle, or given a depth below d. */
  ghost predicate SeenOrBelow(us: seq<Unit>, depth: map<Name, nat>, visiting: set<Name>, s: Name, x: Name, d: nat) {
    if x in visiting then d > |us| && OnCycle(us, s) else x in depth && depth[x] < d
  }

  lemma StillBelow(us: seq<Unit>, known: map<Name, nat>, depth: map<Name, nat>, visiting: set<Name>, s: Name, x: Name, before: nat, d: nat)
    requires SeenOrBelow(us, known, visiting, s, x, before) && Extends(known, depth) && before <= d
    ensures SeenOrBelow(us, depth, visiting, s, x, d)
  {
  }

  lemma AllDeeper(us: seq<Unit>, depth: map<Name, nat>, visiting: set<Name>, list: seq<Name>, s: Name, d: nat)
    requires (forall x :: x in list <==> Edge(us, s, x)) && visiting !! depth.Keys
    requires forall k :: 0 <= k < |list| ==> SeenOrBelow(us, depth, visiting, s, list[k], d)
    ensures Deeper(us, depth, s, d) && forall x :: Edge(us, s, x) && x in depth ==> depth[x] < d
  {
    hide Edge, OnCycle;
    forall x | Edge(us, s, x) ensures SeenOrBelow(us, depth, visiting, s, x, d) {
      var k :| 0 <= k < |list| && list[k] == x;
    }
  }

  lemma MoreDepths(us: seq<Unit>, depth: map<Name, nat>, s: Name, d: nat)
    requires Depths(us, depth) && s !in depth && Means(us, s, d) && Deeper(us, depth, s, d)
    ensures Depths(us, depth[s := d])
  {
    hide Edge, Means, OnCycle;
    var more := depth[s := d];
    forall x | x in more ensures Means(us, x, more[x]) && Deeper(us, more, x, more[x]) {
      if x != s {
        assert Deeper(us, depth, x, depth[x]);
      }
    }
  }

  ghost function Unvisited(us: seq<Unit>, visiting: set<Name>): set<Name> {
    (set i: nat | i < |us| :: us[i].service) - visiting
  }

  // -------------------------------------------------------------------------
  // The layers

  predicate InLayer(layers: seq<seq<nat>>, l: nat, i: nat) {
    l < |layers| && i in layers[l]
  }

  predicate Distinct(s: seq<nat>) {
    forall a, b :: 0 <= a < b < |s| ==> s[a] != s[b]
  }

  /** Every unit that holds memory is in one layer, once, and nothing else is. */
  ghost predicate Partition(us: seq<Unit>, layers: seq<seq<nat>>) {
    && (forall l :: 0 <= l < |layers| ==> layers[l] != [] && Distinct(layers[l]))
    && (forall l: nat, i: nat :: InLayer(layers, l, i) ==> i < |us| && us[i].holds)
    && (forall i: nat :: i < |us| && us[i].holds ==> exists l: nat :: InLayer(layers, l, i))
    && (forall l: nat, m: nat, i: nat :: InLayer(layers, l, i) && InLayer(layers, m, i) ==> l == m)
  }

  /** x must be stopped in a layer before y's: x transitively depends on y and nothing on a cycle is
      above y; or something is above y and nothing above x; or x depends on y directly and y itself
      is on no cycle, whatever is above. */
  ghost predicate Before(us: seq<Unit>, x: nat, y: nat)
    requires x < |us| && y < |us|
  {
    var a, b := us[x].service, us[y].service;
    || (if LoopAbove(us, b) then !LoopAbove(us, a) else DependsOn(us, a, b))
    || (Edge(us, b, a) && !OnCycle(us, b))
  }

  ghost predicate ServiceIn(us: seq<Unit>, layers: seq<seq<nat>>, l: nat, s: Name) {
    exists i: nat :: i < |us| && InLayer(layers, l, i) && us[i].service == s
  }

  /** No cycle of two services or more is in one layer. */
  ghost predicate CyclesAreSpread(us: seq<Unit>, layers: seq<seq<nat>>) {
    forall l: nat, w :: AllIn(us, layers, l, w) ==> !(Cycle(us, w) && Mixed(w))
  }

  ghost predicate AllIn(us: seq<Unit>, layers: seq<seq<nat>>, l: nat, w: seq<Name>) {
    forall k :: 0 <= k < |w| ==> ServiceIn(us, layers, l, w[k])
  }

  ghost predicate Ordered(us: seq<Unit>, layers: seq<seq<nat>>) {
    forall l: nat, m: nat, x: nat, y: nat ::
      InLayer(layers, l, x) && InLayer(layers, m, y) && x < |us| && y < |us| && Before(us, x, y) ==> l < m
  }

  predicate InGroup(byDepth: map<nat, seq<nat>>, d: nat, i: nat) {
    d in byDepth && i in byDepth[d]
  }

  ghost predicate HasDepth(us: seq<Unit>, depth: map<Name, nat>, i: nat, d: nat) {
    i < |us| && us[i].service in depth && depth[us[i].service] == d
  }

  /** The units from the first n that hold memory, by depth. */
  ghost predicate Grouped(us: seq<Unit>, depth: map<Name, nat>, byDepth: map<nat, seq<nat>>, n: nat)
    requires n <= |us|
  {
    && (forall d :: d in byDepth ==> byDepth[d] != [] && Distinct(byDepth[d]))
    && (forall d: nat, i: nat :: InGroup(byDepth, d, i) ==> i < n && us[i].holds && HasDepth(us, depth, i, d))
    && (forall i: nat :: i < n && us[i].holds ==> exists d: nat :: InGroup(byDepth, d, i))
  }

  /** layers is what byDepth holds at the depths ds, in their order. */
  ghost predicate Stacked(byDepth: map<nat, seq<nat>>, ds: seq<nat>, layers: seq<seq<nat>>) {
    && |ds| == |layers|
    && (forall l :: 0 <= l < |ds| ==> ds[l] in byDepth && layers[l] == byDepth[ds[l]])
    && (forall l, m :: 0 <= l < m < |ds| ==> ds[l] < ds[m])
  }

  lemma LayersArePartition(us: seq<Unit>, depth: map<Name, nat>, byDepth: map<nat, seq<nat>>, ds: seq<nat>, layers: seq<seq<nat>>)
    requires Grouped(us, depth, byDepth, |us|) && Stacked(byDepth, ds, layers) && forall d :: d in byDepth ==> d in ds
    ensures Partition(us, layers)
  {
    hide Distinct, HasDepth;
    forall i: nat | i < |us| && us[i].holds ensures exists l: nat :: InLayer(layers, l, i) {
      var d: nat :| InGroup(byDepth, d, i);
      assert d in ds;
      var l: nat :| l < |ds| && ds[l] == d;
      assert InLayer(layers, l, i);
    }
    forall l: nat, i: nat | InLayer(layers, l, i) ensures i < |us| && us[i].holds && HasDepth(us, depth, i, ds[l]) {
      assert InGroup(byDepth, ds[l], i);
    }
    forall l: nat, m: nat, i: nat | InLayer(layers, l, i) && InLayer(layers, m, i) ensures l == m {
      OneDepth(us, depth, i, ds[l], ds[m]);
    }
  }

  lemma OneDepth(us: seq<Unit>, depth: map<Name, nat>, i: nat, d: nat, e: nat)
    requires HasDepth(us, depth, i, d) && HasDepth(us, depth, i, e)
    ensures d == e
  {
  }

  /** A service that transitively depends on another has the smaller depth. */
  lemma DependentIsHigher(us: seq<Unit>, depth: map<Name, nat>, x: Name, y: Name)
    requires Depths(us, depth) && x in depth && y in depth && !LoopAbove(us, y) && DependsOn(us, x, y)
    ensures depth[x] < depth[y]
  {
    hide Walk, LoopAbove;
    SmallIffNoLoop(us, depth, y);
    var w :| |w| >= 2 && Walk(us, w) && w[0] == y && w[|w| - 1] == x;
    DepthFalls(us, depth, w, |w| - 1);
  }

  lemma LayersAreOrdered(us: seq<Unit>, depth: map<Name, nat>, byDepth: map<nat, seq<nat>>, ds: seq<nat>, layers: seq<seq<nat>>)
    requires Depths(us, depth) && Grouped(us, depth, byDepth, |us|) && Stacked(byDepth, ds, layers)
    ensures Ordered(us, layers)
  {
    hide Depths, LoopAbove, DependsOn, Distinct, Edge, OnCycle;
    forall l: nat, m: nat, x: nat, y: nat |
      InLayer(layers, l, x) && InLayer(layers, m, y) && x < |us| && y < |us| && Before(us, x, y)
      ensures l < m
    {
      var a, b := us[x].service, us[y].service;
      assert InGroup(byDepth, ds[l], x) && InGroup(byDepth, ds[m], y);
      assert HasDepth(us, depth, x, ds[l]) && HasDepth(us, depth, y, ds[m]);
      BeforeIsHigher(us, depth, x, y);
    }
  }

  lemma BeforeIsHigher(us: seq<Unit>, depth: map<Name, nat>, x: nat, y: nat)
    requires Depths(us, depth) && x < |us| && y < |us| && us[x].service in depth && us[y].service in depth && Before(us, x, y)
    ensures depth[us[x].service] < depth[us[y].service]
  {
    hide LoopAbove, DependsOn, Edge, OnCycle, Means;
    var a, b := us[x].service, us[y].service;
    if Edge(us, b, a) && !OnCycle(us, b) {
      assert Deeper(us, depth, b, depth[b]);
    } else {
      SmallIffNoLoop(us, depth, a);
      SmallIffNoLoop(us, depth, b);
      if !LoopAbove(us, b) {
        DependentIsHigher(us, depth, a, b);
      }
    }
  }

  lemma LayersSpreadCycles(us: seq<Unit>, depth: map<Name, nat>, byDepth: map<nat, seq<nat>>, ds: seq<nat>, layers: seq<seq<nat>>)
    requires Uneven(us, depth) && Grouped(us, depth, byDepth, |us|) && Stacked(byDepth, ds, layers)
    ensures CyclesAreSpread(us, layers)
  {
    hide Mixed, Cycle, Distinct, Uneven;
    forall l: nat, w | AllIn(us, layers, l, w) ensures !(Cycle(us, w) && Mixed(w)) {
      forall k | 0 <= k < |w| ensures w[k] in depth && l < |ds| && depth[w[k]] == ds[l] {
        assert ServiceIn(us, layers, l, w[k]);
        var i: nat :| i < |us| && InLayer(layers, l, i) && us[i].service == w[k];
        assert InGroup(byDepth, ds[l], i) && HasDepth(us, depth, i, ds[l]);
      }
      if w != [] {
        assert w[0] in depth;
        LevelIsNoCycle(us, depth, w, ds[l]);
      } else {
        EmptyIsNoCycle(us, w);
      }
    }
  }

  lemma EmptyIsNoCycle(us: seq<Unit>, w: seq<Name>)
    requires w == []
    ensures !Cycle(us, w)
  {
  }

  lemma LevelIsNoCycle(us: seq<Unit>, depth: map<Name, nat>, w: seq<Name>, d: nat)
    requires Uneven(us, depth) && forall k :: 0 <= k < |w| ==> w[k] in depth && depth[w[k]] == d
    ensures !(Cycle(us, w) && Mixed(w))
  {
    hide Cycle, Mixed;
    assert !Falls(depth, w);
  }

  lemma {:induction false} Least(s: set<nat>) returns (d: nat)
    requires s != {}
    ensures d in s && forall e :: e in s ==> d <= e
    decreases |s|
  {
    d :| d in s;
    if s != {d} {
      assert (s - {d}) + {d} == s;
      var rest := Least(s - {d});
      d := if rest < d then rest else d;
    }
  }

  /** The depths in order, as layers. */
  method InOrder(byDepth: map<nat, seq<nat>>) returns (ds: seq<nat>, layers: seq<seq<nat>>)
    ensures Stacked(byDepth, ds, layers) && forall d :: d in byDepth ==> d in ds
  {
    ds, layers := [], [];
    var left := byDepth.Keys;
    while left != {}
      invariant left <= byDepth.Keys && Stacked(byDepth, ds, layers)
      invariant forall d :: d in byDepth ==> d in left || d in ds
      invariant forall d, k :: d in left && 0 <= k < |ds| ==> ds[k] < d
      decreases |left|
    {
      ghost var least := Least(left);
      var d: nat :| d in left && forall e :: e in left ==> d <= e;
      ds, layers := ds + [d], layers + [byDepth[d]];
      left := left - {d};
    }
  }

  /** sleepLayers, as the positions of the units in each layer. */
  method SleepLayers(us: seq<Unit>) returns (layers: seq<seq<nat>>)
    ensures Partition(us, layers) && Ordered(us, layers) && CyclesAreSpread(us, layers)
  {
    var search := new Layering(us);
    var byDepth: map<nat, seq<nat>> := map[];
    for i := 0 to |us|
      invariant search.Valid() && search.units == us && search.visiting == {}
      invariant Grouped(us, search.depth, byDepth, i)
    {
      if us[i].holds {
        ghost var known := search.depth;
        var d := search.DepthOf(us[i].service, []);
        var so := if d in byDepth then byDepth[d] else [];
        OneMoreGrouped(us, known, search.depth, byDepth, i);
        byDepth := byDepth[d := so + [i]];
      }
    }
    var ds;
    ds, layers := InOrder(byDepth);
    LayersArePartition(us, search.depth, byDepth, ds, layers);
    LayersAreOrdered(us, search.depth, byDepth, ds, layers);
    LayersSpreadCycles(us, search.depth, byDepth, ds, layers);
  }

  lemma OneMoreGrouped(us: seq<Unit>, known: map<Name, nat>, depth: map<Name, nat>, byDepth: map<nat, seq<nat>>, i: nat)
    requires i < |us| && us[i].holds && Grouped(us, known, byDepth, i) && Extends(known, depth) && us[i].service in depth
    ensures
      var d := depth[us[i].service];
      Grouped(us, depth, byDepth[d := (if d in byDepth then byDepth[d] else []) + [i]], i + 1)
  {
    var d := depth[us[i].service];
    var so := if d in byDepth then byDepth[d] else [];
    var more := byDepth[d := so + [i]];
    assert i !in so by {
      assert i in so ==> InGroup(byDepth, d, i);
    }
    assert d in byDepth ==> Distinct(byDepth[d]);
    assert Distinct(so + [i]);
    forall e: nat, k: nat | InGroup(more, e, k) ensures k < i + 1 && us[k].holds && HasDepth(us, depth, k, e) {
      assert InGroup(byDepth, e, k) || (e == d && k == i);
    }
    forall k: nat | k < i + 1 && us[k].holds ensures exists e: nat :: InGroup(more, e, k) {
      if k < i {
        var e: nat :| InGroup(byDepth, e, k);
        assert InGroup(more, e, k);
      } else {
        assert InGroup(more, d, k);
      }
    }
  }

  /** Without cycles, every unit is stopped before everything it transitively depends on, even through
      services that are asleep. */
  lemma AcyclicStopsTopDown(us: seq<Unit>, layers: seq<seq<nat>>, l: nat, m: nat, x: nat, y: nat)
    requires Ordered(us, layers) && forall w :: Walk(us, w) ==> !Repeats(w)
    requires InLayer(layers, l, x) && InLayer(layers, m, y) && x < |us| && y < |us|
    requires DependsOn(us, us[x].service, us[y].service)
    ensures l < m
  {
    hide Walk, Repeats, DependsOn;
  }

  /** Two services that depend on each other are such a cycle, so they do not share a layer. */
  lemma MutualPairIsSpread(us: seq<Unit>, layers: seq<seq<nat>>, x: nat, y: nat, l: nat, m: nat)
    requires CyclesAreSpread(us, layers) && x < |us| && y < |us| && us[x].service != us[y].service
    requires us[x].service in us[y].dependsOn && us[y].service in us[x].dependsOn
    requires InLayer(layers, l, x) && InLayer(layers, m, y)
    ensures l != m
  {
    var a, b := us[x].service, us[y].service;
    assert Edge(us, a, b) && Edge(us, b, a);
    var w := [a, b, a];
    assert Cycle(us, w) && w[1] != w[0];
    assert ServiceIn(us, layers, l, a) && ServiceIn(us, layers, m, b);
    assert l == m ==> AllIn(us, layers, l, w);
  }
}
