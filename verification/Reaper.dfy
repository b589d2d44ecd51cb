/**
 The reaper (reapAsync in internal/daemon/serve.go, sleepable in proxy.go). Each tick first collects
 what the units that are awake, or still stopping, depend on, and then starts a sleep of every unit
 that is due and not among those. Stops take time and run beside later ticks.
 */
module Reaper {
  import opened Counting

  type Name = int

  const Second: int := 1_000_000_000

  datatype Asked = Never | AskedAt(at: int)

  /** keepAwake covers the run-time pin as well; snapped says a snapshot holds the unit paused; idle
      is the unit's own window, 0 for the daemon's. Times are in nanoseconds. */
  datatype Unit = Unit(sandbox: Name, service: Name, dependsOn: seq<Name>, keepAwake: bool, snapped: bool, idle: nat,
                       served: bool, healthAsked: Asked, awake: bool, stopping: bool, lastByte: int)

  /** j's depends_on names i, in the same sandbox. */
  predicate Depends(us: seq<Unit>, j: nat, i: nat)
    requires j < |us| && i < |us|
  {
    us[j].sandbox == us[i].sandbox && us[i].service in us[j].dependsOn
  }

  predicate Up(u: Unit) {
    u.awake || u.stopping
  }

  /** Some unit that is up depends on i. */
  ghost predicate Needed(us: seq<Unit>, i: nat)
    requires i < |us|
  {
    exists j: nat :: j < |us| && Up(us[j]) && Depends(us, j, i)
  }

  function Window(u: Unit, idle: nat): nat {
    if u.idle > 0 then u.idle else idle
  }

  /** A third of the window, from one second to thirty. */
  function HealthEvery(window: nat): (every: int)
    ensures Second <= every <= 30 * Second
    ensures 3 * Second <= window <= 90 * Second ==> every == window / 3
    ensures (window < 3 * Second ==> every == Second) && (window > 90 * Second ==> every == 30 * Second)
  {
    if window / 3 < Second then Second else if window / 3 > 30 * Second then 30 * Second else window / 3
  }

  /** A unit that has never served and was asked about less than every ago. */
  predicate AskedLately(u: Unit, now: int, every: int) {
    u.healthAsked.AskedAt? && now - u.healthAsked.at < every
  }

  /** sleepable's effect on a unit: only one that has never served changes. up is whether the provider
      calls it healthy, or has no health check to ask. The first yes restarts its clock. */
  function Asking(u: Unit, now: int, every: int, up: bool): Unit {
    if u.served || AskedLately(u, now, every) then u
    else if !up then u.(healthAsked := AskedAt(now))
    else u.(healthAsked := AskedAt(now), served := true, lastByte := now)
  }

  ghost predicate Asks(u: Unit, now: int, every: int, up: bool) {
    Asking(u, now, every, up).healthAsked == AskedAt(now) && Asking(u, now, every, up) != u
  }

  /** Over calls at times that do not go back: any two asks are at least every apart, and none follows
      a yes. */
  lemma AsksAreSpaced(u: Unit, first: int, second: int, every: int, up: bool, up': bool)
    requires first < second && Asks(u, first, every, up) && Asks(Asking(u, first, every, up), second, every, up')
    ensures !up && second - first >= every
  {
  }

  /** The reaper may consider the unit at all, dependents aside. */
  predicate Eligible(u: Unit) {
    !u.keepAwake && u.awake
  }

  /** Its sleep is started: it has served, has been quiet for its window, and nothing holds it. */
  predicate Due(u: Unit, now: int, idle: nat) {
    Eligible(u) && u.served && now - u.lastByte >= Window(u, idle) && !u.snapped && !u.stopping
  }

  /** What a tick makes of one unit. */
  function Ticked(u: Unit, needed: bool, now: int, idle: nat, up: bool): Unit {
    if needed || !Eligible(u) then u
    else if Due(u, now, idle) then u.(stopping := true)
    else Asking(u, now, HealthEvery(Window(u, idle)), up)
  }

  ghost function Tick(us: seq<Unit>, now: int, idle: nat, up: seq<bool>): (r: seq<Unit>)
    requires |up| == |us|
    ensures |r| == |us|
  {
    seq(|us|, i requires 0 <= i < |us| => Ticked(us[i], Needed(us, i), now, idle, up[i]))
  }

  class Daemon {
    const idle: nat
    var units: seq<Unit>

    constructor (idle: nat, units: seq<Unit>)
      ensures this.idle == idle && this.units == units
    {
      this.idle := idle;
      this.units := units;
    }

    /** sleepable: whether the idle clock counts for the unit yet. It does not until a call after the
        one that got the first yes; that one restarts the clock, and nothing else moves it. A call
        less than every after an ask asks nothing. */
    method Sleepable(i: nat, now: int, every: int, up: bool) returns (ok: bool)
      requires i < |units|
      modifies this
      ensures units == old(units)[i := Asking(old(units)[i], now, every, up)]
      ensures var was, u := old(units)[i], units[i];
        && ok == was.served && u.served == (was.served || (!AskedLately(was, now, every) && up))
        && u.lastByte == (if u.served && !was.served then now else was.lastByte)
        && u.healthAsked == (if was.served || AskedLately(was, now, every) then was.healthAsked else AskedAt(now))
        && u == was.(served := u.served, lastByte := u.lastByte, healthAsked := u.healthAsked)
    {
      var u := units[i];
      if u.served {
        return true;
      }
      if AskedLately(u, now, every) {
        return false;
      }
      u := u.(healthAsked := AskedAt(now));
      if up {
        u := u.(served := true, lastByte := now);
      }
      units := units[i := u];
      return false;
    }

    /** The names, by sandbox, that units which are up depend on. */
    method CollectNeeded() returns (needed: set<(Name, Name)>)
      ensures forall i: nat :: i < |units| ==> ((units[i].sandbox, units[i].service) in needed <==> Needed(units, i))
    {
      needed := {};
      for k := 0 to |units|
        invariant forall s, n :: (s, n) in needed <==>
          exists j: nat :: j < k && Up(units[j]) && units[j].sandbox == s && n in units[j].dependsOn
      {
        var u := units[k];
        if !u.awake && !u.stopping {
          continue;
        }
        needed := needed + set d | d in u.dependsOn :: (u.sandbox, d);
      }
    }

    /** One tick. due lists the units whose sleeps it starts: never one that a unit of its sandbox
        which is awake or still stopping depends on. */
    method ReapAsync(now: int, up: seq<bool>) returns (due: seq<nat>)
      requires |up| == |units|
      modifies this
      ensures units == Tick(old(units), now, idle, up)
      ensures forall i: nat :: i in due <==> i < |units| && !Needed(old(units), i) && Due(old(units)[i], now, idle)
    {
      var needed := CollectNeeded();
      due := [];
      ghost var before := units;
      for k := 0 to |units|
        invariant |units| == |before|
        invariant forall i :: 0 <= i < k ==> units[i] == Ticked(before[i], Needed(before, i), now, idle, up[i])
        invariant forall i :: k <= i < |units| ==> units[i] == before[i]
        invariant forall i: nat :: i in due <==> i < k && !Needed(before, i) && Due(before[i], now, idle)
      {
        var u := units[k];
        if u.keepAwake {
          continue;
        }
        if (u.sandbox, u.service) in needed {
          continue;
        }
        var window := if u.idle > 0 then u.idle else idle;
        if !u.awake {
          continue;
        }
        var ok := Sleepable(k, now, HealthEvery(window), up[k]);
        if !ok || now - units[k].lastByte < window {
          continue;
        }
        if u.snapped || units[k].stopping {
          continue;
        }
        units := units[k := units[k].(stopping := true)];
        due := due + [k];
      }
    }
  }

  // -------------------------------------------------------------------------
  // From the top down, in every run between wakes

  /** A sleep marks its unit asleep when it goes ahead and clears the reaper's mark when it returns;
      one that gave up, or whose stop left the workload up, returns with the unit awake. */
  datatype Event =
    | Reap(now: int, up: seq<bool>)
    | GoesDown(i: nat)
    | Returns(i: nat, awake: bool)
    | Touched(i: nat, now: int)

  predicate Enabled(us: seq<Unit>, e: Event) {
    match e
    case Reap(_, up) => |up| == |us|
    case Touched(i, _) => i < |us|
    case GoesDown(i) => i < |us| && us[i].stopping
    case Returns(i, _) => i < |us| && us[i].stopping
  }

  ghost function Apply(us: seq<Unit>, idle: nat, e: Event): (r: seq<Unit>)
    requires Enabled(us, e)
    ensures |r| == |us|
  {
    match e
    case Reap(now, up) => Tick(us, now, idle, up)
    case GoesDown(i) => us[i := us[i].(awake := false)]
    case Returns(i, awake) => us[i := us[i].(awake := awake, stopping := false)]
    case Touched(i, now) => us[i := us[i].(lastByte := now)]
  }

  ghost predicate Reaches(us: seq<Unit>, idle: nat, es: seq<Event>, vs: seq<Unit>)
    decreases |es|
  {
    if es == [] then us == vs else Enabled(us, es[0]) && Reaches(Apply(us, idle, es[0]), idle, es[1..], vs)
  }

  /** No unit is on its way down while one that depends on it is up. */
  ghost predicate TopDown(us: seq<Unit>) {
    forall i: nat, j: nat :: i < |us| && j < |us| && us[i].stopping && Depends(us, j, i) ==> !Up(us[j])
  }

  /** An event changes no unit's place in the graph, and brings none up. */
  ghost predicate SameGraph(us: seq<Unit>, vs: seq<Unit>) {
    && |us| == |vs|
    && (forall i: nat, j: nat :: i < |us| && j < |us| ==> (Depends(us, i, j) <==> Depends(vs, i, j)))
    && (forall i: nat :: i < |us| && Up(vs[i]) ==> Up(us[i]))
  }

  lemma EventKeepsGraph(us: seq<Unit>, idle: nat, e: Event)
    requires Enabled(us, e)
    ensures SameGraph(us, Apply(us, idle, e))
  {
    var vs := Apply(us, idle, e);
    assert forall i: nat :: i < |us| ==>
      vs[i].sandbox == us[i].sandbox && vs[i].service == us[i].service && vs[i].dependsOn == us[i].dependsOn;
    assert forall i: nat :: i < |us| && Up(vs[i]) ==> Up(us[i]);
    hide Apply;
  }

  lemma EventKeepsTopDown(us: seq<Unit>, idle: nat, e: Event)
    requires Enabled(us, e) && TopDown(us)
    ensures TopDown(Apply(us, idle, e))
  {
    EventKeepsGraph(us, idle, e);
    var vs := Apply(us, idle, e);
    forall i: nat, j: nat | i < |us| && j < |us| && vs[i].stopping && Depends(vs, j, i) ensures !Up(vs[j]) {
      assert Depends(us, j, i);
      if !us[i].stopping {
        assert !Needed(us, i);
      }
    }
  }

  /** Nothing is on its way down under a unit that needs it, at any point of any run in which nothing
      is woken: not when a tick decides, and not while earlier stops are still going. */
  lemma {:induction false} SleepsFromTheTop(us: seq<Unit>, idle: nat, es: seq<Event>, vs: seq<Unit>)
    requires TopDown(us) && Reaches(us, idle, es, vs)
    ensures TopDown(vs)
    decreases |es|
  {
    hide TopDown, Apply;
    if es != [] {
      EventKeepsTopDown(us, idle, es[0]);
      SleepsFromTheTop(Apply(us, idle, es[0]), idle, es[1..], vs);
    }
  }

  // -------------------------------------------------------------------------
  // How long a sandbox takes to drain

  /** The unit's sleep is up to the reaper alone: no pin, no snapshot, it has served, and its window
      has passed by now. */
  predicate Ready(u: Unit, now: int, idle: nat) {
    !u.keepAwake && !u.snapped && u.served && now - u.lastByte >= Window(u, idle)
  }

  /** An event of a sandbox that drains: a tick past every window, or a stop going ahead or
      succeeding. Nothing is touched. */
  ghost predicate Drains(us: seq<Unit>, idle: nat, e: Event) {
    match e
    case Reap(now, _) => forall i :: 0 <= i < |us| ==> Ready(us[i], now, idle)
    case GoesDown(_) => true
    case Returns(_, awake) => !awake
    case Touched(_, _) => false
  }

  ghost predicate AllDrain(us: seq<Unit>, idle: nat, es: seq<Event>) {
    forall k :: 0 <= k < |es| ==> Drains(us, idle, es[k])
  }

  /** A round: a tick, and whatever happens up to a point by which every sleep under way after that
      tick has returned. Stops take as long as they take, and other ticks may come in between. */
  ghost predicate Round(us: seq<Unit>, idle: nat, es: seq<Event>, vs: seq<Unit>) {
    && es != [] && es[0].Reap? && AllDrain(us, idle, es) && Reaches(us, idle, es, vs)
    && Enabled(us, es[0])
    && forall i: nat :: i < |us| && Apply(us, idle, es[0])[i].stopping ==> Returns(i, false) in es[1..]
  }

  ghost predicate Rounds(us: seq<Unit>, idle: nat, rounds: seq<seq<Event>>, vs: seq<Unit>)
    decreases |rounds|
  {
    if rounds == [] then us == vs
    else exists m :: Round(us, idle, rounds[0], m) && Rounds(m, idle, rounds[1..], vs)
  }

  /** vs is a later state: only who is awake and stopping may differ, and nobody came up. */
  ghost predicate Later(us: seq<Unit>, vs: seq<Unit>) {
    && |us| == |vs|
    && (forall i: nat :: i < |us| ==> vs[i] == us[i].(awake := vs[i].awake, stopping := vs[i].stopping))
    && (forall i: nat :: i < |us| && Up(vs[i]) ==> Up(us[i]))
  }

  lemma EventIsLater(us: seq<Unit>, idle: nat, e: Event)
    requires Enabled(us, e) && Drains(us, idle, e)
    ensures Later(us, Apply(us, idle, e))
  {
    hide Needed;
    var vs := Apply(us, idle, e);
    if e.Reap? {
      forall i: nat | i < |us| ensures vs[i] == us[i].(awake := vs[i].awake, stopping := vs[i].stopping) && (Up(vs[i]) ==> Up(us[i])) {
        assert Ready(us[i], e.now, idle);
      }
    }
  }

  lemma LaterDrains(us: seq<Unit>, vs: seq<Unit>, idle: nat, e: Event)
    requires Later(us, vs) && Drains(us, idle, e)
    ensures Drains(vs, idle, e)
  {
    if e.Reap? {
      forall i | 0 <= i < |vs| ensures Ready(vs[i], e.now, idle) {
        assert Ready(us[i], e.now, idle);
      }
    }
  }

  lemma TailDrains(us: seq<Unit>, vs: seq<Unit>, idle: nat, es: seq<Event>)
    requires es != [] && AllDrain(us, idle, es) && Later(us, vs)
    ensures Drains(us, idle, es[0]) && AllDrain(vs, idle, es[1..])
  {
    hide Drains, Later;
    forall k | 0 <= k < |es[1..]| ensures Drains(vs, idle, es[1..][k]) {
      assert Drains(us, idle, es[k + 1]);
      LaterDrains(us, vs, idle, es[k + 1]);
    }
  }

  lemma LaterTwice(us: seq<Unit>, ms: seq<Unit>, vs: seq<Unit>)
    requires Later(us, ms) && Later(ms, vs)
    ensures Later(us, vs)
  {
  }

  lemma {:induction false} RunIsLater(us: seq<Unit>, idle: nat, es: seq<Event>, vs: seq<Unit>)
    requires AllDrain(us, idle, es) && Reaches(us, idle, es, vs)
    ensures Later(us, vs)
    decreases |es|
  {
    if es != [] {
      var ms := Apply(us, idle, es[0]);
      hide Apply, Later;
      assert Drains(us, idle, es[0]);
      EventIsLater(us, idle, es[0]);
      TailDrains(us, ms, idle, es);
      RunIsLater(ms, idle, es[1..], vs);
      LaterTwice(us, ms, vs);
    }
  }

  /** A sleep that returns in a draining run leaves its unit down for good. */
  lemma {:induction false} ReturnedIsDown(us: seq<Unit>, idle: nat, es: seq<Event>, vs: seq<Unit>, i: nat)
    requires AllDrain(us, idle, es) && Reaches(us, idle, es, vs) && i < |us| && Returns(i, false) in es
    ensures i < |vs| && !Up(vs[i])
    decreases |es|
  {
    var ms := Apply(us, idle, es[0]);
    assert Drains(us, idle, es[0]);
    EventIsLater(us, idle, es[0]);
    TailDrains(us, ms, idle, es);
    RunIsLater(ms, idle, es[1..], vs);
    if es[0] == Returns(i, false) {
      assert !Up(ms[i]);
    } else {
      hide Apply, Drains, AllDrain;
      assert Returns(i, false) in es[1..];
      ReturnedIsDown(ms, idle, es[1..], vs, i);
    }
  }

  /** A tick past the windows leaves every unit that is up either needed or on its way down. */
  lemma TickTakesTheRest(us: seq<Unit>, idle: nat, e: Event, i: nat)
    requires Enabled(us, e) && e.Reap? && Drains(us, idle, e) && i < |us| && Up(us[i])
    ensures Needed(us, i) || Apply(us, idle, e)[i].stopping
  {
    hide Needed;
    assert Ready(us[i], e.now, idle);
  }

  /** What is up after a round was needed by something up before it. */
  lemma UpAfterRound(us: seq<Unit>, idle: nat, es: seq<Event>, vs: seq<Unit>, i: nat)
    requires Round(us, idle, es, vs) && i < |us|
    ensures Later(us, vs) && (Up(vs[i]) ==> Up(us[i]) && Needed(us, i))
  {
    RunIsLater(us, idle, es, vs);
    var ms := Apply(us, idle, es[0]);
    if Up(vs[i]) {
      assert Drains(us, idle, es[0]);
      TickTakesTheRest(us, idle, es[0], i);
      if ms[i].stopping {
        EventIsLater(us, idle, es[0]);
        TailDrains(us, ms, idle, es);
        hide Apply, Needed, Drains, AllDrain;
        ReturnedIsDown(ms, idle, es[1..], vs, i);
        assert false;
      }
    }
  }

  /** Each unit of the chain is up and depends on the next. */
  ghost predicate Chain(us: seq<Unit>, chain: seq<nat>) {
    && (forall k :: 0 <= k < |chain| ==> chain[k] < |us| && Up(us[chain[k]]))
    && (forall k :: 0 <= k < |chain| - 1 ==> Depends(us, chain[k], chain[k + 1]))
  }

  ghost predicate EndsChain(us: seq<Unit>, i: nat, n: nat) {
    exists chain: seq<nat> :: |chain| == n + 1 && Chain(us, chain) && chain[n] == i
  }

  lemma LongerChain(us: seq<Unit>, vs: seq<Unit>, j: nat, chain: seq<nat>)
    requires Later(us, vs) && Chain(vs, chain) && chain != [] && j < |us| && Up(us[j]) && Depends(us, j, chain[0])
    ensures Chain(us, [j] + chain)
  {
    var longer := [j] + chain;
    forall k | 0 <= k < |longer| - 1 ensures Depends(us, longer[k], longer[k + 1]) {
      if k > 0 {
        assert Depends(vs, chain[k - 1], chain[k - 1 + 1]);
      }
    }
  }

  /** What is still up after n rounds ends a chain of n depends_on edges between units that were up
      at the start. */
  lemma {:induction false} UpEndsChain(us: seq<Unit>, idle: nat, rounds: seq<seq<Event>>, vs: seq<Unit>, i: nat)
    requires Rounds(us, idle, rounds, vs) && i < |vs| && Up(vs[i])
    ensures |us| == |vs| && EndsChain(us, i, |rounds|)
    decreases |rounds|
  {
    hide Round, Needed, Later;
    if rounds == [] {
      assert Chain(us, [i]) && [i][0] == i;
    } else {
      var m :| Round(us, idle, rounds[0], m) && Rounds(m, idle, rounds[1..], vs);
      UpEndsChain(m, idle, rounds[1..], vs, i);
      var n := |rounds| - 1;
      var chain: seq<nat> :| |chain| == n + 1 && Chain(m, chain) && chain[n] == i;
      RoundKeepsCount(us, idle, rounds[0], m);
      UpAfterRound(us, idle, rounds[0], m, chain[0]);
      var j := Needs(us, chain[0]);
      LongerChain(us, m, j, chain);
      assert ([j] + chain)[|rounds|] == i;
    }
  }

  lemma RoundKeepsCount(us: seq<Unit>, idle: nat, es: seq<Event>, vs: seq<Unit>)
    requires Round(us, idle, es, vs)
    ensures |us| == |vs|
  {
    RunIsLater(us, idle, es, vs);
  }

  lemma Needs(us: seq<Unit>, i: nat) returns (j: nat)
    requires i < |us| && Needed(us, i)
    ensures j < |us| && Up(us[j]) && Depends(us, j, i)
  {
    j :| j < |us| && Up(us[j]) && Depends(us, j, i);
  }

  ghost predicate AllAsleep(us: seq<Unit>) {
    forall i :: 0 <= i < |us| ==> !Up(us[i])
  }

  /** Where no chain of units that are up has more than n edges, n + 1 rounds past the windows put
      everything to sleep, however long each stop takes. */
  lemma DrainsInTime(us: seq<Unit>, idle: nat, rounds: seq<seq<Event>>, vs: seq<Unit>)
    requires Rounds(us, idle, rounds, vs) && forall chain: seq<nat> :: Chain(us, chain) ==> |chain| <= |rounds|
    ensures AllAsleep(vs)
  {
    hide Rounds, Chain;
    forall i | 0 <= i < |vs| ensures !Up(vs[i]) {
      if Up(vs[i]) {
        UpEndsChain(us, idle, rounds, vs, i);
        assert false;
      }
    }
  }

  // No tick takes more than a layer.

  /** Awake, with no sleep of it under way. */
  predicate Standing(u: Unit) {
    u.awake && !u.stopping
  }

  ghost predicate StandingChain(us: seq<Unit>, chain: seq<nat>) {
    && (forall k :: 0 <= k < |chain| ==> chain[k] < |us| && Standing(us[chain[k]]))
    && (forall k :: 0 <= k < |chain| - 1 ==> Depends(us, chain[k], chain[k + 1]))
  }

  function Reaps(es: seq<Event>): nat {
    if es == [] then 0 else (if es[0].Reap? then 1 else 0) + Reaps(es[1..])
  }

  /** Only a tick that finds nothing up that needs it can end a unit's standing. */
  lemma NeededStands(us: seq<Unit>, idle: nat, e: Event, i: nat)
    requires Enabled(us, e) && i < |us| && Standing(us[i]) && (e.Reap? ==> Needed(us, i))
    ensures Standing(Apply(us, idle, e)[i])
  {
    hide Needed;
  }

  lemma EventKeepsChain(us: seq<Unit>, idle: nat, e: Event, chain: seq<nat>)
    requires Enabled(us, e) && chain != [] && StandingChain(us, chain)
    ensures StandingChain(Apply(us, idle, e), if e.Reap? then chain[1..] else chain)
  {
    EventKeepsGraph(us, idle, e);
    var vs, rest := Apply(us, idle, e), if e.Reap? then chain[1..] else chain;
    var from := |chain| - |rest|;
    forall k | 0 <= k < |rest| ensures rest[k] < |vs| && Standing(vs[rest[k]]) {
      assert rest[k] == chain[from + k];
      if e.Reap? {
        assert Depends(us, chain[k], chain[k + 1]) && Up(us[chain[k]]);
      }
      NeededStands(us, idle, e, rest[k]);
    }
    hide Apply, Needed;
    forall k | 0 <= k < |rest| - 1 ensures Depends(vs, rest[k], rest[k + 1]) {
      assert Depends(us, chain[from + k], chain[from + k + 1]);
    }
  }

  /** In any run at all - ticks, stops that succeed or fail, traffic - a unit that ends a chain of n
      depends_on edges between standing units is still standing after n ticks. */
  lemma {:induction false} ChainOutlasts(us: seq<Unit>, idle: nat, es: seq<Event>, vs: seq<Unit>, chain: seq<nat>)
    requires Reaches(us, idle, es, vs) && StandingChain(us, chain) && Reaps(es) < |chain|
    ensures StandingChain(vs, chain[Reaps(es)..])
    decreases |es|
  {
    if es == [] {
      assert chain[0..] == chain;
    } else {
      hide Apply, StandingChain;
      EventKeepsChain(us, idle, es[0], chain);
      var rest := if es[0].Reap? then chain[1..] else chain;
      ChainOutlasts(Apply(us, idle, es[0]), idle, es[1..], vs, rest);
      assert rest[Reaps(es[1..])..] == chain[Reaps(es)..];
    }
  }

  /** With one tick a round, a unit is up after n rounds exactly when it ends a chain of n depends_on
      edges between the units that were awake: each tick takes one layer, from the top. */
  lemma {:induction false} AwakeIffChain(us: seq<Unit>, idle: nat, rounds: seq<seq<Event>>, vs: seq<Unit>, i: nat)
    requires Rounds(us, idle, rounds, vs) && i < |vs| && (forall k :: 0 <= k < |rounds| ==> Reaps(rounds[k]) == 1)
    requires forall j :: 0 <= j < |us| ==> !us[j].stopping
    ensures |us| == |vs| && (Up(vs[i]) <==> EndsChain(us, i, |rounds|))
  {
    hide Rounds, Depends;
    RoundsKeepCount(us, idle, rounds, vs);
    if Up(vs[i]) {
      UpEndsChain(us, idle, rounds, vs, i);
    }
    if EndsChain(us, i, |rounds|) {
      var n := |rounds|;
      var chain: seq<nat> :| |chain| == n + 1 && Chain(us, chain) && chain[n] == i;
      assert StandingChain(us, chain);
      ChainLasts(us, idle, rounds, vs, chain);
    }
  }

  lemma RoundReaches(us: seq<Unit>, idle: nat, es: seq<Event>, vs: seq<Unit>)
    requires Round(us, idle, es, vs)
    ensures Reaches(us, idle, es, vs)
  {
  }

  lemma {:induction false} ChainLasts(us: seq<Unit>, idle: nat, rounds: seq<seq<Event>>, vs: seq<Unit>, chain: seq<nat>)
    requires Rounds(us, idle, rounds, vs) && (forall k :: 0 <= k < |rounds| ==> Reaps(rounds[k]) == 1)
    requires |chain| == |rounds| + 1 && StandingChain(us, chain)
    ensures chain[|rounds|] < |vs| && Up(vs[chain[|rounds|]])
    decreases |rounds|
  {
    hide StandingChain, Reaps, Round, Up, Standing, Depends;
    if rounds == [] {
      ChainIsUp(us, chain, 0);
    } else {
      var m :| Round(us, idle, rounds[0], m) && Rounds(m, idle, rounds[1..], vs);
      assert Reaps(rounds[0]) == 1;
      RoundReaches(us, idle, rounds[0], m);
      ChainOutlasts(us, idle, rounds[0], m, chain);
      var rest, tail := rounds[1..], chain[1..];
      assert forall k :: 0 <= k < |rest| ==> rest[k] == rounds[k + 1];
      ChainLasts(m, idle, rest, vs, tail);
      assert tail[|rest|] == chain[|rounds|];
    }
  }

  lemma ChainIsUp(us: seq<Unit>, chain: seq<nat>, k: nat)
    requires StandingChain(us, chain) && k < |chain|
    ensures chain[k] < |us| && Up(us[chain[k]])
  {
  }

  lemma {:induction false} RoundsKeepCount(us: seq<Unit>, idle: nat, rounds: seq<seq<Event>>, vs: seq<Unit>)
    requires Rounds(us, idle, rounds, vs)
    ensures |us| == |vs|
    decreases |rounds|
  {
    hide Round;
    if rounds != [] {
      var m :| Round(us, idle, rounds[0], m) && Rounds(m, idle, rounds[1..], vs);
      RoundKeepsCount(us, idle, rounds[0], m);
      RoundsKeepCount(m, idle, rounds[1..], vs);
    }
  }

  // A depends_on cycle leaves its members awake.

  ghost predicate IsRing(us: seq<Unit>, ring: seq<nat>) {
    |ring| >= 2 && StandingChain(us, ring) && ring[0] == ring[|ring| - 1]
  }

  /** Standing units that depend on one another in a ring. */
  ghost predicate HasCycle(us: seq<Unit>) {
    exists ring: seq<nat> :: IsRing(us, ring)
  }

  lemma EventKeepsRing(us: seq<Unit>, idle: nat, e: Event, ring: seq<nat>)
    requires Enabled(us, e) && IsRing(us, ring)
    ensures IsRing(Apply(us, idle, e), ring)
  {
    EventKeepsGraph(us, idle, e);
    var vs := Apply(us, idle, e);
    forall k | 0 <= k < |ring| ensures ring[k] < |vs| && Standing(vs[ring[k]]) {
      var before := if k == 0 then |ring| - 2 else k - 1;
      assert Depends(us, ring[before], ring[before + 1]) && Up(us[ring[before]]);
      NeededStands(us, idle, e, ring[k]);
    }
    hide Apply, Needed;
    forall k | 0 <= k < |ring| - 1 ensures Depends(vs, ring[k], ring[k + 1]) {
      assert Depends(us, ring[k], ring[k + 1]);
    }
  }

  /** No run drains a cycle, whatever happens in it: its members stand as long as the reaper runs. */
  lemma {:induction false} NoRunDrainsACycle(us: seq<Unit>, idle: nat, es: seq<Event>, vs: seq<Unit>, ring: seq<nat>)
    requires Reaches(us, idle, es, vs) && IsRing(us, ring)
    ensures IsRing(vs, ring)
    decreases |es|
  {
    hide Apply, IsRing;
    if es != [] {
      EventKeepsRing(us, idle, es[0], ring);
      NoRunDrainsACycle(Apply(us, idle, es[0]), idle, es[1..], vs, ring);
    }
  }

  lemma LongChainHasCycle(us: seq<Unit>, chain: seq<nat>)
    requires StandingChain(us, chain) && |chain| > |us|
    ensures HasCycle(us)
  {
    var a, b := Pigeonhole(|us|, chain);
    var ring := chain[a..b + 1];
    assert forall k :: 0 <= k < |ring| ==> ring[k] == chain[a + k];
    forall k | 0 <= k < |ring| - 1 ensures Depends(us, ring[k], ring[k + 1]) {
      assert Depends(us, chain[a + k], chain[a + k + 1]);
    }
    assert IsRing(us, ring);
  }

  lemma {:induction false} RoundsKeepRing(us: seq<Unit>, idle: nat, rounds: seq<seq<Event>>, vs: seq<Unit>, ring: seq<nat>)
    requires Rounds(us, idle, rounds, vs) && IsRing(us, ring)
    ensures IsRing(vs, ring)
    decreases |rounds|
  {
    hide IsRing;
    if rounds != [] {
      var m :| Round(us, idle, rounds[0], m) && Rounds(m, idle, rounds[1..], vs);
      NoRunDrainsACycle(us, idle, rounds[0], m, ring);
      RoundsKeepRing(m, idle, rounds[1..], vs, ring);
    }
  }

  /** Given as many rounds as there are units, a sandbox drains exactly when no cycle of depends_on is
      awake. */
  lemma DrainsIffNoCycle(us: seq<Unit>, idle: nat, rounds: seq<seq<Event>>, vs: seq<Unit>)
    requires Rounds(us, idle, rounds, vs) && |rounds| >= |us| && forall j :: 0 <= j < |us| ==> !us[j].stopping
    ensures AllAsleep(vs) <==> !HasCycle(us)
  {
    hide Rounds, Depends;
    RoundsKeepCount(us, idle, rounds, vs);
    if HasCycle(us) {
      var ring: seq<nat> :| IsRing(us, ring);
      RoundsKeepRing(us, idle, rounds, vs, ring);
      assert Up(vs[ring[0]]);
    } else {
      forall i | 0 <= i < |vs| ensures !Up(vs[i]) {
        if Up(vs[i]) {
          UpEndsChain(us, idle, rounds, vs, i);
          var n := |rounds|;
          var chain: seq<nat> :| |chain| == n + 1 && Chain(us, chain) && chain[n] == i;
          LongChainHasCycle(us, chain);
          assert false;
        }
      }
    }
  }

  // -------------------------------------------------------------------------
  // Rounds there are

  /** Every sleep under way from the i-th unit on returns, its stop done. */
  lemma {:induction false} SleepsReturn(us: seq<Unit>, idle: nat, i: nat) returns (es: seq<Event>, vs: seq<Unit>)
    requires i <= |us|
    ensures Reaches(us, idle, es, vs) && AllDrain(us, idle, es) && Reaps(es) == 0
    ensures forall k: nat :: i <= k < |us| && us[k].stopping ==> Returns(k, false) in es
    decreases |us| - i
  {
    if i == |us| {
      es, vs := [], us;
    } else if !us[i].stopping {
      es, vs := SleepsReturn(us, idle, i + 1);
    } else {
      var e := Returns(i, false);
      var ms := Apply(us, idle, e);
      EventIsLater(us, idle, e);
      var more;
      more, vs := SleepsReturn(ms, idle, i + 1);
      es := [e] + more;
      assert es[1..] == more;
      assert forall k: nat :: i + 1 <= k < |us| ==> ms[k] == us[k];
      hide Apply;
      NoReapsDrain(ms, us, idle, more);
      assert AllDrain(us, idle, es) by {
        forall k | 0 <= k < |es| ensures Drains(us, idle, es[k]) {
          assert k > 0 ==> es[k] == more[k - 1];
        }
      }
    }
  }

  /** What drains without a tick drains any units. */
  lemma NoReapsDrain(us: seq<Unit>, vs: seq<Unit>, idle: nat, es: seq<Event>)
    requires AllDrain(us, idle, es) && Reaps(es) == 0
    ensures AllDrain(vs, idle, es)
  {
    forall k | 0 <= k < |es| ensures Drains(vs, idle, es[k]) {
      NotAReap(es, k);
      assert Drains(us, idle, es[k]);
    }
  }

  lemma {:induction false} NotAReap(es: seq<Event>, k: nat)
    requires Reaps(es) == 0 && k < |es|
    ensures !es[k].Reap?
    decreases |es|
  {
    if k > 0 {
      NotAReap(es[1..], k - 1);
      assert es[1..][k - 1] == es[k];
    }
  }

  ghost predicate AllReady(us: seq<Unit>, now: int, idle: nat) {
    forall i :: 0 <= i < |us| ==> Ready(us[i], now, idle)
  }

  /** From every state past the windows there is a round, of one tick and the returns of its sleeps. */
  lemma RoundExists(us: seq<Unit>, idle: nat, now: int) returns (es: seq<Event>, vs: seq<Unit>)
    requires AllReady(us, now, idle)
    ensures Round(us, idle, es, vs) && Reaps(es) == 1 && AllReady(vs, now, idle)
  {
    var up := seq(|us|, i => true);
    var tick := Reap(now, up);
    var ms := Apply(us, idle, tick);
    EventIsLater(us, idle, tick);
    var more;
    more, vs := SleepsReturn(ms, idle, 0);
    es := [tick] + more;
    assert es[1..] == more;
    hide Apply;
    NoReapsDrain(ms, us, idle, more);
    assert AllDrain(us, idle, es) by {
      forall k | 0 <= k < |es| ensures Drains(us, idle, es[k]) {
        assert k > 0 ==> es[k] == more[k - 1];
      }
    }
    assert Round(us, idle, es, vs);
    RunIsLater(us, idle, es, vs);
    StillReady(us, vs, now, idle);
  }

  lemma StillReady(us: seq<Unit>, vs: seq<Unit>, now: int, idle: nat)
    requires Later(us, vs) && AllReady(us, now, idle)
    ensures AllReady(vs, now, idle)
  {
    forall i | 0 <= i < |vs| ensures Ready(vs[i], now, idle) {
      assert Ready(us[i], now, idle);
    }
  }

  /** And so there are any number of rounds, which the results above speak of. */
  lemma {:induction false} RoundsExist(us: seq<Unit>, idle: nat, now: int, n: nat) returns (rounds: seq<seq<Event>>, vs: seq<Unit>)
    requires AllReady(us, now, idle)
    ensures Rounds(us, idle, rounds, vs) && |rounds| == n && forall k :: 0 <= k < n ==> Reaps(rounds[k]) == 1
    decreases n
  {
    hide Round, AllReady, Reaps;
    if n == 0 {
      rounds, vs := [], us;
    } else {
      var es, ms := RoundExists(us, idle, now);
      var more;
      more, vs := RoundsExist(ms, idle, now, n - 1);
      rounds := [es] + more;
      assert rounds[1..] == more;
    }
  }

  // -------------------------------------------------------------------------
  // What keeps a unit up

  /** A pinned unit is never put to sleep, whatever happens in the run. */
  lemma {:induction false} PinnedStands(us: seq<Unit>, idle: nat, es: seq<Event>, vs: seq<Unit>, i: nat)
    requires Reaches(us, idle, es, vs) && i < |us| && us[i].keepAwake && Standing(us[i])
    ensures i < |vs| && vs[i].keepAwake && Standing(vs[i])
    decreases |es|
  {
    hide Needed;
    if es != [] {
      PinnedStands(Apply(us, idle, es[0]), idle, es[1..], vs, i);
    }
  }

  /** A tick starts the sleep of exactly the units that are awake, have served, are neither pinned nor
      held by a snapshot nor needed, and have been quiet for their own window, or for the daemon's
      where they have none. */
  lemma TickStopsIff(us: seq<Unit>, now: int, idle: nat, up: seq<bool>, i: nat)
    requires |up| == |us| && i < |us| && !us[i].stopping
    ensures Tick(us, now, idle, up)[i].stopping <==>
      && us[i].awake && us[i].served && !us[i].keepAwake && !us[i].snapped && !Needed(us, i)
      && (us[i].idle > 0 ==> now - us[i].lastByte >= us[i].idle) && (us[i].idle == 0 ==> now - us[i].lastByte >= idle)
  {
    hide Needed;
  }

  /** So a unit with a window of its own is out of reach of the daemon's. */
  lemma OwnWindowWins(us: seq<Unit>, now: int, idle: nat, other: nat, up: seq<bool>, i: nat)
    requires |up| == |us| && i < |us| && us[i].idle > 0
    ensures Tick(us, now, idle, up)[i] == Tick(us, now, other, up)[i]
  {
    hide Needed;
  }
}
