/** How a tunnel comes to its end once its inputs have ended. */
module TunnelEnds {
  import opened Tunnel

  predicate NoReads(es: seq<Event>) {
    forall k :: 0 <= k < |es| ==> !es[k].Read?
  }

  /** Nothing is left to do but to read new input. */
  ghost predicate AtRest(s: State) {
    forall e: Event :: Enabled(s, e) ==> e.Read?
  }

  /** Once no new input is read, no run is longer than the work left, whichever way the loops
      interleave, and it can only come to rest with both ends closed and everything delivered. */
  lemma {:induction false} EndedInputsClose(s: State, es: seq<Event>, t: State)
    requires Reachable(s) && Reaches(s, es, t) && NoReads(es)
    ensures |es| + WorkIn(t.up) + WorkIn(t.down) <= WorkIn(s.up) + WorkIn(s.down)
    ensures AtRest(t) ==> t.client.gone && t.server.gone && t.up.written == t.up.read && t.down.written == t.down.read
    decreases |es|
  {
    hide WorkIn, Enabled, Apply, Reachable;
    if es == [] {
      if AtRest(t) {
        RestIsClosed(t);
        ClosedIsComplete(t);
      }
    } else {
      assert !es[0].Read? && NoReads(es[1..]);
      WorkRunsOut(s, es[0]);
      StepReachable(s, es[0]);
      EndedInputsClose(Apply(s, es[0]), es[1..], t);
    }
  }

  lemma RestIsClosed(s: State)
    requires Reachable(s) && AtRest(s)
    ensures s.client.gone && s.server.gone
  {
    hide Reachable, Enabled;
    if !(s.client.gone && s.server.gone) {
      NeverStuck(s);
      assert false;
    }
  }

  lemma {:induction false} Extend(s: State, es: seq<Event>, t: State, e: Event)
    requires Reaches(s, es, t) && Enabled(t, e)
    ensures Reaches(s, es + [e], Apply(t, e))
    decreases |es|
  {
    hide Enabled, Apply;
    if es == [] {
      assert (es + [e])[1..] == [];
    } else {
      assert (es + [e])[1..] == es[1..] + [e];
      Extend(Apply(s, es[0]), es[1..], t, e);
    }
  }

  lemma StepReachable(s: State, e: Event)
    requires Reachable(s) && Enabled(s, e)
    ensures Reachable(Apply(s, e))
  {
    hide Enabled, Apply, Reaches;
    var es :| Reaches(Start(), es, s);
    Extend(Start(), es, s, e);
  }
}
