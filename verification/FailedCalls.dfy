/**
 How a pause or a resume that fails leaves the hold (internal/daemon/freeze.go): a Freeze that returns
 an error has released the sandbox again, and a Thaw that does has held it again, unit by unit.
 */
module FailedCalls {
  import opened UnitLock
  import opened PauseHold

  /** Somewhere in the run the Hold of call c stores this value in x's flag. */
  ghost predicate StoredBy(s: Sandbox, acts: seq<Act>, c: Tid, x: Name, held: bool)
    decreases |acts|
  {
    acts != [] &&
    (|| (acts[0] == SweepStore(x) && s.sweep.Sweeping? && s.sweep.owner == c && c in s.calls && Wants(s.calls[c]) == held)
     || (Can(s, acts[0]) && StoredBy(Do(s, acts[0]), acts[1..], c, x, held)))
  }

  /** The call is on its way to failing: it has still to store x. */
  ghost predicate ToStore(s: Sandbox, c: Tid, x: Name, fails: Call) {
    && x in s.units && c in s.calls
    && (fails.Returned? ==> s.calls[c].Begun? || s.calls[c].Freezing? || s.calls[c].GivingUp?)
    && (fails.Thawed? ==> s.calls[c].ThawBegun? || s.calls[c].Storing? || s.calls[c].Waking? || s.calls[c].WakeFailed?)
    && (fails.Returned? || fails.Thawed?)
    && ((s.calls[c].GivingUp? || s.calls[c].WakeFailed?) && s.sweep.Sweeping? && s.sweep.owner == c ==> x in s.sweep.todo)
  }

  ghost predicate HasFailed(call: Call) {
    (call.Returned? || call.Thawed?) && !call.ok
  }

  /** A call that has returned, with a result or an error. */
  ghost predicate HasEnded(call: Call) {
    call.Returned? || call.Thawed?
  }

  /** One act on, either x was stored for the call, or it has still to be, or the call ended well. */
  lemma ActTowardsFailing(s: Sandbox, a: Act, c: Tid, x: Name, fails: Call)
    requires SweepInv(s) && Can(s, a) && ToStore(s, c, x, fails)
    requires !(a == SweepStore(x) && s.sweep.Sweeping? && s.sweep.owner == c && Wants(s.calls[c]) == fails.Thawed?
               && (s.calls[c].GivingUp? || s.calls[c].WakeFailed?))
    ensures var t := Do(s, a); c in t.calls && ((HasEnded(t.calls[c]) && t.calls[c].ok) || ToStore(t, c, x, fails))
  {
    hide Apply, Enabled, Danger, NotIn;
  }

  lemma {:induction false} EndedStays(s: Sandbox, acts: seq<Act>, t: Sandbox, c: Tid)
    requires Run(s, acts, t) && c in s.calls && HasEnded(s.calls[c]) && SweepInv(s)
    ensures c in t.calls && t.calls[c] == s.calls[c]
    decreases |acts|
  {
    if acts != [] {
      ActKeepsEnded(s, acts[0], c);
      hide Can, Do;
      EndedStays(Do(s, acts[0]), acts[1..], t, c);
    }
  }

  lemma ActKeepsEnded(s: Sandbox, a: Act, c: Tid)
    requires Can(s, a) && c in s.calls && HasEnded(s.calls[c]) && SweepInv(s)
    ensures var t := Do(s, a); c in t.calls && t.calls[c] == s.calls[c] && SweepInv(t)
  {
    hide Apply, Enabled, Danger, NotIn;
  }

  lemma ActKeepsSweep(s: Sandbox, a: Act)
    requires Can(s, a) && SweepInv(s)
    ensures SweepInv(Do(s, a))
  {
    hide Apply, Enabled, Danger, NotIn;
  }

  lemma {:induction false} FailingStores(s: Sandbox, acts: seq<Act>, t: Sandbox, c: Tid, x: Name, fails: Call)
    requires SweepInv(s) && Run(s, acts, t) && ToStore(s, c, x, fails) && c in t.calls && HasFailed(t.calls[c])
    ensures StoredBy(s, acts, c, x, fails.Thawed?)
    decreases |acts|
  {
    if acts != [] {
      var a, m := acts[0], Do(s, acts[0]);
      ActKeepsSweep(s, a);
      if !(a == SweepStore(x) && s.sweep.Sweeping? && s.sweep.owner == c && Wants(s.calls[c]) == fails.Thawed?) {
        ActTowardsFailing(s, a, c, x, fails);
        hide Can, Do, ToStore;
        if HasEnded(m.calls[c]) && m.calls[c].ok {
          EndedStays(m, acts[1..], t, c);
          assert false;
        }
        FailingStores(m, acts[1..], t, c, x, fails);
      }
    }
  }

  /** A Freeze under way that returns an error has cleared every unit's flag by then, each in its own
      step of a Hold of its own. */
  lemma FailedFreezeReleases(s: Sandbox, acts: seq<Act>, t: Sandbox, c: Tid, x: Name)
    requires SandboxInv(s) && Run(s, acts, t) && c in s.calls && s.calls[c].Freezing? && x in s.units
    requires c in t.calls && HasFailed(t.calls[c])
    ensures StoredBy(s, acts, c, x, false)
  {
    hide Run, UnitsInv, CallsInv, StoredBy;
    FailingStores(s, acts, t, c, x, Returned([], 0, false, false));
  }

  /** A Thaw under way that returns an error has set every unit's flag again. */
  lemma FailedThawHolds(s: Sandbox, acts: seq<Act>, t: Sandbox, c: Tid, x: Name)
    requires SandboxInv(s) && Run(s, acts, t) && c in s.calls && (s.calls[c].Storing? || s.calls[c].Waking?) && x in s.units
    requires c in t.calls && HasFailed(t.calls[c])
    ensures StoredBy(s, acts, c, x, true)
  {
    hide Run, UnitsInv, CallsInv, StoredBy;
    FailingStores(s, acts, t, c, x, Thawed(false));
  }
}
