/** Counting arguments about finite sets, and chains in finite graphs. */
module Counting {

  /** More places than values: two places hold the same one. */
  lemma {:induction false} Pigeonhole(n: nat, s: seq<nat>) returns (a: nat, b: nat)
    requires |s| > n && forall k :: 0 <= k < |s| ==> s[k] < n
    ensures a < b < |s| && s[a] == s[b]
    decreases n
  {
    var last := |s| - 1;
    if k: nat :| k < last && s[k] == s[last] {
      return k, last;
    }
    // Only s[last] may be n - 1, or what is is swapped for it.
    var t := seq(last, k requires 0 <= k < last => if s[k] == n - 1 then s[last] else s[k]);
    a, b := Pigeonhole(n - 1, t);
  }

  /** Some number is above every number of a set. */
  lemma {:induction false} Above(s: set<int>) returns (b: int)
    ensures forall x :: x in s ==> x < b
    decreases |s|
  {
    b := 0;
    if x :| x in s {
      b := Above(s - {x});
      b := if b <= x then x + 1 else b;
      assert forall y :: y in s ==> y == x || y in s - {x};
    }
  }

  /** A finite set can be listed. */
  lemma {:induction false} Listing(s: set<int>) returns (list: seq<int>)
    ensures forall x :: x in list <==> x in s
    decreases |s|
  {
    list := [];
    if x :| x in s {
      list := Listing(s - {x});
      list := [x] + list;
      assert forall y :: y in s <==> y == x || y in s - {x};
    }
  }

  lemma Member<T>(s: set<T>) returns (x: T)
    requires s != {}
    ensures x in s
  {
    x :| x in s;
  }
}
