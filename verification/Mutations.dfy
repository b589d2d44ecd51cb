/**
 One PATCH set over named records: delete, then replace, then add, refusing a name that two
 operations mention. The source spells it out twice, for credentials and for bindings
 (applyCredentials and applyBindings in internal/credvault/vault.go); here it is generic in the
 record and in how a raw entry is normalized to a name and a record.
 */
module Mutations {
  import opened Text
  import opened Bindings

  datatype Mutation<R> = Mutation(delete: seq<string>, replace: seq<R>, add: seq<R>)
  type Normalizer<!R, !T> = R -> Option<(string, T)>

  function Names<T>(es: seq<(string, T)>): seq<string> {
    seq(|es|, i requires 0 <= i < |es| => es[i].0)
  }

  function TrimEach(xs: seq<string>): seq<string> {
    seq(|xs|, i requires 0 <= i < |xs| => TrimSpace(xs[i]))
  }

  ghost predicate Distinct(xs: seq<string>) {
    forall i, j :: 0 <= i < j < |xs| ==> xs[i] != xs[j]
  }

  ghost function ToSet(xs: seq<string>): set<string> {
    set x | x in xs
  }

  /** m with the entries written over it, in order. */
  function Overlay<T>(m: map<string, T>, es: seq<(string, T)>): map<string, T> {
    if es == [] then m
    else
      var last := es[|es| - 1];
      Overlay(m, es[..|es| - 1])[last.0 := last.1]
  }

  /** When a set of operations is accepted: every entry normalizes, no name is blank or mentioned
      twice, deletes and replaces name records that exist and adds name ones that do not. */
  ghost predicate Legal<R, T>(m: map<string, T>, mu: Mutation<R>, norm: Normalizer<R, T>) {
    var deleted, replaced, added := TrimEach(mu.delete), NormalizeEach(mu.replace, norm), NormalizeEach(mu.add, norm);
    && replaced.Some? && added.Some?
    && "" !in deleted
    && Distinct(deleted + Names(replaced.value) + Names(added.value))
    && (forall n :: n in deleted || n in Names(replaced.value) ==> n in m)
    && (forall n :: n in Names(added.value) ==> n !in m)
  }

  ghost function Mutated<R, T>(m: map<string, T>, mu: Mutation<R>, norm: Normalizer<R, T>): Option<map<string, T>> {
    if Legal(m, mu, norm) then
      Some(Overlay(m - ToSet(TrimEach(mu.delete)),
                   NormalizeEach(mu.replace, norm).value + NormalizeEach(mu.add, norm).value))
    else None
  }

  lemma OverlayStep<T>(m: map<string, T>, es: seq<(string, T)>, e: (string, T))
    ensures Overlay(m, es + [e]) == Overlay(m, es)[e.0 := e.1]
  {
    assert (es + [e])[..|es|] == es;
  }

  /** Entries with distinct names: each is stored, and every other record is as it was. */
  lemma {:induction false} OverlayFacts<T>(m: map<string, T>, es: seq<(string, T)>)
    requires Distinct(Names(es))
    ensures Overlay(m, es).Keys == m.Keys + ToSet(Names(es))
    ensures forall i :: 0 <= i < |es| ==> es[i].0 in Overlay(m, es) && Overlay(m, es)[es[i].0] == es[i].1
    ensures forall k :: k in m && k !in Names(es) ==> k in Overlay(m, es) && Overlay(m, es)[k] == m[k]
  {
    if es != [] {
      var init, last := es[..|es| - 1], es[|es| - 1];
      assert es == init + [last];
      assert Names(es) == Names(init) + [last.0];
      assert Distinct(Names(init)) by {
        assert forall i :: 0 <= i < |init| ==> Names(init)[i] == Names(es)[i];
      }
      OverlayFacts(m, init);
      assert ToSet(Names(es)) == ToSet(Names(init)) + {last.0};
      forall i | 0 <= i < |es| ensures es[i].0 in Overlay(m, es) && Overlay(m, es)[es[i].0] == es[i].1 {
        if i < |init| {
          assert Names(es)[i] != Names(es)[|init|];
          assert init[i] == es[i];
        }
      }
    }
  }

  // -------------------------------------------------------------------------
  // The three loops

  /** Names touched so far are distinct and exactly the ones in the set. */
  ghost predicate Tracks(touched: set<string>, names: seq<string>) {
    Distinct(names) && touched == ToSet(names)
  }

  lemma TracksStep(touched: set<string>, names: seq<string>, n: string)
    requires Tracks(touched, names)
    ensures n !in touched ==> Tracks(touched + {n}, names + [n])
    ensures n in touched ==> forall rest :: !Distinct(names + [n] + rest)
  {
    if n in touched {
      var i :| 0 <= i < |names| && names[i] == n;
      forall rest ensures !Distinct(names + [n] + rest) {
        var all := names + [n] + rest;
        assert all[i] == all[|names|] == n;
      }
    }
  }

  /** A repeated name, wherever the operation stands, makes the whole set illegal. */
  lemma PrefixIsNotDistinct(all: seq<string>, k: nat)
    requires k < |all|
    requires forall rest :: !Distinct(all[..k] + [all[k]] + rest)
    ensures !Distinct(all)
  {
    assert all == all[..k] + [all[k]] + all[k + 1..];
  }

  method Delete<T>(m: map<string, T>, names: seq<string>) returns (ok: bool, r: map<string, T>, touched: set<string>)
    ensures ok <==> "" !in TrimEach(names) && Distinct(TrimEach(names)) && forall n :: n in TrimEach(names) ==> n in m
    ensures ok ==> Tracks(touched, TrimEach(names)) && r == m - touched
  {
    ghost var all := TrimEach(names);
    touched, r := {}, m;
    for i := 0 to |names|
      invariant Tracks(touched, all[..i])
      invariant "" !in all[..i] && forall n :: n in all[..i] ==> n in m
      invariant r == m - touched
    {
      var name := TrimSpace(names[i]);
      assert all[i] == name && all[..i + 1] == all[..i] + [name];
      TracksStep(touched, all[..i], name);
      if name in touched {
        PrefixIsNotDistinct(all, i);
      }
      if name == "" || name in touched || name !in r {
        assert name in all;
        return false, r, touched;
      }
      touched := touched + {name};
      r := r - {name};
    }
    assert all[..|names|] == all;
    ok := true;
  }

  /** Replace and add differ only in whether the name must be held already. */
  method Write<R, T>(m: map<string, T>, ghost before: seq<string>, seen: set<string>, raws: seq<R>,
                     norm: Normalizer<R, T>, held: bool)
    returns (ok: bool, r: map<string, T>, touched: set<string>)
    requires Tracks(seen, before)
    ensures ok <==>
              && NormalizeEach(raws, norm).Some?
              && Distinct(before + Names(NormalizeEach(raws, norm).value))
              && forall n :: n in Names(NormalizeEach(raws, norm).value) ==> (n in m) == held
    ensures ok ==>
              var es := NormalizeEach(raws, norm).value;
              r == Overlay(m, es) && Tracks(touched, before + Names(es))
  {
    hide NormalizeEach, Overlay;
    ghost var es: seq<(string, T)> := [];
    touched, r := seen, m;
    assert before + Names(es) == before;
    OverlayNone(m, es);
    for i := 0 to |raws|
      invariant |es| == i && forall k :: 0 <= k < i ==> norm(raws[k]) == Some(es[k])
      invariant Tracks(touched, before + Names(es))
      invariant forall n :: n in Names(es) ==> (n in m) == held
      invariant r == Overlay(m, es)
    {
      var got := norm(raws[i]);
      if got.None? {
        return false, r, touched;
      }
      var (name, rec) := got.value;
      NamesDistinct(before, Names(es));
      OverlayFacts(m, es);
      assert before + Names(es + [got.value]) == before + Names(es) + [name];
      TracksStep(touched, before + Names(es), name);
      if name in touched || (name in r) != held {
        Refused(m, before, es, raws, norm, held);
        return false, r, touched;
      }
      assert name !in Names(es);
      assert Names(es + [got.value]) == Names(es) + [name];
      touched := touched + {name};
      OverlayStep(m, es, got.value);
      r := r[name := rec];
      es := es + [got.value];
    }
    assert NormalizeEach(raws, norm).value == es;
    ok := true;
  }

  lemma OverlayNone<T>(m: map<string, T>, es: seq<(string, T)>)
    requires es == []
    ensures Overlay(m, es) == m
  {
  }

  /** An entry whose name was mentioned before, or is held where it must not be, or is not held
      where it must be, makes the list unacceptable whatever follows it. */
  lemma Refused<R, T>(m: map<string, T>, before: seq<string>, es: seq<(string, T)>, raws: seq<R>,
                      norm: Normalizer<R, T>, held: bool)
    requires |es| < |raws| && forall k :: 0 <= k < |es| ==> norm(raws[k]) == Some(es[k])
    requires norm(raws[|es|]).Some?
    requires
      var name := norm(raws[|es|]).value.0;
      name in before + Names(es) || (name !in Names(es) && (name in m) != held)
    ensures
      var all := NormalizeEach(raws, norm);
      all.None? || !Distinct(before + Names(all.value)) || exists n :: n in Names(all.value) && (n in m) != held
  {
    hide NormalizeEach;
    var all := NormalizeEach(raws, norm);
    if all.Some? {
      var i, names := |es|, before + Names(all.value);
      var name := norm(raws[i]).value.0;
      assert Names(all.value)[i] == name;
      assert names[|before| + i] == name;
      if name in before {
        var j :| 0 <= j < |before| && before[j] == name;
        assert names[j] == name;
      } else if name in Names(es) {
        var j :| 0 <= j < |es| && Names(es)[j] == name;
        assert all.value[j] == es[j] && names[|before| + j] == name;
      }
    }
  }

  lemma NamesDistinct(xs: seq<string>, ys: seq<string>)
    requires Distinct(xs + ys)
    ensures Distinct(xs) && Distinct(ys)
  {
    var all := xs + ys;
    assert forall i :: 0 <= i < |xs| ==> xs[i] == all[i];
    assert forall i :: 0 <= i < |ys| ==> ys[i] == all[|xs| + i];
  }

  lemma {:induction false} OverlayTwice<T>(m: map<string, T>, es: seq<(string, T)>, fs: seq<(string, T)>)
    ensures Overlay(Overlay(m, es), fs) == Overlay(m, es + fs)
  {
    if fs == [] {
      assert es + fs == es;
    } else {
      var init, last := fs[..|fs| - 1], fs[|fs| - 1];
      OverlayTwice(m, es, init);
      assert es + fs == (es + init) + [last];
      OverlayStep(m, es + init, last);
    }
  }

  lemma Apart(xs: seq<string>, ys: seq<string>)
    requires Distinct(xs + ys)
    ensures ToSet(xs) !! ToSet(ys)
  {
    var all := xs + ys;
    forall x | x in xs ensures x !in ys {
      var i :| 0 <= i < |xs| && xs[i] == x;
      assert all[i] == x && forall j :: 0 <= j < |ys| ==> ys[j] == all[|xs| + j];
    }
  }

  /** Legality as the three loops test it, each against the map the previous one left. */
  lemma LegalInStages<R, T>(m: map<string, T>, mu: Mutation<R>, norm: Normalizer<R, T>)
    ensures
      var deleted, replaced, added := TrimEach(mu.delete), NormalizeEach(mu.replace, norm), NormalizeEach(mu.add, norm);
      var kept := m - ToSet(deleted);
      Legal(m, mu, norm) <==>
      && "" !in deleted && Distinct(deleted) && (forall n :: n in deleted ==> n in m)
      && replaced.Some? && Distinct(deleted + Names(replaced.value))
      && (forall n :: n in Names(replaced.value) ==> n in kept)
      && added.Some? && Distinct(deleted + Names(replaced.value) + Names(added.value))
      && (forall n :: n in Names(added.value) ==> n !in kept)
  {
    hide NormalizeEach;
    var deleted, replaced, added := TrimEach(mu.delete), NormalizeEach(mu.replace, norm), NormalizeEach(mu.add, norm);
    if replaced.Some? && added.Some? {
      var r, a := Names(replaced.value), Names(added.value);
      if Distinct(deleted + r + a) {
        NamesDistinct(deleted + r, a);
        NamesDistinct(deleted, r);
        Apart(deleted + r, a);
        Apart(deleted, r);
        assert forall n :: n in deleted || n in r ==> n in deleted + r && n in ToSet(deleted + r);
        assert forall n :: n in r ==> n in ToSet(r);
        assert forall n :: n in a ==> n in ToSet(a);
      }
    }
  }

  /** The whole set, as the two functions of the source run it. */
  method Apply<R, T>(m: map<string, T>, mu: Mutation<R>, norm: Normalizer<R, T>) returns (r: Option<map<string, T>>)
    ensures r == Mutated(m, mu, norm)
  {
    hide NormalizeEach, Overlay, Legal, TrimEach, Names;
    LegalInStages(m, mu, norm);
    ghost var deleted := TrimEach(mu.delete);
    var ok, kept, touched := Delete(m, mu.delete);
    if !ok {
      return None;
    }
    ghost var replaced := NormalizeEach(mu.replace, norm);
    var ok', cur, touched' := Write(kept, deleted, touched, mu.replace, norm, true);
    if !ok' {
      return None;
    }
    NamesDistinct(deleted, Names(replaced.value));
    OverlayFacts(kept, replaced.value);
    assert cur.Keys == kept.Keys;
    var ok'', final, _ := Write(cur, deleted + Names(replaced.value), touched', mu.add, norm, false);
    if !ok'' {
      return None;
    }
    OverlayTwice(kept, replaced.value, NormalizeEach(mu.add, norm).value);
    return Some(final);
  }

  // -------------------------------------------------------------------------
  // What a PATCH promises

  /** On success the deleted, replaced and added names are pairwise apart, the names held are the
      old ones without the deleted ones and with the added ones, every entry is stored as it was
      normalized, and a record nobody mentioned is untouched. */
  lemma MutatedFacts<R, T>(m: map<string, T>, mu: Mutation<R>, norm: Normalizer<R, T>)
    requires Mutated(m, mu, norm).Some?
    ensures
      var deleted := TrimEach(mu.delete);
      var replaced, added := NormalizeEach(mu.replace, norm).value, NormalizeEach(mu.add, norm).value;
      var r := Mutated(m, mu, norm).value;
      && ToSet(deleted) !! ToSet(Names(replaced)) !! ToSet(Names(added))
      && r.Keys == (m.Keys - ToSet(deleted)) + ToSet(Names(added))
      && (forall i :: 0 <= i < |replaced| ==> replaced[i].0 in r && r[replaced[i].0] == replaced[i].1)
      && (forall i :: 0 <= i < |added| ==> added[i].0 in r && r[added[i].0] == added[i].1)
      && (forall k :: k in m && k !in deleted && k !in Names(replaced) ==> k in r && r[k] == m[k])
  {
    hide NormalizeEach, Overlay;
    var deleted := TrimEach(mu.delete);
    var replaced, added := NormalizeEach(mu.replace, norm).value, NormalizeEach(mu.add, norm).value;
    var all := replaced + added;
    assert Names(all) == Names(replaced) + Names(added);
    assert deleted + Names(replaced) + Names(added) == deleted + Names(all);
    Apart(deleted, Names(all));
    NamesDistinct(deleted, Names(all));
    Apart(Names(replaced), Names(added));
    OverlayFacts(m - ToSet(deleted), all);
    assert forall i :: 0 <= i < |replaced| ==> all[i] == replaced[i];
    assert forall i :: 0 <= i < |added| ==> all[|replaced| + i] == added[i];
    assert forall n :: n in Names(added) ==> n !in m;
  }

  /** A property of the records held, and of every record the normalizer makes, is kept. */
  lemma MutatedKeeps<R(!new), T>(m: map<string, T>, mu: Mutation<R>, norm: Normalizer<R, T>, P: (string, T) -> bool)
    requires Mutated(m, mu, norm).Some?
    requires forall k :: k in m ==> P(k, m[k])
    requires forall x :: norm(x).Some? ==> P(norm(x).value.0, norm(x).value.1)
    ensures var r := Mutated(m, mu, norm).value; forall k :: k in r ==> P(k, r[k])
  {
    hide NormalizeEach, Overlay, Distinct, TrimEach;
    MutatedFacts(m, mu, norm);
    var r := Mutated(m, mu, norm).value;
    forall k | k in r ensures P(k, r[k]) {
      var replaced, added := NormalizeEach(mu.replace, norm).value, NormalizeEach(mu.add, norm).value;
      if k in Names(added) {
        var i :| 0 <= i < |added| && Names(added)[i] == k;
        assert norm(mu.add[i]) == Some(added[i]);
      } else if k in Names(replaced) {
        var i :| 0 <= i < |replaced| && Names(replaced)[i] == k;
        assert norm(mu.replace[i]) == Some(replaced[i]);
      } else {
        assert k in m && k !in TrimEach(mu.delete);
      }
    }
  }

  /** Two lists that are the same up to order. */
  ghost predicate SameUpToOrder<T>(xs: seq<T>, ys: seq<T>) {
    multiset(xs) == multiset(ys)
  }

  /** Distinctness in terms of how often each name occurs. */
  lemma DistinctByCount(xs: seq<string>)
    ensures Distinct(xs) <==> forall x :: multiset(xs)[x] <= 1
  {
    if !Distinct(xs) {
      var i, j :| 0 <= i < j < |xs| && xs[i] == xs[j];
      assert xs == xs[..i] + [xs[i]] + xs[i + 1..j] + [xs[j]] + xs[j + 1..];
      assert multiset(xs)[xs[i]] >= 2;
    } else {
      DistinctCountsOnce(xs);
    }
  }

  lemma {:induction false} DistinctCountsOnce(xs: seq<string>)
    requires Distinct(xs)
    ensures forall x :: multiset(xs)[x] <= 1
  {
    if xs != [] {
      var init, last := xs[..|xs| - 1], xs[|xs| - 1];
      assert xs == init + [last];
      DistinctCountsOnce(init);
      assert last !in init;
      assert last !in multiset(init);
    }
  }

  function Without<T>(xs: seq<T>, i: nat): seq<T>
    requires i < |xs|
  {
    xs[..i] + xs[i + 1..]
  }

  lemma WithoutCount<T>(xs: seq<T>, i: nat)
    requires i < |xs|
    ensures multiset(xs) == multiset(Without(xs, i)) + multiset{xs[i]}
  {
    assert xs == xs[..i] + [xs[i]] + xs[i + 1..];
  }

  /** Images of equal lists up to order are equal up to order. */
  lemma {:induction false} ImagesUpToOrder<A, B>(xs: seq<A>, us: seq<B>, ys: seq<A>, vs: seq<B>)
    requires |us| == |xs| && |vs| == |ys| && SameUpToOrder(xs, ys)
    requires forall i, j :: 0 <= i < |xs| && 0 <= j < |ys| && xs[i] == ys[j] ==> us[i] == vs[j]
    ensures SameUpToOrder(us, vs)
    decreases |xs|
  {
    if xs == [] {
      assert |multiset(ys)| == 0;
    } else {
      assert xs[0] in multiset(ys);
      var j :| 0 <= j < |ys| && ys[j] == xs[0];
      WithoutCount(xs, 0);
      WithoutCount(us, 0);
      WithoutCount(ys, j);
      WithoutCount(vs, j);
      assert multiset(Without(xs, 0)) == multiset(xs) - multiset{xs[0]} == multiset(Without(ys, j));
      ImagesUpToOrder(Without(xs, 0), Without(us, 0), Without(ys, j), Without(vs, j));
    }
  }

  lemma NormalizedUpToOrder<R, T>(xs: seq<R>, ys: seq<R>, norm: Normalizer<R, T>)
    requires SameUpToOrder(xs, ys)
    ensures NormalizeEach(xs, norm).Some? <==> NormalizeEach(ys, norm).Some?
    ensures NormalizeEach(xs, norm).Some? ==>
              var es, fs := NormalizeEach(xs, norm).value, NormalizeEach(ys, norm).value;
              SameUpToOrder(es, fs) && SameUpToOrder(Names(es), Names(fs))
  {
    hide NormalizeEach;
    assert forall x :: x in xs <==> x in multiset(xs);
    assert forall y :: y in ys <==> y in multiset(ys);
    assert forall i :: 0 <= i < |xs| ==> xs[i] in ys;
    assert forall i :: 0 <= i < |ys| ==> ys[i] in xs;
    if NormalizeEach(xs, norm).Some? && NormalizeEach(ys, norm).Some? {
      var es, fs := NormalizeEach(xs, norm).value, NormalizeEach(ys, norm).value;
      ImagesUpToOrder(xs, es, ys, fs);
      ImagesUpToOrder(es, Names(es), fs, Names(fs));
    }
  }

  lemma OverlayUpToOrder<T>(m: map<string, T>, es: seq<(string, T)>, fs: seq<(string, T)>)
    requires SameUpToOrder(es, fs) && Distinct(Names(es)) && Distinct(Names(fs))
    ensures Overlay(m, es) == Overlay(m, fs)
  {
    hide Overlay;
    OverlayFacts(m, es);
    OverlayFacts(m, fs);
    SameMembers(es, fs);
    ImagesUpToOrder(es, Names(es), fs, Names(fs));
    SameMembers(Names(es), Names(fs));
    assert ToSet(Names(es)) == ToSet(Names(fs));
    forall k | k in Overlay(m, es) ensures Overlay(m, es)[k] == Overlay(m, fs)[k] {
      if k in Names(es) {
        var i :| 0 <= i < |es| && Names(es)[i] == k;
        assert es[i] in fs;
        var j :| 0 <= j < |fs| && fs[j] == es[i];
      }
    }
  }

  lemma SameMembers<T>(xs: seq<T>, ys: seq<T>)
    requires SameUpToOrder(xs, ys)
    ensures forall x :: x in xs <==> x in ys
  {
    assert forall x :: x in xs <==> x in multiset(xs);
    assert forall x :: x in ys <==> x in multiset(ys);
  }

  lemma LegalUpToOrder<R, T>(m: map<string, T>, mu: Mutation<R>, nu: Mutation<R>, norm: Normalizer<R, T>)
    requires SameUpToOrder(mu.delete, nu.delete) && SameUpToOrder(mu.replace, nu.replace) && SameUpToOrder(mu.add, nu.add)
    requires Legal(m, mu, norm)
    ensures Legal(m, nu, norm) && ToSet(TrimEach(mu.delete)) == ToSet(TrimEach(nu.delete))
  {
    hide NormalizeEach, Names, TrimSpace, Distinct;
    var d, d' := TrimEach(mu.delete), TrimEach(nu.delete);
    ImagesUpToOrder(mu.delete, d, nu.delete, d');
    SameMembers(d, d');
    NormalizedUpToOrder(mu.replace, nu.replace, norm);
    NormalizedUpToOrder(mu.add, nu.add, norm);
    var r, r' := Names(NormalizeEach(mu.replace, norm).value), Names(NormalizeEach(nu.replace, norm).value);
    var a, a' := Names(NormalizeEach(mu.add, norm).value), Names(NormalizeEach(nu.add, norm).value);
    SameMembers(r, r');
    SameMembers(a, a');
    DistinctByCount(d + r + a);
    DistinctByCount(d' + r' + a');
    assert multiset(d + r + a) == multiset(d' + r' + a');
  }

  /** The order of the operations inside a PATCH never matters: not to whether it is accepted, and
      not to what is stored. */
  lemma OrderFree<R, T>(m: map<string, T>, mu: Mutation<R>, nu: Mutation<R>, norm: Normalizer<R, T>)
    requires SameUpToOrder(mu.delete, nu.delete) && SameUpToOrder(mu.replace, nu.replace) && SameUpToOrder(mu.add, nu.add)
    ensures Mutated(m, mu, norm) == Mutated(m, nu, norm)
  {
    hide NormalizeEach, Overlay, TrimEach, ToSet, Legal, Names;
    if Legal(m, nu, norm) {
      LegalUpToOrder(m, nu, mu, norm);
    }
    if Legal(m, mu, norm) {
      LegalUpToOrder(m, mu, nu, norm);
      NormalizedUpToOrder(mu.replace, nu.replace, norm);
      NormalizedUpToOrder(mu.add, nu.add, norm);
      LegalNames(m, mu, norm);
      LegalNames(m, nu, norm);
      var es := NormalizeEach(mu.replace, norm).value + NormalizeEach(mu.add, norm).value;
      var fs := NormalizeEach(nu.replace, norm).value + NormalizeEach(nu.add, norm).value;
      OverlayUpToOrder(m - ToSet(TrimEach(mu.delete)), es, fs);
    }
  }

  lemma LegalNames<R, T>(m: map<string, T>, mu: Mutation<R>, norm: Normalizer<R, T>)
    requires Legal(m, mu, norm)
    ensures NormalizeEach(mu.replace, norm).Some? && NormalizeEach(mu.add, norm).Some?
    ensures Distinct(Names(NormalizeEach(mu.replace, norm).value + NormalizeEach(mu.add, norm).value))
  {
    hide NormalizeEach;
    var es, fs := NormalizeEach(mu.replace, norm).value, NormalizeEach(mu.add, norm).value;
    var d := TrimEach(mu.delete);
    assert Names(es + fs) == Names(es) + Names(fs);
    assert d + Names(es) + Names(fs) == d + Names(es + fs);
    NamesDistinct(d, Names(es + fs));
  }
}
