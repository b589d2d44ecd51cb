/** What holds of a credential vault after any sequence of writes. */
module VaultRuns {
  import opened Text
  import opened Bindings
  import opened Overlap
  import opened AuthRules
  import opened Authority
  import opened Mutations
  import opened Vault

  // -------------------------------------------------------------------------
  // The invariant

  predicate GoodBinding(n: string, b: Binding) {
    b.name == n && NormalMatch(b.covers) && KnownKind(b.auth.kind)
  }

  predicate GoodRecord(n: string, r: Record, revision: int) {
    r.name == n && r.value != "" && 1 <= r.revision <= revision
  }

  ghost predicate Sound(s: State) {
    && (if s.live then 1 <= s.revision else s == Opened(s.authority, s.lost))
    && (forall n :: n in s.credentials ==> GoodRecord(n, s.credentials[n], s.revision))
    && (forall n :: n in s.bindings ==> GoodBinding(n, s.bindings[n]))
    && Resolved(s.credentials, s.bindings)
    && Separate(s.bindings)
    && Certifiable(s.authority, s.bindings)
  }

  lemma NormalizedIsGood(b: Binding)
    ensures NamedBinding(b).Some? ==> GoodBinding(NamedBinding(b).value.0, NamedBinding(b).value.1)
  {
    hide NormalizeMatch, NormalizeAuth, TrimSpace;
    if NamedBinding(b).Some? {
      MatchIsNormal(b.covers);
      NormalKindIsKnown(b.auth);
    }
  }

  lemma BindingsStayGood(m: map<string, Binding>, mu: Mutation<Binding>)
    requires Mutated(m, mu, NamedBinding).Some?
    requires forall n :: n in m ==> GoodBinding(n, m[n])
    ensures var r := Mutated(m, mu, NamedBinding).value; forall n :: n in r ==> GoodBinding(n, r[n])
  {
    hide Mutated, GoodBinding, NormalizeBinding;
    forall b ensures NamedBinding(b).Some? ==> GoodBinding(NamedBinding(b).value.0, NamedBinding(b).value.1) {
      NormalizedIsGood(b);
    }
    MutatedKeeps(m, mu, NamedBinding, GoodBinding);
  }

  lemma RecordsStayGood(m: map<string, Record>, mu: Mutation<Credential>, revision: int, next: int)
    requires Mutated(m, mu, CredentialAt(next)).Some?
    requires 1 <= next && revision <= next
    requires forall n :: n in m ==> GoodRecord(n, m[n], revision)
    ensures var r := Mutated(m, mu, CredentialAt(next)).value; forall n :: n in r ==> GoodRecord(n, r[n], next)
  {
    hide Mutated;
    var P := (n: string, r: Record) => GoodRecord(n, r, next);
    var norm := CredentialAt(next);
    forall c ensures norm(c).Some? ==> P(norm(c).value.0, norm(c).value.1) {
    }
    MutatedKeeps(m, mu, norm, P);
    var r := Mutated(m, mu, norm).value;
    assert forall n :: n in r ==> P(n, r[n]);
  }

  lemma NothingToCheck(authority: Option<seq<string>>)
    ensures Separate(map[]) && Certifiable(authority, map[]) && Resolved(map[], map[])
  {
  }

  /** Every operation keeps the invariant, whatever policy is in force when it happens. */
  lemma StepKeepsSound(s: State, op: Op)
    requires Sound(s)
    ensures Sound(Step(s, op).0)
  {
    hide Mutated, GoodBinding, Separate, Certifiable, Resolved, Allowed;
    NothingToCheck(None);
    NothingToCheck(s.authority);
    match op
    case Create(req, policy) =>
      if Created(s, req, policy).1.None? {
        RecordsStayGood(map[], Mutation([], [], req.credentials), 1, 1);
        BindingsStayGood(map[], Mutation([], [], req.bindings));
      }
    case Patch(req, policy) =>
      if Patched(s, req, policy).1.None? {
        RecordsStayGood(s.credentials, req.credentials, s.revision, s.revision + 1);
        BindingsStayGood(s.bindings, req.bindings);
      }
    case Delete =>
    case Close =>
  }

  lemma {:induction false} RunKeepsSound(s: State, ops: seq<Op>)
    requires Sound(s)
    ensures Sound(Run(s, ops))
    decreases |ops|
  {
    hide Sound;
    if ops != [] {
      StepKeepsSound(s, ops[0]);
      RunKeepsSound(Step(s, ops[0]).0, ops[1..]);
    }
  }

  lemma OpenedIsSound(authority: Option<seq<string>>, lost: bool)
    ensures Sound(Opened(authority, lost))
  {
    NothingToCheck(authority);
  }

  /** Reached from the vault's opening by some sequence of operations. */
  ghost predicate Reachable(s: State) {
    exists authority, lost, ops :: s == Run(Opened(authority, lost), ops)
  }

  lemma ReachableIsSound(s: State)
    requires Reachable(s)
    ensures Sound(s)
  {
    hide Sound, Run;
    var authority, lost, ops :| s == Run(Opened(authority, lost), ops);
    OpenedIsSound(authority, lost);
    RunKeepsSound(Opened(authority, lost), ops);
  }

  // -------------------------------------------------------------------------
  // The request path

  lemma AtMostOneMatches(s: State, a: string, b: string, r: Request)
    requires Sound(s)
    requires a in Matched(s, r) && b in Matched(s, r)
    ensures a == b
  {
    hide Matches, NormalMatch, BindingsOverlap, Resolved, Certifiable;
    BeforeIsTotal(a, b);
    if Before(a, b) {
      OverlapIsExact(s.bindings[a].covers, s.bindings[b].covers);
    } else if Before(b, a) {
      OverlapIsExact(s.bindings[b].covers, s.bindings[a].covers);
    }
  }

  lemma OneBindingIsSent(s: State, r: Request, n: string)
    requires Sound(s) && n in Matched(s, r)
    ensures
      var o := Applied(s, r);
      && o.Sent? && o.binding == n
      && |o.writes| == |CredentialsOf(s.bindings[n].auth)|
      && forall i :: 0 <= i < |o.writes| ==>
                       CredentialsOf(s.bindings[n].auth)[i] in s.credentials
                       && o.writes[i].value == s.credentials[CredentialsOf(s.bindings[n].auth)[i]].value
    ensures Shows(Values(s.credentials), s.bindings[n].auth, Applied(s, r).writes)
  {
    hide Matches, NormalMatch, Separate, Certifiable, ApplyAuth, CredentialsOf, Shows;
    forall m | m in Matched(s, r) ensures m == n {
      AtMostOneMatches(s, m, n, r);
    }
    assert Matched(s, r) == {n};
    var auth := s.bindings[n].auth;
    ApplyResolves(Values(s.credentials), auth);
    if ApplyAuth(Values(s.credentials), auth).Writes? {
      AppliesAsDeclared(Values(s.credentials), auth);
    }
    assert forall c :: c in CredentialsOf(auth) ==> c in Values(s.credentials);
  }

  /** In every reachable vault and for every request, Apply either finds no binding or sends the
      request with exactly one; it never meets two bindings, a credential that is not held or an
      auth type it does not know. A request is sent exactly when some binding matches it, and what
      is written is the value each of that binding's credentials has now, where the auth says. */
  lemma ApplyNeverFails(s: State, r: Request)
    requires Reachable(s)
    ensures
      var o := Applied(s, r);
      && (o.NoBinding? || o.Sent?)
      && (o.Sent? <==> exists n :: n in s.bindings && Matches(s.bindings[n].covers, r))
      && (o.Sent? ==>
            && s.live && o.binding in s.bindings && Matches(s.bindings[o.binding].covers, r)
            && var names := CredentialsOf(s.bindings[o.binding].auth);
            && |o.writes| == |names|
            && forall i :: 0 <= i < |names| ==>
                             names[i] in s.credentials && o.writes[i].value == s.credentials[names[i]].value)
    ensures Applied(s, r).Sent? ==>
              Shows(Values(s.credentials), s.bindings[Applied(s, r).binding].auth, Applied(s, r).writes)
  {
    hide Matches, CredentialsOf, WithBinding, Sound, Reachable, Shows;
    ReachableIsSound(s);
    if n :| n in Matched(s, r) {
      OneBindingIsSent(s, r, n);
    } else {
      assert Matched(s, r) == {};
      assert forall n :: n in s.bindings && Matches(s.bindings[n].covers, r) ==> n in Matched(s, r);
    }
  }

  /** A host that is bound and can be named in a Host header is one to which some request on that
      port would be sent with a binding, and nothing else is. */
  lemma BoundMeansSome(s: State, host: string, port: string)
    requires Reachable(s)
    ensures Bound(s, host, port) && Askable(CanonicalName(host)) <==>
            exists r :: HostOf(r) == CanonicalName(host) && SchemeForPort(port) == Some(SchemeOf(r)) && Applied(s, r).Sent?
  {
    hide CredentialsOf, Applied, MatchesHost, MatchesPath, CanonicalHost, CanonicalName, Lower, Upper, Sound, Reachable, SchemeOf, Askable, HeaderFor;
    ReachableIsSound(s);
    var name := CanonicalName(host);
    if Bound(s, host, port) && Askable(name) {
      var scheme := SchemeForPort(port).value;
      var n :| n in s.bindings && scheme in s.bindings[n].covers.schemes
               && MatchesHost(s.bindings[n].covers.hosts, name);
      BoundNameShape(s, n, host);
      HeaderIsReadAs(name);
      var r := SomeRequest(s, n, scheme, name);
      ApplyNeverFails(s, r);
    }
    forall r | HostOf(r) == name && SchemeForPort(port) == Some(SchemeOf(r)) && Applied(s, r).Sent?
      ensures Bound(s, host, port) && Askable(name)
    {
      ApplyNeverFails(s, r);
      MatchedNamesAreAskable(r.host);
      MatchedNamesAreAskable(r.urlHost);
    }
  }

  /** A name some binding matches is trimmed and lower case, and ends in a letter or digit. */
  lemma BoundNameShape(s: State, n: string, host: string)
    requires Sound(s) && n in s.bindings && MatchesHost(s.bindings[n].covers.hosts, CanonicalName(host))
    ensures var name := CanonicalName(host);
      name != "" && Trimmed(name) && NoUpper(name) && !EndsWith(name, ".") && name[|name| - 1] !in "[]"
  {
    hide Separate, Certifiable, Resolved, NormalizeHost, CanonicalName, HostMatches;
    var h :| h in s.bindings[n].covers.hosts && HostMatches(h, CanonicalName(host));
    NormalHostShape(h, h);
    hide Sound;
    MatchedNameShape(h, host);
  }

  lemma MatchedNameShape(h: string, host: string)
    requires PlainName(DomainOf(h)) && HostMatches(h, CanonicalName(host))
    requires h == DomainOf(h) || h == "*." + DomainOf(h)
    ensures var name := CanonicalName(host);
      name != "" && Trimmed(name) && NoUpper(name) && !EndsWith(name, ".") && name[|name| - 1] !in "[]"
  {
    hide *;
    var name := CanonicalName(host);
    MatchedNameEnds(h, name, DomainOf(h));
    CanonicalNameStarts(host);
    CleanEnds(name);
  }

  lemma CleanEnds(name: string)
    requires name != "" && !IsSpace(name[0]) && IsAlnum(name[|name| - 1])
    ensures Trimmed(name) && !EndsWith(name, ".") && name[|name| - 1] !in "[]"
  {
  }

  lemma MatchedNameEnds(h: string, name: string, d: string)
    requires PlainName(d) && HostMatches(h, name) && (h == d || h == "*." + d)
    ensures name != "" && IsAlnum(name[|name| - 1])
  {
    if h == "*." + d {
      assert h[1..] == "." + d;
      assert name[|name| - 1] == d[|d| - 1];
    }
  }

  lemma CanonicalNameStarts(host: string)
    ensures var name := CanonicalName(host); NoUpper(name) && (name != "" ==> !IsSpace(name[0]))
  {
    hide TrimSpace, Lower;
    CaseIsIdempotent(TrimSpace(host));
    var low := Lower(TrimSpace(host));
    assert CanonicalName(host) <= low;
  }

  lemma SomeRequest(s: State, n: string, scheme: string, host: string) returns (r: Request)
    requires Sound(s) && n in s.bindings
    requires scheme in s.bindings[n].covers.schemes && MatchesHost(s.bindings[n].covers.hosts, host)
    requires CanonicalHost(HeaderFor(host)) == host
    ensures HostOf(r) == host && SchemeOf(r) == scheme && Matches(s.bindings[n].covers, r)
  {
    hide Separate, Certifiable, Resolved, CanonicalHost, NormalizeHost, NormalizePath, Lower, Upper, NormalizeMethod, NormalizeScheme, HostMatches, MatchesPath, LastColon;
    var m := s.bindings[n].covers;
    var verb, path := m.methods[0], m.paths[0];
    NormalCase(scheme, verb);
    NormalPathIsRooted(path);
    var h :| h in m.hosts && HostMatches(h, host);
    NormalHostIsNotBlank(h, host);
    var at := TrimSuffix(path, "*");
    SomePath(m.paths, path);
    r := Request(scheme, false, HeaderFor(host), "", verb, at);
  }

  lemma SomePath(paths: seq<string>, p: string)
    requires p in paths && "/" <= p
    ensures MatchesPath(paths, TrimSuffix(p, "*"))
  {
    assert p[0] == '/';
    assert PathMatches(p, TrimSuffix(p, "*"));
  }

  // -------------------------------------------------------------------------
  // The signing ceiling

  /** In every reachable vault, the authority covers every host a binding matches if and only if,
      for each of its wildcards, some constraint other than the probe name itself permits the
      probe. A binding with no wildcard is always covered. */
  lemma AuthorityCoversBindings(s: State, n: string)
    requires Reachable(s) && n in s.bindings
    ensures s.authority.Some?
    ensures
      var hosts, cs := s.bindings[n].covers.hosts, s.authority.value;
      (forall host :: MatchesHost(hosts, host) ==> CoveredBy(cs, host))
      <==> (forall h :: h in hosts && IsWild(h) ==>
                          exists c :: c in cs && c != Probe(DomainOf(h)) && Permits(c, Probe(DomainOf(h))))
  {
    ReachableIsSound(s);
    AuthorityHolds(s, n);
    hide *;
    HostsCoveredIff(s.bindings[n].covers.hosts, s.authority.value);
  }

  /** Some constraint other than the probe name permits the probe of every wildcard that is bound. */
  ghost predicate ProbesAreTold(s: State) {
    s.authority.Some? ==> forall n, h :: n in s.bindings && h in s.bindings[n].covers.hosts && IsWild(h) ==>
      exists c :: c in s.authority.value && c != Probe(DomainOf(h)) && Permits(c, Probe(DomainOf(h)))
  }

  /** So a host the filter is told to intercept is one the authority signs for. */
  lemma BoundIsCovered(s: State, host: string, port: string)
    requires Reachable(s) && Bound(s, host, port) && ProbesAreTold(s)
    ensures s.authority.Some? && CoveredBy(s.authority.value, CanonicalName(host))
  {
    hide MatchesHost, CanonicalName, CoveredBy, Permits, Reachable, Probe, DomainOf, IsWild;
    var n :| n in s.bindings && SchemeForPort(port).value in s.bindings[n].covers.schemes
             && MatchesHost(s.bindings[n].covers.hosts, CanonicalName(host));
    AuthorityCoversBindings(s, n);
  }

  /** Between the Bound check and the handshake, with no write between them: Leaf never refuses a
      host that is bound. */
  method SignBound(v: CredentialVault, host: string, port: string) returns (r: Option<LeafOutcome>)
    requires v.Valid() && Reachable(v.Value()) && ProbesAreTold(v.Value())
    modifies v.ca
    ensures v.Valid() && v.Value() == old(v.Value())
    ensures r == if Bound(v.Value(), host, port) then Some(Signed(CanonicalName(host))) else None
  {
    hide Reachable, ProbesAreTold, CoveredBy, CanonicalName, Bound;
    var bound := v.IsBound(host, port);
    if !bound {
      return None;
    }
    BoundIsCovered(v.Value(), host, port);
    BoundIsLive(v.Value(), host, port);
    var leaf := v.LeafFor(host);
    return leaf;
  }

  lemma BoundIsLive(s: State, host: string, port: string)
    requires Bound(s, host, port)
    ensures s.live
  {
  }

  /** The same for a list of hosts, each covered through its probe. */
  lemma HostsCoveredIff(hosts: seq<string>, cs: seq<string>)
    requires forall h :: h in hosts ==> CoveredBy(cs, ProbeOf(h)) && (IsWild(h) ==> h == "*." + DomainOf(h))
    ensures
      (forall host :: MatchesHost(hosts, host) ==> CoveredBy(cs, host))
      <==> (forall h :: h in hosts && IsWild(h) ==>
                          exists c :: c in cs && c != Probe(DomainOf(h)) && Permits(c, Probe(DomainOf(h))))
  {
    hide CoveredBy, Permits;
    forall h | h in hosts
      ensures !IsWild(h) ==> forall host :: HostMatches(h, host) ==> CoveredBy(cs, host)
      ensures IsWild(h) ==>
                (WildcardCovered(cs, DomainOf(h)) <==>
                 exists c :: c in cs && c != Probe(DomainOf(h)) && Permits(c, Probe(DomainOf(h))))
    {
      ProbeIsExact(cs, DomainOf(h));
    }
    if forall host :: MatchesHost(hosts, host) ==> CoveredBy(cs, host) {
      forall h | h in hosts && IsWild(h) ensures WildcardCovered(cs, DomainOf(h)) {
        forall host | HostMatches("*." + DomainOf(h), host) ensures CoveredBy(cs, host) {
          assert MatchesHost(hosts, host);
        }
      }
    }
  }

  /** Each host of a stored binding was covered through its probe, and is in the form the
      authority compares. */
  lemma AuthorityHolds(s: State, n: string)
    requires Sound(s) && n in s.bindings
    ensures s.authority.Some?
    ensures forall h :: h in s.bindings[n].covers.hosts ==>
                          CoveredBy(s.authority.value, ProbeOf(h)) && (IsWild(h) ==> h == "*." + DomainOf(h))
  {
    hide NormalizeHost, CoveredBy, CanonicalName, Separate, Resolved;
    forall h | h in s.bindings[n].covers.hosts
      ensures CanonicalName(ProbeOf(h)) == ProbeOf(h) && (IsWild(h) ==> h == "*." + DomainOf(h))
    {
      NormalHostShape(h, h);
      ProbeIsCanonical(h);
    }
  }

  lemma ProbeIsCanonical(h: string)
    requires PlainName(DomainOf(h))
    ensures CanonicalName(ProbeOf(h)) == ProbeOf(h)
  {
    hide CanonicalName;
    var p, d := ProbeOf(h), DomainOf(h);
    if IsWild(h) {
      assert p == "probe." + d;
      assert forall i :: 6 <= i < |p| ==> p[i] == d[i - 6];
    }
    assert p[|p| - 1] == d[|d| - 1];
    CleanIsCanonical(p);
  }

  lemma CleanIsCanonical(p: string)
    requires p != "" && NoUpper(p) && !IsSpace(p[0]) && IsAlnum(p[|p| - 1])
    ensures CanonicalName(p) == p
  {
    hide TrimSpace, Lower;
    assert Trimmed(p) && !EndsWith(p, ".");
    LowerIsIdentity(p);
  }

  // -------------------------------------------------------------------------
  // Patch

  /** A refused write of any kind changes nothing. */
  lemma RefusedChangesNothing(s: State, op: Op)
    ensures Step(s, op).1.Some? ==> Step(s, op).0 == s
  {
    hide Mutated, Check;
  }

  /** An accepted PATCH raises the revision by one; in each of the two maps the names touched by
      different operations are apart, the names held are the old ones without the deleted and with
      the added, every entry is stored, and what nobody mentioned is as it was. */
  lemma PatchIsExact(s: State, req: PatchRequest, policy: Policy)
    requires Patched(s, req, policy).1.None?
    ensures
      var t := Patched(s, req, policy).0;
      && t.revision == s.revision + 1
      && PatchedRecords(s.credentials, req.credentials, CredentialAt(t.revision), t.credentials)
      && PatchedRecords(s.bindings, req.bindings, NamedBinding, t.bindings)
  {
    hide Mutated, Check, PatchedRecords;
    MutatedIsPatched(s.credentials, req.credentials, CredentialAt(s.revision + 1));
    MutatedIsPatched(s.bindings, req.bindings, NamedBinding);
  }

  ghost predicate PatchedRecords<R, T(!new)>(m: map<string, T>, mu: Mutation<R>, norm: Normalizer<R, T>, r: map<string, T>) {
    var deleted, replaced, added := TrimEach(mu.delete), NormalizeEach(mu.replace, norm), NormalizeEach(mu.add, norm);
    && replaced.Some? && added.Some?
    && ToSet(deleted) !! ToSet(Names(replaced.value)) !! ToSet(Names(added.value))
    && r.Keys == (m.Keys - ToSet(deleted)) + ToSet(Names(added.value))
    && (forall e :: e in replaced.value || e in added.value ==> e.0 in r && r[e.0] == e.1)
    && (forall k :: k in m && k !in deleted && k !in Names(replaced.value) ==> k in r && r[k] == m[k])
  }

  lemma MutatedIsPatched<R, T(!new)>(m: map<string, T>, mu: Mutation<R>, norm: Normalizer<R, T>)
    requires Mutated(m, mu, norm).Some?
    ensures PatchedRecords(m, mu, norm, Mutated(m, mu, norm).value)
  {
    hide NormalizeEach, Overlay, Distinct, TrimEach;
    MutatedFacts(m, mu, norm);
  }

  /** Two PATCH requests that differ only in the order of their entries do the same. */
  lemma PatchOrderFree(s: State, p: PatchRequest, q: PatchRequest, policy: Policy)
    requires p.expectedRevision == q.expectedRevision
    requires SameOperations(p.credentials, q.credentials) && SameOperations(p.bindings, q.bindings)
    ensures Patched(s, p, policy) == Patched(s, q, policy)
  {
    hide Mutated, Check;
    OrderFree(s.credentials, p.credentials, q.credentials, CredentialAt(s.revision + 1));
    OrderFree(s.bindings, p.bindings, q.bindings, NamedBinding);
  }

  ghost predicate SameOperations<R>(mu: Mutation<R>, nu: Mutation<R>) {
    SameUpToOrder(mu.delete, nu.delete) && SameUpToOrder(mu.replace, nu.replace) && SameUpToOrder(mu.add, nu.add)
  }

  /** No operation among these ends the vault's lifetime. */
  ghost predicate OneLifetime(ops: seq<Op>) {
    forall i :: 0 <= i < |ops| ==> !ops[i].Delete? && !ops[i].Close?
  }

  lemma {:induction false} RevisionNeverFalls(s: State, ops: seq<Op>)
    requires s.live && OneLifetime(ops)
    ensures Run(s, ops).live && s.revision <= Run(s, ops).revision
    decreases |ops|
  {
    hide Mutated, Check;
    if ops != [] {
      assert !ops[0].Delete? && !ops[0].Close?;
      RevisionNeverFalls(Step(s, ops[0]).0, ops[1..]);
    }
  }

  /** Of two PATCH requests naming the same expected revision within one lifetime of the vault, at
      most one is accepted: the later one meets a newer revision. */
  lemma StaleWriterLoses(s: State, p: PatchRequest, policy: Policy, ops: seq<Op>, q: PatchRequest, policy': Policy)
    requires p.expectedRevision.Some? && p.expectedRevision == q.expectedRevision
    requires Patched(s, p, policy).1.None? && OneLifetime(ops)
    ensures var t := Run(Patched(s, p, policy).0, ops);
            Patched(t, q, policy') == (t, Some(WrongRevision))
  {
    hide Mutated, Check, Run;
    RevisionNeverFalls(Patched(s, p, policy).0, ops);
  }
}
