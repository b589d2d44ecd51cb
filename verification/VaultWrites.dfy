/**
 When a write to a credential vault is accepted, and what it leaves there (Create and Patch in
 internal/credvault/vault.go, validateCandidate in validate.go), told by the request's own strings
 and by the requests the bindings match.
 */
module VaultWrites {
  import opened Text
  import opened Bindings
  import opened Overlap
  import opened AuthRules
  import opened Authority
  import opened Mutations
  import opened Vault
  import opened VaultRuns

  // -------------------------------------------------------------------------
  // When a candidate is accepted

  /** The one name a host is asked by: itself, or a name under a wildcard's domain. */
  function AskedAs(host: string): string {
    if "*." <= host then "probe." + host[2..] else host
  }

  ghost predicate Permitted(policy: Policy, authority: Option<seq<string>>, host: string) {
    && policy.Some? && policy.value(AskedAs(host))
    && authority.Some? && CoveredBy(authority.value, AskedAs(host))
  }

  ghost predicate Apart(bindings: map<string, Binding>) {
    forall a, b, r :: a in bindings && b in bindings && Matches(bindings[a].covers, r) && Matches(bindings[b].covers, r) ==> a == b
  }

  ghost predicate AllHeld(credentials: map<string, Record>, bindings: map<string, Binding>) {
    forall n, c :: n in bindings && c in CredentialsOf(bindings[n].auth) ==> c in credentials
  }

  ghost predicate AllPermitted(policy: Policy, authority: Option<seq<string>>, bindings: map<string, Binding>) {
    forall n, h :: n in bindings && h in bindings[n].covers.hosts ==> Permitted(policy, authority, h)
  }

  /** What the vault's contents have to meet after a write. */
  ghost predicate Fits(s: State, credentials: map<string, Record>, bindings: map<string, Binding>, policy: Policy) {
    !s.lost && AllHeld(credentials, bindings) && AllPermitted(policy, s.authority, bindings) && Apart(bindings)
  }

  ghost predicate AllGood(bindings: map<string, Binding>) {
    forall n :: n in bindings ==> GoodBinding(n, bindings[n])
  }

  /** Pairwise tests in name order decide whether any request is matched twice. */
  lemma SeparateIffApart(bindings: map<string, Binding>)
    requires AllGood(bindings)
    ensures Separate(bindings) <==> Apart(bindings)
  {
    hide BindingsOverlap, Matches, NormalMatch, KnownKind;
    if Separate(bindings) {
      forall a, b, r | a in bindings && b in bindings && Matches(bindings[a].covers, r) && Matches(bindings[b].covers, r)
        ensures a == b
      {
        BeforeIsTotal(a, b);
        OverlapIsExact(bindings[a].covers, bindings[b].covers);
        OverlapIsExact(bindings[b].covers, bindings[a].covers);
      }
    }
    if Apart(bindings) {
      forall a, b | a in bindings && b in bindings && Before(a, b)
        ensures BindingsOverlap(bindings[a].covers, bindings[b].covers).None?
      {
        OverlapIsExact(bindings[a].covers, bindings[b].covers);
        NotBeforeItself(a);
      }
    }
  }

  /** A stored host is asked by its probe, in the form the authority compares. */
  lemma AskedAsProbe(h: string)
    requires NormalizeHost(h) == Some(h)
    ensures AskedAs(h) == ProbeOf(h) && CanonicalName(ProbeOf(h)) == ProbeOf(h)
  {
    hide NormalizeHost, CanonicalName, PlainName;
    NormalHostShape(h, h);
    ProbeIsCanonical(h);
  }

  /** What holds of every host stored, and that each binding has one. */
  ghost predicate AskedWell(bindings: map<string, Binding>) {
    && (forall n, h :: n in bindings && h in bindings[n].covers.hosts ==> AskedAs(h) == ProbeOf(h) && CanonicalName(ProbeOf(h)) == ProbeOf(h))
    && (forall n :: n in bindings ==> bindings[n].covers.hosts != [])
  }

  lemma GoodIsAskedWell(bindings: map<string, Binding>)
    requires AllGood(bindings)
    ensures AskedWell(bindings)
  {
    hide NormalizeHost, CanonicalName, ProbeOf, AskedAs, KnownKind;
    forall n, h | n in bindings && h in bindings[n].covers.hosts
      ensures AskedAs(h) == ProbeOf(h) && CanonicalName(ProbeOf(h)) == ProbeOf(h)
    {
      assert GoodBinding(n, bindings[n]);
      AskedAsProbe(h);
    }
  }

  lemma PermittedIff(bindings: map<string, Binding>, policy: Policy, authority: Option<seq<string>>)
    requires AskedWell(bindings)
    ensures
      AllPermitted(policy, authority, bindings)
      <==> (bindings == map[] || (policy.Some? && Allowed(bindings, policy.value))) && Certifiable(authority, bindings)
  {
    hide CanonicalName, CoveredBy, ProbeOf, AskedAs;
    if bindings != map[] {
      var n :| n in bindings;
      var h := bindings[n].covers.hosts[0];
      assert h in bindings[n].covers.hosts;
      if AllPermitted(policy, authority, bindings) {
        assert Permitted(policy, authority, h);
        forall n | n in bindings
          ensures forall h :: h in bindings[n].covers.hosts ==>
            policy.value(ProbeOf(h)) && CoveredBy(authority.value, CanonicalName(ProbeOf(h)))
        {
          forall h | h in bindings[n].covers.hosts
            ensures policy.value(ProbeOf(h)) && CoveredBy(authority.value, CanonicalName(ProbeOf(h)))
          {
            assert Permitted(policy, authority, h);
          }
        }
      }
    }
  }

  lemma CheckedIff(s: State, credentials: map<string, Record>, bindings: map<string, Binding>, policy: Policy)
    requires AllGood(bindings)
    ensures Check(s, credentials, bindings, policy) == None <==> Fits(s, credentials, bindings, policy)
  {
    hide *;
    SeparateIffApart(bindings);
    GoodIsAskedWell(bindings);
    PermittedIff(bindings, policy, s.authority);
    ResolvedIff(credentials, bindings);
    CheckUnfolds(s, credentials, bindings, policy);
  }

  lemma ResolvedIff(credentials: map<string, Record>, bindings: map<string, Binding>)
    ensures Resolved(credentials, bindings) <==> AllHeld(credentials, bindings)
  {
    hide CredentialsOf;
  }

  lemma CheckUnfolds(s: State, credentials: map<string, Record>, bindings: map<string, Binding>, policy: Policy)
    requires Resolved(credentials, bindings) <==> AllHeld(credentials, bindings)
    requires Separate(bindings) <==> Apart(bindings)
    requires AllPermitted(policy, s.authority, bindings) <==>
      (bindings == map[] || (policy.Some? && Allowed(bindings, policy.value))) && Certifiable(s.authority, bindings)
    ensures Check(s, credentials, bindings, policy) == None <==> Fits(s, credentials, bindings, policy)
  {
    hide Resolved, Separate, Certifiable, Allowed, Apart, AllHeld, AllPermitted;
  }

  ghost function Candidate<R, T>(m: map<string, T>, mu: Mutation<R>, norm: Normalizer<R, T>): map<string, T>
    requires Legal(m, mu, norm)
  {
    Mutated(m, mu, norm).value
  }

  /** Create is accepted if and only if there is no vault yet, every credential and binding is well
      formed under a name of its own, and what they come to fits: no authority was lost, every
      credential a binding lists is there, the policy in force and the authority both permit the name
      each host is asked by, and no request is matched by two bindings. */
  lemma CreateAcceptedIff(s: State, req: CreateRequest, policy: Policy)
    ensures
      var cs, bs := Mutation([], [], req.credentials), Mutation([], [], req.bindings);
      Created(s, req, policy).1 == None <==>
        && !s.live && Legal(map[], cs, CredentialAt(1)) && Legal(map[], bs, NamedBinding)
        && Fits(s, Candidate(map[], cs, CredentialAt(1)), Candidate(map[], bs, NamedBinding), policy)
  {
    var cs, bs := Mutation([], [], req.credentials), Mutation([], [], req.bindings);
    if Legal(map[], bs, NamedBinding) && Legal(map[], cs, CredentialAt(1)) {
      BindingsStayGood(map[], bs);
      hide Legal, Check, Fits, Overlay;
      CheckedIff(s, Candidate(map[], cs, CredentialAt(1)), Candidate(map[], bs, NamedBinding), policy);
    }
  }

  /** Patch is accepted if and only if there is a vault, at the revision expected if one is, the
      operations are legal, and the result fits. */
  lemma PatchAcceptedIff(s: State, req: PatchRequest, policy: Policy)
    requires Reachable(s)
    ensures
      var next := s.revision + 1;
      Patched(s, req, policy).1 == None <==>
        && s.live && (req.expectedRevision == None || req.expectedRevision == Some(s.revision))
        && Legal(s.credentials, req.credentials, CredentialAt(next)) && Legal(s.bindings, req.bindings, NamedBinding)
        && Fits(s, Candidate(s.credentials, req.credentials, CredentialAt(next)), Candidate(s.bindings, req.bindings, NamedBinding), policy)
  {
    hide *;
    ReachableIsSound(s);
    SoundBindings(s);
    var next := s.revision + 1;
    PatchedIff(s, req, policy);
    if Legal(s.credentials, req.credentials, CredentialAt(next)) && Legal(s.bindings, req.bindings, NamedBinding) {
      LegalIsGood(s.bindings, req.bindings);
      CheckedIff(s, Candidate(s.credentials, req.credentials, CredentialAt(next)), Candidate(s.bindings, req.bindings, NamedBinding), policy);
    }
  }

  lemma LegalIsGood(m: map<string, Binding>, mu: Mutation<Binding>)
    requires AllGood(m) && Legal(m, mu, NamedBinding)
    ensures AllGood(Candidate(m, mu, NamedBinding))
  {
    hide Legal, GoodBinding, NamedBinding;
    BindingsStayGood(m, mu);
  }

  lemma PatchedIff(s: State, req: PatchRequest, policy: Policy)
    ensures
      var next := s.revision + 1;
      Patched(s, req, policy).1 == None <==>
        && s.live && (req.expectedRevision == None || req.expectedRevision == Some(s.revision))
        && Legal(s.credentials, req.credentials, CredentialAt(next)) && Legal(s.bindings, req.bindings, NamedBinding)
        && Check(s, Candidate(s.credentials, req.credentials, CredentialAt(next)), Candidate(s.bindings, req.bindings, NamedBinding), policy) == None
  {
    hide Legal, Check, Mutated, Candidate, CredentialAt, NamedBinding;
    CandidateIs(s.credentials, req.credentials, CredentialAt(s.revision + 1));
    CandidateIs(s.bindings, req.bindings, NamedBinding);
  }

  lemma CandidateIs<R, T>(m: map<string, T>, mu: Mutation<R>, norm: Normalizer<R, T>)
    ensures Mutated(m, mu, norm) == if Legal(m, mu, norm) then Some(Candidate(m, mu, norm)) else None
  {
    hide Legal, Overlay, NormalizeEach;
  }

  lemma SoundBindings(s: State)
    requires Sound(s)
    ensures AllGood(s.bindings)
  {
    hide GoodBinding;
  }
}
