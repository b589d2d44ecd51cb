/**
 A vault that accepted a wildcard binding through its probe and whose authority signs for no other
 host of it (certifiable in internal/credvault/vault.go).
 */
module ProbeOnly {
  import opened Text
  import opened Bindings
  import opened Overlap
  import opened AuthRules
  import opened Authority
  import opened Mutations
  import opened Vault
  import opened VaultRuns

  function MatchOn(host: string): Match {
    Match(["https"], [], [host], ["GET"], ["/*"])
  }

  function BindingOn(host: string): Binding {
    Binding("b", MatchOn(host), Auth("passthrough", "", "", [], []))
  }

  lemma OneEntry(x: string, norm: string -> Option<string>)
    requires norm(x) == Some(x)
    ensures NormalizeEach([x], norm) == Some([x]) && WithoutRepeats([x]) == [x]
  {
    hide WithoutRepeats;
    RepeatFreeIsKept([x]);
    assert NormalizeEach([x], norm).Some?;
    assert NormalizeEach([x], norm).value == [x];
  }

  lemma MatchIsItself(host: string)
    requires NormalizeHost(host) == Some(host)
    ensures NormalizeMatch(MatchOn(host)) == Some(MatchOn(host))
  {
    hide TrimSpace, NormalizeHost, NormalizeEach, WithoutRepeats;
    var m := MatchOn(host);
    assert Trimmed("https") && NoUpper("https") && Trimmed("GET") && Trimmed("/*");
    LowerIsIdentity("https");
    assert NormalizeScheme("https") == Some("https");
    assert Upper("GET") == "GET";
    assert NormalizeMethod("GET") == Some("GET");
    assert NormalizePath("/*") == Some("/*");
    OneEntry("https", NormalizeScheme);
    OneEntry(host, NormalizeHost);
    OneEntry("GET", NormalizeMethod);
    OneEntry("/*", NormalizePath);
  }

  lemma BindingIsItself(host: string)
    requires NormalizeHost(host) == Some(host)
    ensures NamedBinding(BindingOn(host)) == Some(("b", BindingOn(host))) && CredentialsOf(BindingOn(host).auth) == []
  {
    hide TrimSpace, NormalizeHost, NormalizeMatch;
    MatchIsItself(host);
    assert Trimmed("b") && Trimmed("passthrough") && Trimmed("");
  }

  function RequestOn(host: string): CreateRequest {
    CreateRequest([], [BindingOn(host)])
  }

  lemma OneNormalized<R, T>(b: R, norm: Normalizer<R, T>, e: (string, T))
    requires norm(b) == Some(e)
    ensures NormalizeEach([b], norm) == Some([e])
  {
    assert NormalizeEach([b], norm).Some?;
    assert NormalizeEach([b], norm).value == [e];
  }

  /** Adding one entry to nothing. */
  lemma OneAdded<R, T>(b: R, norm: Normalizer<R, T>, e: (string, T))
    requires norm(b) == Some(e)
    ensures Mutated(map[], Mutation([], [], [b]), norm) == Some(map[e.0 := e.1])
    ensures Mutated(map[], Mutation([], [], []), norm) == Some(map[])
  {
    OneNormalized(b, norm, e);
    NothingNormalized(norm);
    hide NormalizeEach;
    assert TrimEach([]) == [] && ToSet([]) == {};
    assert Names([e]) == [e.0] && Names<T>([]) == [];
    OverlayOne(e);
  }

  lemma NothingNormalized<R, T>(norm: Normalizer<R, T>)
    ensures NormalizeEach([], norm) == Some([])
  {
  }

  lemma OverlayOne<T>(e: (string, T))
    ensures var none: map<string, T> := map[];
      none - {} == none && Overlay(none, [] + [e]) == map[e.0 := e.1] && Overlay(none, [] + []) == none
  {
    var none: map<string, T> := map[];
    assert [] + [e] == [e] && [e][..0] == [];
    assert Overlay(none, []) == none;
  }

  lemma OneIsAdded(host: string)
    requires NormalizeHost(host) == Some(host)
    ensures Mutated(map[], Mutation([], [], RequestOn(host).bindings), NamedBinding) == Some(map["b" := BindingOn(host)])
    ensures Mutated(map[], Mutation([], [], RequestOn(host).credentials), CredentialAt(1)) == Some(map[])
  {
    BindingIsItself(host);
    hide NamedBinding, BindingOn, NormalizeHost, Mutated;
    OneAdded(BindingOn(host), NamedBinding, ("b", BindingOn(host)));
    SomeCredential();
    OneAdded(Credential("k", "inline", "v"), CredentialAt(1), ("k", Record("k", "v", 1)));
  }

  lemma SomeCredential()
    ensures CredentialAt(1)(Credential("k", "inline", "v")) == Some(("k", Record("k", "v", 1)))
  {
    hide TrimSpace;
    assert Trimmed("k") && Trimmed("inline");
  }

  /** Whatever the domain: an authority constrained to its probe name alone lets a wildcard binding on
      it be created, and leaves some host of that binding uncovered. */
  lemma AcceptedAndUncovered(d: string) returns (s: State, host: string)
    requires NormalizeHost("*." + d) == Some("*." + d)
    ensures Reachable(s) && "b" in s.bindings && s.bindings["b"].covers.hosts == ["*." + d]
    ensures MatchesHost(s.bindings["b"].covers.hosts, host) && s.authority == Some([Probe(d)]) && !CoveredBy([Probe(d)], host)
  {
    var wild := "*." + d;
    var policy: Policy := Some(h => true);
    var start := Opened(Some([Probe(d)]), false);
    OneIsAdded(wild);
    NoneRefused(d, start, policy);
    s := CreatedIsReached(wild, [Probe(d)], policy);
    hide NormalizeHost, Reachable, Probe;
    host := UncoveredHost(d);
  }

  lemma CreatedIsReached(wild: string, cs: seq<string>, policy: Policy) returns (s: State)
    requires Mutated(map[], Mutation([], [], RequestOn(wild).bindings), NamedBinding) == Some(map["b" := BindingOn(wild)])
    requires Mutated(map[], Mutation([], [], RequestOn(wild).credentials), CredentialAt(1)) == Some(map[])
    requires Check(Opened(Some(cs), false), map[], map["b" := BindingOn(wild)], policy) == None
    ensures Reachable(s) && s.bindings == map["b" := BindingOn(wild)] && s.authority == Some(cs)
  {
    hide Mutated, Check, NamedBinding, CredentialAt;
    var start, op := Opened(Some(cs), false), Create(RequestOn(wild), policy);
    s := Step(start, op).0;
    assert [op][1..] == [] && Run(s, []) == s;
    assert Run(start, [op]) == s;
  }

  lemma ProbeIsAccepted(d: string)
    requires NormalizeHost("*." + d) == Some("*." + d)
    ensures ProbeOf("*." + d) == Probe(d) && CoveredBy([Probe(d)], CanonicalName(Probe(d)))
  {
    hide CanonicalName, CoveredBy, NormalizeHost, PlainName;
    var wild := "*." + d;
    NormalHostShape(wild, wild);
    assert wild[2..] == d && IsWild(wild) && DomainOf(wild) == d;
    ProbeIsCanonical(wild);
    CoversItself(Probe(d));
  }

  lemma CoversItself(name: string)
    requires name != "" && name[0] != '.'
    ensures CoveredBy([name], name)
  {
    assert name in [name] && Permits(name, name);
  }

  lemma NoneRefused(d: string, start: State, policy: Policy)
    requires start == Opened(Some([Probe(d)]), false) && policy.Some? && (forall h :: policy.value(h))
    requires NormalizeHost("*." + d) == Some("*." + d)
    ensures Check(start, map[], map["b" := BindingOn("*." + d)], policy) == None
  {
    hide *;
    var wild := "*." + d;
    ProbeIsAccepted(d);
    BindingIsItself(wild);
    HostsOf(wild);
    OneBindingPasses(start, BindingOn(wild), wild, [Probe(d)], policy);
  }

  lemma HostsOf(host: string)
    ensures BindingOn(host).covers.hosts == [host]
  {
  }

  lemma OneBindingPasses(start: State, b: Binding, host: string, cs: seq<string>, policy: Policy)
    requires start == Opened(Some(cs), false) && policy.Some? && (forall h :: policy.value(h))
    requires b.covers.hosts == [host] && CredentialsOf(b.auth) == [] && CoveredBy(cs, CanonicalName(ProbeOf(host)))
    ensures Check(start, map[], map["b" := b], policy) == None
  {
    hide CoveredBy, CanonicalName, BindingsOverlap, CredentialsOf, ProbeOf, Before;
    NotBeforeItself("b");
  }

  lemma UncoveredHost(d: string) returns (host: string)
    ensures MatchesHost(["*." + d], host) && !CoveredBy([Probe(d)], host)
  {
    ProbeIsExact([Probe(d)], d);
    host :| HostMatches("*." + d, host) && !CoveredBy([Probe(d)], host);
    assert "*." + d in ["*." + d];
  }

  /** example.com is such a domain. */
  lemma ForExample()
    ensures NormalizeHost("*." + "example.com") == Some("*." + "example.com")
  {
    var d := "example.com";
    var wild := "*." + d;
    ExampleIsFqdn();
    hide TrimSpace, Split, Lower, IsFqdn, PlainName, TrimSuffix;
    PlainPatternIsClean(wild, d);
    assert wild[2..] == d && IsWild(wild) && DomainOf(wild) == d;
    assert wild[0] == '*' && wild[1] == '.';
    NoneOf(d);
  }

  lemma NoneOf(d: string)
    requires d == "example.com"
    ensures forall c :: c in "*." + d ==> c != '/' && c != ':' && c != '@' && c != ' '
    ensures '*' !in d
  {
  }

  lemma ExampleIsFqdn()
    ensures IsFqdn("example.com") && PlainName("example.com")
  {
    hide Split;
    SplitExample();
    assert "example.com"[7] == '.';
    assert IsLabel("example") && IsLabel("com");
  }

  lemma SplitExample()
    ensures Split("example.com", '.') == ["example", "com"]
  {
    var s := "example.com";
    assert s == "example" + "." + "com";
    SplitTwo("example", "com");
  }

  /** Two pieces without the separator. */
  lemma SplitTwo(a: string, b: string)
    requires '.' !in a && '.' !in b
    ensures Split(a + "." + b, '.') == [a, b]
  {
    var s := a + "." + b;
    var i := IndexOf(s, '.');
    assert s[|a|] == '.';
    assert forall k :: 0 <= k < |a| ==> s[k] == a[k];
    assert i == |a|;
    assert s[..i] == a && s[i + 1..] == b;
    assert IndexOf(b, '.') == |b|;
  }
}
