/**
 What an accepted write leaves in a credential vault, told by the strings of the request: which
 requests a stored binding matches, defaults included, which header and credential its auth names,
 and which value each credential has (normalizeBinding and its parts in
 internal/credvault/validate.go).
 */
module StoredAs {
  import opened Text
  import opened Bindings
  import opened Overlap
  import opened AuthRules
  import opened Mutations
  import opened Vault
  import opened VaultRuns

  // -------------------------------------------------------------------------
  // Which requests a binding takes in

  /** A request's scheme is its URL's, or told by how it arrived. */
  lemma SchemesAre(r: Request)
    ensures r.urlScheme == "" ==> SchemeOf(r) == if r.tls then "https" else "http"
    ensures r.urlScheme != "" ==> SchemeOf(r) == Lower(r.urlScheme)
    ensures SchemeForPort("443") == Some("https") && SchemeForPort("80") == Some("http")
    ensures forall port :: SchemeForPort(port).Some? ==> port == "443" || port == "80"
  {
    assert r.urlScheme != "" ==> |Lower(r.urlScheme)| > 0;
  }

  function PathOf(r: Request): string {
    if r.path == "" then "/" else r.path
  }

  /** What a client asks for: an empty list of schemes is https alone, of methods the usual five, of
      paths every path. */
  ghost predicate Asks(m: Match, r: Request) {
    && (if m.schemes == [] then SchemeOf(r) == "https" else exists x :: x in m.schemes && Lower(TrimSpace(x)) == SchemeOf(r))
    && (exists x :: x in m.hosts && HostMatches(Lower(TrimSuffix(TrimSpace(x), ".")), HostOf(r)))
    && (if m.methods == [] then Upper(r.verb) in ["GET", "POST", "PUT", "PATCH", "DELETE"]
        else exists x :: x in m.methods && Upper(TrimSpace(x)) == Upper(r.verb))
    && (if m.paths == [] then "/" <= PathOf(r) else exists x :: x in m.paths && PathMatches(TrimSpace(x), PathOf(r)))
  }

  lemma EachMember(xs: seq<string>, norm: string -> Option<string>, y: string)
    requires NormalizeEach(xs, norm).Some?
    ensures y in WithoutRepeats(NormalizeEach(xs, norm).value) <==> exists x :: x in xs && norm(x) == Some(y)
  {
    hide NormalizeEach, WithoutRepeats;
    var ys := NormalizeEach(xs, norm).value;
    if y in ys {
      var i :| 0 <= i < |ys| && ys[i] == y;
      assert xs[i] in xs;
    }
    if x :| x in xs && norm(x) == Some(y) {
      var i :| 0 <= i < |xs| && xs[i] == x;
      assert ys[i] in ys;
    }
  }

  lemma DefaultsStand()
    ensures NormalizeScheme("https") == Some("https") && NormalizePath("/*") == Some("/*")
    ensures forall x :: x in DEFAULT_METHODS ==> NormalizeMethod(x) == Some(x)
  {
    hide TrimSpace;
    LowerIsIdentity("https");
    forall x | x in DEFAULT_METHODS ensures NormalizeMethod(x) == Some(x) {
      assert Trimmed(x);
      UpperIsIdentity(x);
    }
  }

  lemma UpperIsIdentity(s: string)
    requires forall i :: 0 <= i < |s| ==> !('a' <= s[i] <= 'z')
    ensures Upper(s) == s
  {
  }

  lemma SchemesStand(xs: seq<string>, y: string)
    requires NormalizeEach(OrDefault(xs, DEFAULT_SCHEMES), NormalizeScheme).Some?
    ensures y in WithoutRepeats(NormalizeEach(OrDefault(xs, DEFAULT_SCHEMES), NormalizeScheme).value) <==>
            if xs == [] then y == "https" else exists x :: x in xs && Lower(TrimSpace(x)) == y
  {
    hide NormalizeEach, WithoutRepeats, TrimSpace, Lower;
    DefaultsStand();
    var list := OrDefault(xs, DEFAULT_SCHEMES);
    EachMember(list, NormalizeScheme, y);
    assert forall x :: x in list ==> NormalizeScheme(x) == Some(Lower(TrimSpace(x))) by {
      EachHasNorm(list, NormalizeScheme);
    }
    assert xs == [] ==> list == ["https"];
  }

  lemma MethodsStand(xs: seq<string>, y: string)
    requires NormalizeEach(OrDefault(xs, DEFAULT_METHODS), NormalizeMethod).Some?
    ensures y in WithoutRepeats(NormalizeEach(OrDefault(xs, DEFAULT_METHODS), NormalizeMethod).value) <==>
            if xs == [] then y in ["GET", "POST", "PUT", "PATCH", "DELETE"] else exists x :: x in xs && Upper(TrimSpace(x)) == y
  {
    hide NormalizeEach, WithoutRepeats, TrimSpace, Upper;
    DefaultsStand();
    var list := OrDefault(xs, DEFAULT_METHODS);
    EachMember(list, NormalizeMethod, y);
    assert forall x :: x in list ==> NormalizeMethod(x) == Some(Upper(TrimSpace(x))) by {
      EachHasNorm(list, NormalizeMethod);
    }
  }

  lemma HostsStand(xs: seq<string>, y: string)
    requires NormalizeEach(xs, NormalizeHost).Some?
    ensures y in WithoutRepeats(NormalizeEach(xs, NormalizeHost).value) <==>
            exists x :: x in xs && Lower(TrimSuffix(TrimSpace(x), ".")) == y
  {
    EachMember(xs, NormalizeHost, y);
    EachHasNorm(xs, NormalizeHost);
    hide NormalizeEach, WithoutRepeats, TrimSpace, Lower, TrimSuffix, IsFqdn;
    assert forall x :: x in xs ==> NormalizeHost(x) == Some(Lower(TrimSuffix(TrimSpace(x), ".")));
  }

  lemma PathsStand(xs: seq<string>, y: string)
    requires NormalizeEach(OrDefault(xs, DEFAULT_PATHS), NormalizePath).Some?
    ensures y in WithoutRepeats(NormalizeEach(OrDefault(xs, DEFAULT_PATHS), NormalizePath).value) <==>
            if xs == [] then y == "/*" else exists x :: x in xs && TrimSpace(x) == y
  {
    hide NormalizeEach, WithoutRepeats, TrimSpace;
    DefaultsStand();
    var list := OrDefault(xs, DEFAULT_PATHS);
    EachMember(list, NormalizePath, y);
    assert forall x :: x in list ==> NormalizePath(x) == Some(TrimSpace(x)) by {
      EachHasNorm(list, NormalizePath);
    }
    assert xs == [] ==> list == ["/*"];
  }

  lemma EachHasNorm<A, B>(xs: seq<A>, norm: A -> Option<B>)
    requires NormalizeEach(xs, norm).Some?
    ensures forall x :: x in xs ==> norm(x).Some?
  {
    hide NormalizeEach;
    var ys := NormalizeEach(xs, norm).value;
    forall x | x in xs ensures norm(x).Some? {
      var i :| 0 <= i < |xs| && xs[i] == x;
    }
  }

  /** A stored match takes in exactly the requests the client asked for. */
  lemma MatchStandsFor(m: Match, r: Request)
    requires NormalizeMatch(m).Some?
    ensures Matches(NormalizeMatch(m).value, r) <==> Asks(m, r)
  {
    hide NormalizeEach, WithoutRepeats, TrimSpace, Lower, Upper, TrimSuffix, HostMatches, PathMatches, SchemeOf, HostOf;
    var n := NormalizeMatch(m).value;
    SchemesStand(m.schemes, SchemeOf(r));
    MethodsStand(m.methods, Upper(r.verb));
    HostFieldStands(m.hosts, HostOf(r));
    PathFieldStands(m.paths, r);
    hide MatchesHost, MatchesPath;
  }

  lemma HostFieldStands(xs: seq<string>, host: string)
    requires NormalizeEach(xs, NormalizeHost).Some?
    ensures MatchesHost(WithoutRepeats(NormalizeEach(xs, NormalizeHost).value), host) <==>
            exists x :: x in xs && HostMatches(Lower(TrimSuffix(TrimSpace(x), ".")), host)
  {
    hide NormalizeEach, WithoutRepeats, TrimSpace, Lower, TrimSuffix, HostMatches;
    var ys := WithoutRepeats(NormalizeEach(xs, NormalizeHost).value);
    if MatchesHost(ys, host) {
      var y :| y in ys && HostMatches(y, host);
      HostsStand(xs, y);
    }
    if x :| x in xs && HostMatches(Lower(TrimSuffix(TrimSpace(x), ".")), host) {
      HostsStand(xs, Lower(TrimSuffix(TrimSpace(x), ".")));
    }
  }

  lemma PathFieldStands(xs: seq<string>, r: Request)
    requires NormalizeEach(OrDefault(xs, DEFAULT_PATHS), NormalizePath).Some?
    ensures MatchesPath(WithoutRepeats(NormalizeEach(OrDefault(xs, DEFAULT_PATHS), NormalizePath).value), r.path) <==>
            if xs == [] then "/" <= PathOf(r) else exists x :: x in xs && PathMatches(TrimSpace(x), PathOf(r))
  {
    hide NormalizeEach, WithoutRepeats, TrimSpace, PathMatches, OrDefault;
    EveryPath(PathOf(r));
    var ys := WithoutRepeats(NormalizeEach(OrDefault(xs, DEFAULT_PATHS), NormalizePath).value);
    if MatchesPath(ys, r.path) {
      var y :| y in ys && PathMatches(y, PathOf(r));
      PathsStand(xs, y);
    }
    if xs == [] {
      PathsStand(xs, "/*");
    } else if x :| x in xs && PathMatches(TrimSpace(x), PathOf(r)) {
      PathsStand(xs, TrimSpace(x));
    }
  }

  lemma EveryPath(path: string)
    ensures PathMatches("/*", path) <==> "/" <= path
  {
    assert EndsWith("/*", "*") && TrimSuffix("/*", "*") == "/";
  }

  // -------------------------------------------------------------------------
  // What its auth names

  /** A header name, up to the case of its letters. */
  ghost predicate SameHeader(asked: string, stored: string) {
    Lower(stored) == Lower(TrimSpace(asked))
  }

  ghost predicate SubstitutionStands(asked: Substitution, stored: Substitution) {
    && stored.credential == TrimSpace(asked.credential) && stored.placeholder == asked.placeholder
    && |stored.surfaces| == |asked.surfaces|
    && forall j :: 0 <= j < |asked.surfaces| ==> stored.surfaces[j] == Lower(TrimSpace(asked.surfaces[j]))
  }

  /** What its kind needs is as asked, its names trimmed. */
  ghost predicate KindStands(asked: Auth, stored: Auth) {
    && stored.kind == TrimSpace(asked.kind)
    && (stored.kind in ["bearer", "basic", "apiKey"] ==> stored.credential == TrimSpace(asked.credential) && stored.credential != "")
    && (stored.kind == "apiKey" ==> SameHeader(asked.name, stored.name))
    && (stored.kind == "customHeaders" ==> |stored.headers| == |asked.headers| > 0 && forall i :: 0 <= i < |asked.headers| ==>
          SameHeader(asked.headers[i].name, stored.headers[i].name) && stored.headers[i].credential == TrimSpace(asked.headers[i].credential))
  }

  ghost predicate AllStand(asked: seq<Substitution>, stored: seq<Substitution>) {
    |stored| == |asked| && forall k :: 0 <= k < |asked| ==> SubstitutionStands(asked[k], stored[k])
  }

  /** The stored auth is the one asked for. */
  ghost predicate AuthStands(asked: Auth, stored: Auth) {
    KindStands(asked, stored) && AllStand(asked.substitutions, stored.substitutions)
  }

  lemma HeaderKeepsItsLetters(name: string)
    ensures Lower(CanonicalHeader(name)) == Lower(name)
  {
    var h := CanonicalHeader(name);
    if IsToken(name) {
      CaseIsLost(h, name);
    }
  }

  lemma CaseIsLost(h: string, name: string)
    requires |h| == |name| && forall i :: 0 <= i < |h| ==> h[i] == UpperChar(name[i]) || h[i] == LowerChar(name[i])
    ensures Lower(h) == Lower(name)
  {
    forall i | 0 <= i < |h| ensures LowerChar(h[i]) == LowerChar(name[i]) {
      OneCase(name[i]);
    }
    hide LowerChar, UpperChar;
  }

  lemma OneCase(c: char)
    ensures LowerChar(UpperChar(c)) == LowerChar(c) && LowerChar(LowerChar(c)) == LowerChar(c)
  {
  }

  lemma KindIsStood(a: Auth, subs: seq<Substitution>)
    requires NormalizeKind(a).Some?
    ensures KindStands(a, NormalizeKind(a).value.(substitutions := subs))
  {
    hide TrimSpace, CanonicalHeader, UsableHeader, NormalizeEach, HeadersDiffer, Lower;
    HeaderKeepsItsLetters(TrimSpace(a.name));
    if KindOf(TrimSpace(a.kind)) == CustomHeadersKind {
      forall i | 0 <= i < |a.headers| ensures SameHeader(a.headers[i].name, CanonicalHeader(TrimSpace(a.headers[i].name))) {
        HeaderKeepsItsLetters(TrimSpace(a.headers[i].name));
      }
    }
  }

  lemma SubstitutionIsStood(s: Substitution)
    requires NormalizeSubstitution(s).Some?
    ensures SubstitutionStands(s, NormalizeSubstitution(s).value)
  {
    hide TrimSpace, NormalizeEach, Lower;
  }

  lemma SubstitutionsStood(xs: seq<Substitution>)
    requires NormalizeEach(xs, NormalizeSubstitution).Some?
    ensures AllStand(xs, NormalizeEach(xs, NormalizeSubstitution).value)
  {
    hide NormalizeEach, SubstitutionStands, NormalizeSubstitution;
    var ys := NormalizeEach(xs, NormalizeSubstitution).value;
    forall k | 0 <= k < |xs| ensures SubstitutionStands(xs[k], ys[k]) {
      SubstitutionIsStood(xs[k]);
    }
  }

  lemma AuthStandsFor(a: Auth)
    requires NormalizeAuth(a).Some?
    ensures AuthStands(a, NormalizeAuth(a).value)
  {
    hide NormalizeEach, NormalizeKind, OneValueEach, KindStands, AllStand, NormalizeSubstitution;
    var subs := NormalizeEach(a.substitutions, NormalizeSubstitution).value;
    KindIsStood(a, subs);
    SubstitutionsStood(a.substitutions);
  }

  // -------------------------------------------------------------------------
  // What a write leaves

  /** The binding a client wrote, as the vault holds it. */
  ghost predicate StandsFor(asked: Binding, stored: Binding) {
    && stored.name == TrimSpace(asked.name) && stored.name != ""
    && (forall r :: Matches(stored.covers, r) <==> Asks(asked.covers, r))
    && AuthStands(asked.auth, stored.auth)
  }

  lemma BindingStands(b: Binding)
    requires NamedBinding(b).Some?
    ensures NamedBinding(b).value.0 == TrimSpace(b.name) && StandsFor(b, NamedBinding(b).value.1)
  {
    hide NormalizeMatch, NormalizeAuth, TrimSpace, Matches, Asks, AuthStands;
    AuthStandsFor(b.auth);
    forall r ensures Matches(NormalizeMatch(b.covers).value, r) <==> Asks(b.covers, r) {
      MatchStandsFor(b.covers, r);
    }
  }

  /** Every entry of a list is in the map, under its trimmed name. */
  ghost predicate Holds(bindings: map<string, Binding>, asked: seq<Binding>) {
    forall b :: b in asked ==> TrimSpace(b.name) in bindings && StandsFor(b, bindings[TrimSpace(b.name)])
  }

  ghost predicate Keeps(credentials: map<string, Record>, asked: seq<Credential>, revision: int) {
    forall c :: c in asked ==> TrimSpace(c.name) in credentials && credentials[TrimSpace(c.name)] == Record(TrimSpace(c.name), c.value, revision)
  }

  lemma ListHolds(bindings: map<string, Binding>, asked: seq<Binding>)
    requires NormalizeEach(asked, NamedBinding).Some?
    requires forall e :: e in NormalizeEach(asked, NamedBinding).value ==> e.0 in bindings && bindings[e.0] == e.1
    ensures Holds(bindings, asked)
  {
    hide NormalizeEach, NamedBinding, StandsFor, TrimSpace;
    var es := NormalizeEach(asked, NamedBinding).value;
    forall b | b in asked ensures TrimSpace(b.name) in bindings && StandsFor(b, bindings[TrimSpace(b.name)]) {
      var i :| 0 <= i < |asked| && asked[i] == b;
      assert es[i] in es;
      BindingStands(b);
    }
  }

  lemma ListKeeps(credentials: map<string, Record>, asked: seq<Credential>, revision: int)
    requires NormalizeEach(asked, CredentialAt(revision)).Some?
    requires forall e :: e in NormalizeEach(asked, CredentialAt(revision)).value ==> e.0 in credentials && credentials[e.0] == e.1
    ensures Keeps(credentials, asked, revision)
  {
    hide NormalizeEach, TrimSpace;
    var norm := CredentialAt(revision);
    var es := NormalizeEach(asked, norm).value;
    forall c | c in asked
      ensures TrimSpace(c.name) in credentials && credentials[TrimSpace(c.name)] == Record(TrimSpace(c.name), c.value, revision)
    {
      var i :| 0 <= i < |asked| && asked[i] == c;
      assert es[i] in es && norm(c) == Some(es[i]);
    }
  }

  /** After an accepted Create every binding stands for the one asked, every credential has the value
      given, and there is nothing else. */
  lemma CreateStores(s: State, req: CreateRequest, policy: Policy)
    requires Created(s, req, policy).1 == None
    ensures
      var t := Created(s, req, policy).0;
      && t.live && t.revision == 1 && t.authority == s.authority && t.lost == s.lost
      && Holds(t.bindings, req.bindings) && (forall n :: n in t.bindings ==> exists b :: b in req.bindings && TrimSpace(b.name) == n)
      && Keeps(t.credentials, req.credentials, 1)
      && (forall n :: n in t.credentials ==> exists c :: c in req.credentials && TrimSpace(c.name) == n)
  {
    hide Mutated, Check, CredentialAt, NamedBinding, Holds, Keeps, TrimSpace;
    var t := Created(s, req, policy).0;
    AddedToNothing(req.bindings, NamedBinding);
    AddedToNothing(req.credentials, CredentialAt(1));
    ListHolds(t.bindings, req.bindings);
    ListKeeps(t.credentials, req.credentials, 1);
    forall n | n in t.bindings ensures exists b :: b in req.bindings && TrimSpace(b.name) == n {
      var i := CameFrom(req.bindings, NamedBinding, n);
      BindingStands(req.bindings[i]);
    }
    forall n | n in t.credentials ensures exists c :: c in req.credentials && TrimSpace(c.name) == n {
      var i := CameFrom(req.credentials, CredentialAt(1), n);
      CredentialName(req.credentials[i], 1);
    }
  }

  lemma CredentialName(c: Credential, revision: int)
    requires CredentialAt(revision)(c).Some?
    ensures CredentialAt(revision)(c).value.0 == TrimSpace(c.name)
  {
    hide TrimSpace;
  }

  lemma AddedToNothing<R, T(!new)>(xs: seq<R>, norm: Normalizer<R, T>)
    requires Mutated(map[], Mutation([], [], xs), norm).Some?
    ensures
      var r := Mutated(map[], Mutation([], [], xs), norm).value;
      && NormalizeEach(xs, norm).Some?
      && (forall e :: e in NormalizeEach(xs, norm).value ==> e.0 in r && r[e.0] == e.1)
      && (forall n :: n in r ==> n in Names(NormalizeEach(xs, norm).value))
  {
    hide NormalizeEach, Overlay, Distinct, TrimEach;
    MutatedFacts(map[], Mutation([], [], xs), norm);
  }

  lemma CameFrom<R, T(!new)>(xs: seq<R>, norm: Normalizer<R, T>, n: string) returns (i: nat)
    requires NormalizeEach(xs, norm).Some? && n in Names(NormalizeEach(xs, norm).value)
    ensures i < |xs| && norm(xs[i]).Some? && norm(xs[i]).value.0 == n
  {
    hide NormalizeEach;
    var es := NormalizeEach(xs, norm).value;
    i :| 0 <= i < |es| && Names(es)[i] == n;
  }

  /** After an accepted Patch every entry replaced or added stands for the one asked; what was not
      mentioned is as it was (PatchIsExact). */
  lemma PatchStores(s: State, req: PatchRequest, policy: Policy)
    requires Patched(s, req, policy).1 == None
    ensures
      var t := Patched(s, req, policy).0;
      && t.live && t.revision == s.revision + 1 && t.authority == s.authority && t.lost == s.lost
      && Holds(t.bindings, req.bindings.replace) && Holds(t.bindings, req.bindings.add)
      && Keeps(t.credentials, req.credentials.replace, t.revision) && Keeps(t.credentials, req.credentials.add, t.revision)
  {
    hide Mutated, Check, CredentialAt, NamedBinding, Holds, Keeps, TrimSpace, NormalizeEach;
    PatchIsExact(s, req, policy);
    var t := Patched(s, req, policy).0;
    ListHolds(t.bindings, req.bindings.replace);
    ListHolds(t.bindings, req.bindings.add);
    ListKeeps(t.credentials, req.credentials.replace, t.revision);
    ListKeeps(t.credentials, req.credentials.add, t.revision);
  }

  // -------------------------------------------------------------------------
  // What is well formed

  lemma EachIffAll<A, B>(xs: seq<A>, norm: A -> Option<B>)
    ensures NormalizeEach(xs, norm).Some? <==> forall x :: x in xs ==> norm(x).Some?
  {
    hide NormalizeEach;
    if NormalizeEach(xs, norm).Some? {
      EachHasNorm(xs, norm);
    } else {
      var i :| 0 <= i < |xs| && norm(xs[i]).None?;
      assert xs[i] in xs;
    }
  }

  /** A match is accepted if and only if it names a host, every host is a name or a wildcard over one,
      schemes are https or http, ports theirs, methods not blank and paths begin with a slash. */
  lemma MatchAcceptedIff(m: Match)
    ensures NormalizeMatch(m).Some? <==>
      && m.hosts != [] && (forall x :: x in m.hosts ==> NormalizeHost(x).Some?)
      && (forall x :: x in m.schemes ==> Lower(TrimSpace(x)) == "https" || Lower(TrimSpace(x)) == "http")
      && (forall p :: p in m.ports ==> p == 80 || p == 443)
      && (forall x :: x in m.methods ==> TrimSpace(x) != "")
      && (forall x :: x in m.paths ==> "/" <= TrimSpace(x))
  {
    hide NormalizeEach, WithoutRepeats, TrimSpace, Lower, NormalizeHost;
    DefaultsStand();
    EachIffAll(m.hosts, NormalizeHost);
    EachIffAll(OrDefault(m.schemes, DEFAULT_SCHEMES), NormalizeScheme);
    EachIffAll(OrDefault(m.methods, DEFAULT_METHODS), NormalizeMethod);
    EachIffAll(OrDefault(m.paths, DEFAULT_PATHS), NormalizePath);
    forall x ensures NormalizeMethod(x).Some? <==> TrimSpace(x) != "" {
      assert |Upper(TrimSpace(x))| == |TrimSpace(x)|;
    }
  }

  /** A label of a name, as section 2.3.1 of RFC 1035 has it, underscores allowed and digits first. */
  predicate LabelFormed(l: string) {
    && 1 <= |l| <= 63 && IsAlnum(l[0]) && IsAlnum(l[|l| - 1])
    && forall i :: 0 <= i < |l| ==> IsAlnum(l[i]) || l[i] == '-' || l[i] == '_'
  }

  /** A host is accepted if and only if, trimmed, without a final dot and in lower case, it is a name of
      two labels or more, or a wildcard over one. */
  lemma HostAcceptedIff(x: string)
    ensures NormalizeHost(x).Some? <==>
      var host := Lower(TrimSuffix(TrimSpace(x), "."));
      var name := if "*." <= host then host[2..] else host;
      '.' in name && |name| <= 253 && forall l :: l in Split(name, '.') ==> LabelFormed(l)
  {
    hide TrimSpace, Lower, TrimSuffix, Split;
    var host := Lower(TrimSuffix(TrimSpace(x), "."));
    var name := if "*." <= host then host[2..] else host;
    assert forall l :: LabelFormed(l) <==> IsLabel(l);
    if '.' in name && |name| <= 253 && forall l :: l in Split(name, '.') ==> LabelFormed(l) {
      LabelsArePlain(name);
      hide IsLabel;
      forall c | c in host ensures c !in "/:@ " {
        var i :| 0 <= i < |host| && host[i] == c;
        assert host == name || (host == "*." + name && (i >= 2 ==> c == name[i - 2]));
      }
      assert '*' !in name;
    }
  }

  ghost predicate SubstitutionFormed(s: Substitution) {
    && TrimSpace(s.credential) != "" && s.placeholder != "" && s.surfaces != []
    && forall x :: x in s.surfaces ==> Lower(TrimSpace(x)) in ["path", "query", "header", "body"]
  }

  /** An auth is accepted if and only if it has a kind, what that kind needs and nothing it must not
      have, and substitutions that say what to replace, with what and where, each once. */
  lemma AuthAcceptedIff(a: Auth)
    ensures
      var kind, credential := TrimSpace(a.kind), TrimSpace(a.credential);
      NormalizeAuth(a).Some? <==>
        && (|| (kind in ["bearer", "basic"] && credential != "")
            || (kind == "apiKey" && credential != "" && UsableHeader(CanonicalHeader(TrimSpace(a.name))))
            || (kind == "customHeaders" && a.headers != []
                && (forall h :: h in a.headers ==> UsableHeader(CanonicalHeader(TrimSpace(h.name))) && TrimSpace(h.credential) != "")
                && (forall i, j :: 0 <= i < j < |a.headers| ==> !SameName(a.headers[i], a.headers[j])))
            || (kind == "passthrough" && credential == "" && TrimSpace(a.name) == "" && a.headers == []))
        && (forall s :: s in a.substitutions ==> SubstitutionFormed(s))
        && (NormalizeEach(a.substitutions, NormalizeSubstitution).Some? ==>
              OneValueEach(NormalizeEach(a.substitutions, NormalizeSubstitution).value))
  {
    hide TrimSpace, CanonicalHeader, UsableHeader, NormalizeEach, Lower, OneValueEach, SameName;
    EachIffAll(a.substitutions, NormalizeSubstitution);
    forall s ensures NormalizeSubstitution(s).Some? <==> SubstitutionFormed(s) {
      SubstitutionFormedIff(s);
    }
    hide NormalizeSubstitution, SubstitutionFormed;
    HeadersAcceptedIff(a.headers);
  }

  lemma SubstitutionFormedIff(s: Substitution)
    ensures NormalizeSubstitution(s).Some? <==> SubstitutionFormed(s)
  {
    hide TrimSpace, NormalizeEach, Lower;
    EachIffAll(s.surfaces, NormalizeSurface);
  }

  ghost predicate SameName(h: HeaderEntry, k: HeaderEntry) {
    Lower(TrimSpace(h.name)) == Lower(TrimSpace(k.name))
  }

  lemma HeadersAcceptedIff(hs: seq<HeaderEntry>)
    ensures
      var ns := NormalizeEach(hs, NormalizeHeader);
      (ns.Some? && HeadersDiffer(ns.value)) <==>
        && (forall h :: h in hs ==> UsableHeader(CanonicalHeader(TrimSpace(h.name))) && TrimSpace(h.credential) != "")
        && (forall i, j :: 0 <= i < j < |hs| ==> !SameName(hs[i], hs[j]))
  {
    hide TrimSpace, CanonicalHeader, UsableHeader, NormalizeEach, Lower;
    EachIffAll(hs, NormalizeHeader);
    var ns := NormalizeEach(hs, NormalizeHeader);
    if ns.Some? {
      forall i | 0 <= i < |hs| ensures Lower(ns.value[i].name) == Lower(TrimSpace(hs[i].name)) {
        HeaderKeepsItsLetters(TrimSpace(hs[i].name));
      }
    }
  }

  /** A credential is accepted if and only if it is named, inline and has a value. */
  lemma CredentialAcceptedIff(c: Credential, revision: int)
    ensures CredentialAt(revision)(c).Some? <==> TrimSpace(c.name) != "" && TrimSpace(c.sourceType) == "inline" && c.value != ""
  {
    hide TrimSpace;
  }

  /** No binding may set a header that frames the message or says where it goes. */
  lemma FramingHeadersAreRefused(name: string)
    requires Lower(name) in ["host", "content-length", "content-type", "transfer-encoding", "connection", "upgrade", "te", "trailer",
                             "proxy-authorization", "proxy-authenticate", "forwarded", "x-forwarded-for", "x-forwarded-host", "x-forwarded-proto"]
    ensures !UsableHeader(CanonicalHeader(name))
  {
    hide Lower;
    HeaderKeepsItsLetters(name);
  }
}
