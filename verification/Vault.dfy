/**
 One sandbox's credential vault (internal/credvault/vault.go and apply.go): Create, Patch and
 Delete change it, Apply and Bound read it on every request. What the write path checks is shown
 to make the request path's own refusals unreachable, over every run.
 */
module Vault {
  import opened Text
  import opened Bindings
  import opened Overlap
  import opened AuthRules
  import opened Authority
  import opened Mutations

  datatype Credential = Credential(name: string, sourceType: string, value: string)
  datatype Record = Record(name: string, value: string, revision: int)

  datatype CreateRequest = CreateRequest(credentials: seq<Credential>, bindings: seq<Binding>)
  datatype PatchRequest = PatchRequest(expectedRevision: Option<int>, credentials: Mutation<Credential>,
                                       bindings: Mutation<Binding>)

  /** The egress policy in force when a write happens: which names it allows, or None where the
      sandbox has no filter. */
  type Policy = Option<string -> bool>

  datatype Failure = Invalid | NotReady | NotFound | AlreadyExists | WrongRevision | AuthorityLost

  /** authority is what the sandbox's authority is constrained to, if it has one; lost says the
      sandbox trusts an authority this daemon does not hold. */
  datatype State = State(live: bool, revision: int, credentials: map<string, Record>,
                         bindings: map<string, Binding>, authority: Option<seq<string>>, lost: bool)

  function NormalizeCredential(c: Credential, revision: int): Option<(string, Record)> {
    var name := TrimSpace(c.name);
    if name == "" || TrimSpace(c.sourceType) != "inline" || c.value == "" then None
    else Some((name, Record(name, c.value, revision)))
  }

  function CredentialAt(revision: int): Normalizer<Credential, Record> {
    c => NormalizeCredential(c, revision)
  }

  function NamedBinding(b: Binding): Option<(string, Binding)> {
    var n := NormalizeBinding(b);
    if n.None? then None else Some((n.value.name, n.value))
  }

  // -------------------------------------------------------------------------
  // What a candidate vault has to meet

  predicate Resolved(credentials: map<string, Record>, bindings: map<string, Binding>) {
    forall n :: n in bindings ==> forall c :: c in CredentialsOf(bindings[n].auth) ==> c in credentials
  }

  function ProbeOf(host: string): string {
    if IsWild(host) then Probe(host[2..]) else host
  }

  predicate Allowed(bindings: map<string, Binding>, allows: string -> bool) {
    forall n :: n in bindings ==> forall h :: h in bindings[n].covers.hosts ==> allows(ProbeOf(h))
  }

  /** Each pair is tested once, in name order. */
  predicate Separate(bindings: map<string, Binding>) {
    forall a, b :: a in bindings && b in bindings && Before(a, b) ==>
                     BindingsOverlap(bindings[a].covers, bindings[b].covers).None?
  }

  predicate Certifiable(authority: Option<seq<string>>, bindings: map<string, Binding>) {
    bindings == map[] ||
    (authority.Some? &&
     forall n :: n in bindings ==>
                   forall h :: h in bindings[n].covers.hosts ==> CoveredBy(authority.value, CanonicalName(ProbeOf(h))))
  }

  function Check(s: State, credentials: map<string, Record>, bindings: map<string, Binding>, policy: Policy): Option<Failure> {
    if s.lost then Some(AuthorityLost)
    else if !Resolved(credentials, bindings) then Some(Invalid)
    else if bindings != map[] && policy.None? then Some(NotReady)
    else if bindings != map[] && !Allowed(bindings, policy.value) then Some(Invalid)
    else if !Separate(bindings) || !Certifiable(s.authority, bindings) then Some(Invalid)
    else None
  }

  // -------------------------------------------------------------------------
  // The three writes, and the end of the vault

  datatype Op = Create(create: CreateRequest, policy: Policy)
              | Patch(patch: PatchRequest, policy: Policy)
              | Delete
              | Close

  function Emptied(s: State): State {
    s.(live := false, revision := 0, credentials := map[], bindings := map[])
  }

  ghost function Created(s: State, req: CreateRequest, policy: Policy): (State, Option<Failure>) {
    var credentials := Mutated(map[], Mutation([], [], req.credentials), CredentialAt(1));
    var bindings := Mutated(map[], Mutation([], [], req.bindings), NamedBinding);
    if s.live then (s, Some(AlreadyExists))
    else if credentials.None? || bindings.None? then (s, Some(Invalid))
    else
      var refusal := Check(s, credentials.value, bindings.value, policy);
      if refusal.Some? then (s, refusal)
      else (s.(live := true, revision := 1, credentials := credentials.value, bindings := bindings.value), None)
  }

  ghost function Patched(s: State, req: PatchRequest, policy: Policy): (State, Option<Failure>) {
    var next := s.revision + 1;
    var credentials := Mutated(s.credentials, req.credentials, CredentialAt(next));
    var bindings := Mutated(s.bindings, req.bindings, NamedBinding);
    if !s.live then (s, Some(NotFound))
    else if req.expectedRevision.Some? && req.expectedRevision.value != s.revision then (s, Some(WrongRevision))
    else if credentials.None? || bindings.None? then (s, Some(Invalid))
    else
      var refusal := Check(s, credentials.value, bindings.value, policy);
      if refusal.Some? then (s, refusal)
      else (s.(revision := next, credentials := credentials.value, bindings := bindings.value), None)
  }

  ghost function Step(s: State, op: Op): (State, Option<Failure>) {
    match op
    case Create(req, policy) => Created(s, req, policy)
    case Patch(req, policy) => Patched(s, req, policy)
    case Delete => if s.live then (Emptied(s), None) else (s, Some(NotFound))
    case Close => (Emptied(s).(authority := None), None)
  }

  ghost function Run(s: State, ops: seq<Op>): State
    decreases |ops|
  {
    if ops == [] then s else Run(Step(s, ops[0]).0, ops[1..])
  }

  /** A vault as it is opened, with the authority its sandbox was given, if any. */
  function Opened(authority: Option<seq<string>>, lost: bool): State {
    State(false, 0, map[], map[], authority, lost)
  }

  // -------------------------------------------------------------------------
  // Reading: which binding a request gets

  datatype Outcome = NoBinding | AmbiguousBinding | MissingCredential | UnknownType
                   | Sent(binding: string, writes: seq<Write>)

  function Values(credentials: map<string, Record>): map<string, string> {
    map n | n in credentials :: credentials[n].value
  }

  ghost function Matched(s: State, r: Request): set<string> {
    set n | n in s.bindings && Matches(s.bindings[n].covers, r)
  }

  function WithBinding(credentials: map<string, Record>, b: Binding): Outcome {
    match ApplyAuth(Values(credentials), b.auth)
    case Writes(ws) => Sent(b.name, ws)
    case NoSuchCredential => MissingCredential
    case UnknownAuthType => UnknownType
  }

  ghost function Applied(s: State, r: Request): Outcome {
    if !s.live || |Matched(s, r)| == 0 then NoBinding
    else if |Matched(s, r)| > 1 then AmbiguousBinding
    else
      var n :| n in Matched(s, r);
      WithBinding(s.credentials, s.bindings[n])
  }

  function SchemeForPort(port: string): Option<string> {
    if port == "443" then Some("https") else if port == "80" then Some("http") else None
  }

  ghost predicate Bound(s: State, host: string, port: string) {
    && s.live && SchemeForPort(port).Some?
    && exists n :: n in s.bindings && SchemeForPort(port).value in s.bindings[n].covers.schemes
                   && MatchesHost(s.bindings[n].covers.hosts, CanonicalName(host))
  }

  // -------------------------------------------------------------------------
  // The vault as the source holds it: fields changed in place, a candidate built before the swap

  class CredentialVault {
    var live: bool
    var revision: int
    var credentials: map<string, Record>
    var bindings: map<string, Binding>
    var ca: CertificateAuthority?
    const lost: bool

    function Value(): State
      reads this
    {
      State(live, revision, credentials, bindings, if ca == null then None else Some(ca.hosts), lost)
    }

    /** The authority a vault holds can sign: it is destroyed only as the vault gives it up. */
    ghost predicate Valid()
      reads this, ca
    {
      ca != null ==> ca.Valid() && !ca.destroyed
    }

    constructor (ca: CertificateAuthority?, lost: bool)
      requires ca != null ==> ca.Valid() && !ca.destroyed
      ensures Valid() && this.ca == ca && Value() == Opened(if ca == null then None else Some(ca.hosts), lost)
    {
      live, revision, credentials, bindings := false, 0, map[], map[];
      this.ca, this.lost := ca, lost;
    }

    method CreateVault(req: CreateRequest, policy: Policy) returns (failed: Option<Failure>)
      requires Valid()
      modifies this
      ensures Valid() && ca == old(ca)
      ensures (Value(), failed) == Created(old(Value()), req, policy)
    {
      hide Mutated, Check, CredentialAt, NamedBinding;
      if live {
        return Some(AlreadyExists);
      }
      var cs := Mutations.Apply(map[], Mutation([], [], req.credentials), CredentialAt(1));
      if cs.None? {
        return Some(Invalid);
      }
      var bs := Mutations.Apply(map[], Mutation([], [], req.bindings), NamedBinding);
      if bs.None? {
        return Some(Invalid);
      }
      failed := Check(Value(), cs.value, bs.value, policy);
      if failed.None? {
        live, revision, credentials, bindings := true, 1, cs.value, bs.value;
      }
    }

    method PatchVault(req: PatchRequest, policy: Policy) returns (failed: Option<Failure>)
      requires Valid()
      modifies this
      ensures Valid() && ca == old(ca)
      ensures (Value(), failed) == Patched(old(Value()), req, policy)
    {
      hide Mutated, Check, CredentialAt, NamedBinding;
      if !live {
        return Some(NotFound);
      }
      if req.expectedRevision.Some? && req.expectedRevision.value != revision {
        return Some(WrongRevision);
      }
      var next := revision + 1;
      var cs := Mutations.Apply(credentials, req.credentials, CredentialAt(next));
      if cs.None? {
        return Some(Invalid);
      }
      var bs := Mutations.Apply(bindings, req.bindings, NamedBinding);
      if bs.None? {
        return Some(Invalid);
      }
      failed := Check(Value(), cs.value, bs.value, policy);
      if failed.None? {
        revision, credentials, bindings := next, cs.value, bs.value;
      }
    }

    /** The authority outlives the vault's contents: the sandbox goes on trusting it. */
    method DeleteVault() returns (failed: Option<Failure>)
      requires Valid()
      modifies this
      ensures Valid() && ca == old(ca)
      ensures (Value(), failed) == Step(old(Value()), Delete)
    {
      if !live {
        return Some(NotFound);
      }
      live, revision, credentials, bindings := false, 0, map[], map[];
      return None;
    }

    /** The vault is emptied and its authority destroyed: whoever still holds that can sign nothing. */
    method CloseVault()
      requires Valid()
      modifies this, ca
      ensures Valid() && Value() == Step(old(Value()), Close).0
      ensures var was := old(ca); was != null ==> was.destroyed && was.leaves == {}
    {
      if ca != null {
        ca.Destroy();
      }
      live, revision, credentials, bindings, ca := false, 0, map[], map[], null;
    }

    /** The names of the bindings a request matches, one by one. */
    method ApplyTo(r: Request) returns (o: Outcome)
      ensures o == Applied(Value(), r)
    {
      hide Matches, WithBinding;
      if !live {
        return NoBinding;
      }
      var matched: set<string>, todo := {}, bindings.Keys;
      while todo != {}
        invariant todo <= bindings.Keys
        invariant matched == Matched(Value(), r) - todo
        decreases |todo|
      {
        var name :| name in todo;
        todo := todo - {name};
        if Matches(bindings[name].covers, r) {
          matched := matched + {name};
        }
      }
      assert matched == Matched(Value(), r);
      if |matched| == 0 {
        return NoBinding;
      }
      if |matched| > 1 {
        return AmbiguousBinding;
      }
      var name :| name in matched;
      OneMember(matched, name);
      return WithBinding(credentials, bindings[name]);
    }

    /** leafFor: what the filter presents as a host, or None where there is no vault or authority. */
    method LeafFor(host: string) returns (r: Option<LeafOutcome>)
      requires Valid()
      modifies ca
      ensures Valid()
      ensures r.None? <==> !live || ca == null
      ensures r.Some? ==> r.value == if CoveredBy(ca.hosts, CanonicalName(host)) then Signed(CanonicalName(host)) else Refused
    {
      if !live || ca == null {
        return None;
      }
      var leaf := ca.Leaf(host);
      return Some(leaf);
    }

    /** Bound, binding by binding until one covers the host on the port's scheme. */
    method IsBound(host: string, port: string) returns (bound: bool)
      ensures bound == Bound(Value(), host, port)
    {
      hide MatchesHost, CanonicalName;
      var scheme := SchemeForPort(port);
      if scheme.None? {
        return false;
      }
      var name := CanonicalName(host);
      if !live {
        return false;
      }
      var todo := bindings.Keys;
      while todo != {}
        invariant todo <= bindings.Keys
        invariant forall n :: n in bindings && n !in todo ==>
                                !(scheme.value in bindings[n].covers.schemes && MatchesHost(bindings[n].covers.hosts, name))
        decreases |todo|
      {
        var n :| n in todo;
        todo := todo - {n};
        if scheme.value in bindings[n].covers.schemes && MatchesHost(bindings[n].covers.hosts, name) {
          return true;
        }
      }
      return false;
    }
  }

  lemma OneMember(xs: set<string>, x: string)
    requires |xs| == 1 && x in xs
    ensures forall y :: y in xs ==> y == x
  {
    assert |xs - {x}| == 0;
  }
}
