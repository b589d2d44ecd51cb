/**
 What a binding adds to a request: the auth rules a write has to meet (normalizeAuth and
 normalizeSubstitutions in internal/credvault/validate.go) and what applying one does
 (applyAuth and substitute in internal/credvault/apply.go).
 */
module AuthRules {
  import opened Text
  import opened Bindings

  datatype Kind = BearerKind | BasicKind | ApiKeyKind | CustomHeadersKind | PassthroughKind | UnknownKind

  function KindOf(kind: string): Kind {
    if kind == "bearer" then BearerKind
    else if kind == "basic" then BasicKind
    else if kind == "apiKey" then ApiKeyKind
    else if kind == "customHeaders" then CustomHeadersKind
    else if kind == "passthrough" then PassthroughKind
    else UnknownKind
  }

  predicate KnownKind(kind: string) {
    !KindOf(kind).UnknownKind?
  }

  predicate IsTokenChar(c: char) {
    IsAlnum(c) || c in "!#$%&'*+-.^_`|~"
  }

  predicate IsToken(s: string) {
    s != "" && forall i :: 0 <= i < |s| ==> IsTokenChar(s[i])
  }

  predicate IsReserved(header: string) {
    Lower(header) in {
      "host", "content-length", "content-type", "transfer-encoding", "connection", "upgrade",
      "te", "trailer", "proxy-authorization", "proxy-authenticate", "forwarded",
      "x-forwarded-for", "x-forwarded-host", "x-forwarded-proto"}
  }

  /** A header name as net/http spells it: upper case at the start and after each dash. */
  function CanonicalHeader(name: string): string {
    if !IsToken(name) then name
    else seq(|name|, i requires 0 <= i < |name| =>
               if i == 0 || name[i - 1] == '-' then UpperChar(name[i]) else LowerChar(name[i]))
  }

  predicate UsableHeader(name: string) {
    IsToken(name) && !IsReserved(name)
  }

  function NormalizeHeader(h: HeaderEntry): Option<HeaderEntry> {
    var name, credential := CanonicalHeader(TrimSpace(h.name)), TrimSpace(h.credential);
    if UsableHeader(name) && credential != "" then Some(HeaderEntry(name, credential)) else None
  }

  function NormalizeSurface(raw: string): Option<string> {
    var s := Lower(TrimSpace(raw));
    if s in {"path", "query", "header", "body"} then Some(s) else None
  }

  function NormalizeSubstitution(s: Substitution): Option<Substitution> {
    var credential, surfaces := TrimSpace(s.credential), NormalizeEach(s.surfaces, NormalizeSurface);
    if credential == "" || s.placeholder == "" || s.surfaces == [] || surfaces.None? then None
    else Some(Substitution(credential, s.placeholder, surfaces.value))
  }

  /** A placeholder is replaced by at most one value on each surface. */
  predicate OneValueEach(subs: seq<Substitution>) {
    && (forall i :: 0 <= i < |subs| ==>
          forall k, l :: 0 <= k < l < |subs[i].surfaces| ==> subs[i].surfaces[k] != subs[i].surfaces[l])
    && (forall i, j :: 0 <= i < j < |subs| && subs[i].placeholder == subs[j].placeholder ==>
          forall s :: s in subs[i].surfaces ==> s !in subs[j].surfaces)
  }

  predicate HeadersDiffer(hs: seq<HeaderEntry>) {
    forall i, j :: 0 <= i < j < |hs| ==> Lower(hs[i].name) != Lower(hs[j].name)
  }

  /** The part of an auth its kind decides, before the substitutions. */
  function NormalizeKind(a: Auth): Option<Auth> {
    var kind, credential := TrimSpace(a.kind), TrimSpace(a.credential);
    match KindOf(kind)
    case BearerKind => if credential == "" then None else Some(a.(kind := kind, credential := credential))
    case BasicKind => if credential == "" then None else Some(a.(kind := kind, credential := credential))
    case ApiKeyKind =>
      var name := CanonicalHeader(TrimSpace(a.name));
      if !UsableHeader(name) || credential == "" then None
      else Some(a.(kind := kind, name := name, credential := credential))
    case CustomHeadersKind =>
      var headers := NormalizeEach(a.headers, NormalizeHeader);
      if a.headers == [] || headers.None? || !HeadersDiffer(headers.value) then None
      else Some(a.(kind := kind, headers := headers.value))
    case PassthroughKind =>
      if credential != "" || TrimSpace(a.name) != "" || a.headers != [] then None
      else Some(a.(kind := kind))
    case UnknownKind => None
  }

  function NormalizeAuth(a: Auth): Option<Auth> {
    var b, subs := NormalizeKind(a), NormalizeEach(a.substitutions, NormalizeSubstitution);
    if b.None? || subs.None? || !OneValueEach(subs.value) then None
    else Some(b.value.(substitutions := subs.value))
  }

  lemma NormalKindIsKnown(a: Auth)
    requires NormalizeAuth(a).Some?
    ensures KnownKind(NormalizeAuth(a).value.kind)
  {
    hide NormalizeEach, TrimSpace, CanonicalHeader, UsableHeader, KindOf, OneValueEach, HeadersDiffer;
  }

  function NormalizeBinding(b: Binding): Option<Binding> {
    var name, covers, auth := TrimSpace(b.name), NormalizeMatch(b.covers), NormalizeAuth(b.auth);
    if name == "" || covers.None? || auth.None? then None else Some(Binding(name, covers.value, auth.value))
  }

  // -------------------------------------------------------------------------
  // Applying an auth

  /** The credentials an auth's kind refers to. */
  function KindCredentials(a: Auth): seq<string> {
    match KindOf(a.kind)
    case CustomHeadersKind => HeaderCredentials(a.headers)
    case PassthroughKind => []
    case UnknownKind => []
    case _ => [a.credential]
  }

  function HeaderCredentials(hs: seq<HeaderEntry>): seq<string> {
    seq(|hs|, i requires 0 <= i < |hs| => hs[i].credential)
  }

  function SubstitutionCredentials(ss: seq<Substitution>): seq<string> {
    seq(|ss|, i requires 0 <= i < |ss| => ss[i].credential)
  }

  /** Every credential name an auth refers to, as the write path collects them. */
  function CredentialsOf(a: Auth): seq<string> {
    KindCredentials(a) + SubstitutionCredentials(a.substitutions)
  }

  /** How a credential's value is written: as it is, or behind a scheme name (basic encodes it). */
  datatype Encoding = Plain | Bearer | Basic
  datatype Write = Header(name: string, encoding: Encoding, value: string)
                 | Replacement(placeholder: string, surfaces: seq<string>, value: string)

  datatype AuthResult = Writes(writes: seq<Write>) | NoSuchCredential | UnknownAuthType

  /** The value held under a name. */
  function Reveal(values: map<string, string>, name: string): Option<string> {
    if name in values then Some(values[name]) else None
  }

  function HeaderWrites(values: map<string, string>, hs: seq<HeaderEntry>): AuthResult {
    if hs == [] then Writes([])
    else
      var value := Reveal(values, hs[0].credential);
      if value.None? then NoSuchCredential
      else
        var rest := HeaderWrites(values, hs[1..]);
        if rest.Writes? then Writes([Header(hs[0].name, Plain, value.value)] + rest.writes) else rest
  }

  function SubstitutionWrites(values: map<string, string>, ss: seq<Substitution>): AuthResult {
    if ss == [] then Writes([])
    else
      var value := Reveal(values, ss[0].credential);
      if value.None? then NoSuchCredential
      else
        var rest := SubstitutionWrites(values, ss[1..]);
        if rest.Writes? then Writes([Replacement(ss[0].placeholder, ss[0].surfaces, value.value)] + rest.writes)
        else rest
  }

  /** The headers an auth's kind sets. */
  function KindWrites(values: map<string, string>, a: Auth): AuthResult {
    var value := Reveal(values, a.credential);
    match KindOf(a.kind)
    case BearerKind =>
      if value.None? then NoSuchCredential else Writes([Header("Authorization", Bearer, value.value)])
    case BasicKind =>
      if value.None? then NoSuchCredential else Writes([Header("Authorization", Basic, value.value)])
    case ApiKeyKind =>
      if value.None? then NoSuchCredential else Writes([Header(a.name, Plain, value.value)])
    case CustomHeadersKind => HeaderWrites(values, a.headers)
    case PassthroughKind => Writes([])
    case UnknownKind => UnknownAuthType
  }

  function ApplyAuth(values: map<string, string>, a: Auth): AuthResult {
    var first := KindWrites(values, a);
    if !first.Writes? then first
    else
      var rest := SubstitutionWrites(values, a.substitutions);
      if rest.Writes? then Writes(first.writes + rest.writes) else rest
  }

  /** A list of writes in step with the credentials they came from. */
  ghost predicate InStep(r: AuthResult, values: map<string, string>, names: seq<string>) {
    && !r.UnknownAuthType?
    && (r.Writes? <==> forall c :: c in names ==> c in values)
    && (r.Writes? ==> |r.writes| == |names| && forall i :: 0 <= i < |names| ==> r.writes[i].value == values[names[i]])
  }

  lemma {:induction false} HeadersResolve(values: map<string, string>, hs: seq<HeaderEntry>)
    ensures InStep(HeaderWrites(values, hs), values, HeaderCredentials(hs))
  {
    if hs != [] {
      HeadersResolve(values, hs[1..]);
      assert HeaderCredentials(hs) == [hs[0].credential] + HeaderCredentials(hs[1..]);
    }
  }

  lemma {:induction false} SubstitutionsResolve(values: map<string, string>, ss: seq<Substitution>)
    ensures InStep(SubstitutionWrites(values, ss), values, SubstitutionCredentials(ss))
  {
    if ss != [] {
      SubstitutionsResolve(values, ss[1..]);
      assert SubstitutionCredentials(ss) == [ss[0].credential] + SubstitutionCredentials(ss[1..]);
    }
  }

  lemma KindResolves(values: map<string, string>, a: Auth)
    requires KnownKind(a.kind)
    ensures InStep(KindWrites(values, a), values, KindCredentials(a))
  {
    hide HeaderWrites, KindOf;
    HeadersResolve(values, a.headers);
  }

  /** An auth of a known kind can be applied exactly when every credential the write path collected
      for it is held, and then the i-th value written is the i-th collected credential's. */
  lemma ApplyResolves(values: map<string, string>, a: Auth)
    requires KnownKind(a.kind)
    ensures InStep(ApplyAuth(values, a), values, CredentialsOf(a))
  {
    hide KindWrites, SubstitutionWrites, KindCredentials, SubstitutionCredentials;
    KindResolves(values, a);
    SubstitutionsResolve(values, a.substitutions);
  }

  // -------------------------------------------------------------------------
  // What exactly is written

  /** The credential is held, and this is the header it goes into. */
  ghost predicate Carries(values: map<string, string>, w: Write, name: string, encoding: Encoding, credential: string) {
    credential in values && w == Header(name, encoding, values[credential])
  }

  /** The headers an auth sets, told by its own strings. */
  ghost predicate HeadersShow(values: map<string, string>, a: Auth, ws: seq<Write>) {
    && (a.kind == "bearer" ==> |ws| == 1 && Carries(values, ws[0], "Authorization", Bearer, a.credential))
    && (a.kind == "basic" ==> |ws| == 1 && Carries(values, ws[0], "Authorization", Basic, a.credential))
    && (a.kind == "apiKey" ==> |ws| == 1 && Carries(values, ws[0], a.name, Plain, a.credential))
    && (a.kind == "customHeaders" ==> |ws| == |a.headers| && forall i :: 0 <= i < |ws| ==>
          Carries(values, ws[i], a.headers[i].name, Plain, a.headers[i].credential))
    && (a.kind == "passthrough" ==> ws == [])
  }

  ghost predicate ReplacementsShow(values: map<string, string>, ss: seq<Substitution>, ws: seq<Write>) {
    |ws| == |ss| && forall k :: 0 <= k < |ss| ==>
      ss[k].credential in values && ws[k] == Replacement(ss[k].placeholder, ss[k].surfaces, values[ss[k].credential])
  }

  /** First the headers, then the replacements, each as the auth declares it. */
  ghost predicate Shows(values: map<string, string>, a: Auth, ws: seq<Write>) {
    exists n: nat :: n <= |ws| && HeadersShow(values, a, ws[..n]) && ReplacementsShow(values, a.substitutions, ws[n..])
  }

  lemma {:induction false} CustomHeadersShow(values: map<string, string>, hs: seq<HeaderEntry>, i: nat)
    requires HeaderWrites(values, hs).Writes?
    ensures |HeaderWrites(values, hs).writes| == |hs|
    ensures i < |hs| ==> Carries(values, HeaderWrites(values, hs).writes[i], hs[i].name, Plain, hs[i].credential)
    decreases |hs|
  {
    if hs != [] {
      CustomHeadersShow(values, hs[1..], if i > 0 then i - 1 else 0);
    }
  }

  lemma {:induction false} SubstitutionsShow(values: map<string, string>, ss: seq<Substitution>)
    requires SubstitutionWrites(values, ss).Writes?
    ensures ReplacementsShow(values, ss, SubstitutionWrites(values, ss).writes)
    decreases |ss|
  {
    if ss != [] {
      SubstitutionsShow(values, ss[1..]);
      var ws := SubstitutionWrites(values, ss).writes;
      forall k | 0 <= k < |ss|
        ensures ss[k].credential in values && ws[k] == Replacement(ss[k].placeholder, ss[k].surfaces, values[ss[k].credential])
      {
        assert k > 0 ==> ss[k] == ss[1..][k - 1];
      }
    }
  }

  lemma KindShows(values: map<string, string>, a: Auth)
    requires KindWrites(values, a).Writes?
    ensures HeadersShow(values, a, KindWrites(values, a).writes)
  {
    hide HeaderWrites;
    if a.kind == "customHeaders" {
      CustomHeadersShow(values, a.headers, 0);
      forall i | 0 <= i < |a.headers|
        ensures Carries(values, KindWrites(values, a).writes[i], a.headers[i].name, Plain, a.headers[i].credential)
      {
        CustomHeadersShow(values, a.headers, i);
      }
    }
  }

  /** Applying an auth writes what it declares: a bearer or basic credential in Authorization, an API
      key in the header it names, custom headers each in its own, nothing for passthrough; and then
      every substitution with its own placeholder and surfaces. */
  lemma AppliesAsDeclared(values: map<string, string>, a: Auth)
    requires ApplyAuth(values, a).Writes?
    ensures KnownKind(a.kind) && Shows(values, a, ApplyAuth(values, a).writes)
  {
    hide HeaderWrites, SubstitutionWrites, HeadersShow, ReplacementsShow;
    KindShows(values, a);
    SubstitutionsShow(values, a.substitutions);
    var first, rest := KindWrites(values, a).writes, SubstitutionWrites(values, a.substitutions).writes;
    var ws := ApplyAuth(values, a).writes;
    assert ws == first + rest;
    assert ws[..|first|] == first && ws[|first|..] == rest;
  }
}
