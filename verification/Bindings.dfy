/**
 Credential bindings: the normal form internal/credvault/validate.go brings the hosts, schemes,
 methods and paths of one into, in place, and that it fixes what it has normalized.
 */
module Bindings {
  import opened Text

  datatype Match = Match(schemes: seq<string>, ports: seq<int>, hosts: seq<string>,
                         methods: seq<string>, paths: seq<string>)
  datatype HeaderEntry = HeaderEntry(name: string, credential: string)
  datatype Substitution = Substitution(credential: string, placeholder: string, surfaces: seq<string>)
  datatype Auth = Auth(kind: string, credential: string, name: string,
                       headers: seq<HeaderEntry>, substitutions: seq<Substitution>)
  datatype Binding = Binding(name: string, covers: Match, auth: Auth)

  // -------------------------------------------------------------------------
  // Normal forms of the entries of a match

  predicate IsAlnum(c: char) {
    'a' <= c <= 'z' || 'A' <= c <= 'Z' || '0' <= c <= '9'
  }

  predicate IsLabelChar(c: char) {
    IsAlnum(c) || c == '-' || c == '_'
  }

  predicate IsLabel(s: string) {
    && 1 <= |s| <= 63
    && IsAlnum(s[0]) && IsAlnum(s[|s| - 1])
    && forall i :: 0 <= i < |s| ==> IsLabelChar(s[i])
  }

  predicate IsFqdn(s: string) {
    |s| <= 253 && '.' in s && forall l :: l in Split(s, '.') ==> IsLabel(l)
  }

  predicate IsWild(host: string) {
    "*." <= host
  }

  /** The domain of a host pattern: what is left of it without a leading "*.". */
  function DomainOf(host: string): string {
    if IsWild(host) then host[2..] else host
  }

  function NormalizeHost(raw: string): Option<string> {
    var host := Lower(TrimSuffix(TrimSpace(raw), "."));
    if host == "" || '/' in host || ':' in host || '@' in host || ' ' in host then None
    else if '*' in DomainOf(host) || !IsFqdn(DomainOf(host)) then None
    else Some(host)
  }

  function NormalizeScheme(raw: string): Option<string> {
    var s := Lower(TrimSpace(raw));
    if s == "https" || s == "http" then Some(s) else None
  }

  function NormalizeMethod(raw: string): Option<string> {
    var s := Upper(TrimSpace(raw));
    if s == "" then None else Some(s)
  }

  function NormalizePath(raw: string): Option<string> {
    var s := TrimSpace(raw);
    if "/" <= s then Some(s) else None
  }

  /** A lower-case name of label characters and dots, with a letter or digit at both ends. */
  predicate PlainName(s: string) {
    && s != "" && IsAlnum(s[0]) && IsAlnum(s[|s| - 1]) && NoUpper(s)
    && forall i :: 0 <= i < |s| ==> IsLabelChar(s[i]) || s[i] == '.'
  }

  lemma {:induction false} LabelsArePlain(s: string)
    requires forall l :: l in Split(s, '.') ==> IsLabel(l)
    ensures s != "" && IsAlnum(s[0]) && IsAlnum(s[|s| - 1])
    ensures forall i :: 0 <= i < |s| ==> IsLabelChar(s[i]) || s[i] == '.'
    decreases |s|
  {
    var i := IndexOf(s, '.');
    assert Split(s, '.')[0] == if i == |s| then s else s[..i];
    assert IsLabel(Split(s, '.')[0]);
    if i < |s| {
      var rest := s[i + 1..];
      assert Split(s, '.') == [s[..i]] + Split(rest, '.');
      forall l | l in Split(rest, '.') ensures IsLabel(l) {
        assert l in Split(s, '.');
      }
      LabelsArePlain(rest);
      forall k | 0 <= k < |s| ensures IsLabelChar(s[k]) || s[k] == '.' {
        if k < i {
          assert s[k] == s[..i][k];
        } else if i < k {
          assert s[k] == rest[k - i - 1];
        }
      }
    }
  }

  /** What a normalized host looks like. */
  lemma NormalHostShape(raw: string, host: string)
    requires NormalizeHost(raw) == Some(host)
    ensures PlainName(DomainOf(host)) && '.' in DomainOf(host)
    ensures host == DomainOf(host) || host == "*." + DomainOf(host)
    ensures IsWild(host) <==> host != DomainOf(host)
  {
    hide TrimSpace, TrimSuffix, Lower, Split;
    LabelsArePlain(DomainOf(host));
    CaseIsIdempotent(TrimSuffix(TrimSpace(raw), "."));
    if IsWild(host) {
      assert host == "*." + DomainOf(host);
    }
  }

  /** A pattern over a plain name is already trimmed, without a final dot, and lower case. */
  lemma PlainPatternIsClean(host: string, domain: string)
    requires PlainName(domain) && (host == domain || host == "*." + domain)
    ensures Lower(TrimSuffix(TrimSpace(host), ".")) == host
  {
    hide TrimSpace, Lower;
    assert host[|host| - 1] == domain[|domain| - 1];
    assert Trimmed(host) && !EndsWith(host, ".");
    assert NoUpper(host);
    LowerIsIdentity(host);
  }

  /** Normalizing a host again changes nothing. */
  lemma HostIsNormal(raw: string, host: string)
    requires NormalizeHost(raw) == Some(host)
    ensures NormalizeHost(host) == Some(host)
  {
    hide TrimSpace, TrimSuffix, Lower, IsFqdn, PlainName, DomainOf;
    NormalHostShape(raw, host);
    PlainPatternIsClean(host, DomainOf(host));
  }

  /** The four normalizers fix what they produce. */
  lemma EntriesAreNormal(raw: string)
    ensures var r := NormalizeHost(raw); r.Some? ==> NormalizeHost(r.value) == r
    ensures var r := NormalizeScheme(raw); r.Some? ==> NormalizeScheme(r.value) == r
    ensures var r := NormalizeMethod(raw); r.Some? ==> NormalizeMethod(r.value) == r
    ensures var r := NormalizePath(raw); r.Some? ==> NormalizePath(r.value) == r
  {
    hide TrimSpace, Lower, Upper, NormalizeHost;
    if NormalizeHost(raw).Some? {
      HostIsNormal(raw, NormalizeHost(raw).value);
    }
    CaseIsIdempotent(TrimSpace(raw));
  }

  // -------------------------------------------------------------------------
  // Lists of entries: each rewritten in place, then duplicates squeezed out in place

  /** Every entry normalized, or nothing if one of them has no normal form. */
  function NormalizeEach<A, B>(xs: seq<A>, norm: A -> Option<B>): (r: Option<seq<B>>)
    ensures r.Some? ==> |r.value| == |xs| && forall i :: 0 <= i < |xs| ==> norm(xs[i]) == Some(r.value[i])
    ensures r.None? ==> exists i :: 0 <= i < |xs| && norm(xs[i]).None?
  {
    if xs == [] then Some([])
    else
      var x, rest := norm(xs[0]), NormalizeEach(xs[1..], norm);
      if x.None? then None
      else if rest.None? then
        assert exists i :: 0 <= i < |xs[1..]| && norm(xs[1..][i]).None?;
        None
      else Some([x.value] + rest.value)
  }

  function WithoutRepeats(xs: seq<string>): (r: seq<string>)
    ensures forall x :: x in r <==> x in xs
    ensures forall i, j :: 0 <= i < j < |r| ==> r[i] != r[j]
    ensures |r| <= |xs|
  {
    if xs == [] then []
    else
      var last, r := xs[|xs| - 1], WithoutRepeats(xs[..|xs| - 1]);
      assert xs == xs[..|xs| - 1] + [last];
      if last in r then r else r + [last]
  }

  lemma RepeatsStep(xs: seq<string>, x: string)
    ensures var r := WithoutRepeats(xs); WithoutRepeats(xs + [x]) == if x in r then r else r + [x]
  {
    assert (xs + [x])[..|xs|] == xs;
  }

  lemma {:induction false} RepeatFreeIsKept(xs: seq<string>)
    requires forall i, j :: 0 <= i < j < |xs| ==> xs[i] != xs[j]
    ensures WithoutRepeats(xs) == xs
  {
    if xs != [] {
      RepeatFreeIsKept(xs[..|xs| - 1]);
      assert xs == xs[..|xs| - 1] + [xs[|xs| - 1]];
    }
  }

  /** The loop each list of a match goes through: entry i is overwritten with its normal form. */
  method NormalizeInPlace(a: array<string>, norm: string -> Option<string>) returns (ok: bool)
    modifies a
    ensures ok == NormalizeEach(old(a[..]), norm).Some?
    ensures ok ==> a[..] == NormalizeEach(old(a[..]), norm).value
  {
    ghost var was := a[..];
    var i := 0;
    while i < a.Length
      invariant 0 <= i <= a.Length
      invariant forall k :: 0 <= k < i ==> norm(was[k]) == Some(a[k])
      invariant forall k :: i <= k < a.Length ==> a[k] == was[k]
    {
      var got := norm(a[i]);
      if got.None? {
        assert norm(was[i]).None?;
        return false;
      }
      a[i] := got.value;
      i := i + 1;
    }
    ok := true;
  }

  /** dedupe: the kept entries move down over the repeats, in their order of first appearance. */
  method DedupeInPlace(a: array<string>) returns (n: nat)
    modifies a
    ensures n <= a.Length && a[..n] == WithoutRepeats(old(a[..]))
  {
    ghost var was := a[..];
    n := 0;
    var i, seen: set<string> := 0, {};
    while i < a.Length
      invariant 0 <= n <= i <= a.Length
      invariant a[..n] == WithoutRepeats(was[..i])
      invariant forall k :: i <= k < a.Length ==> a[k] == was[k]
      invariant forall x :: x in seen <==> x in a[..n]
    {
      var v := a[i];
      assert was[..i + 1] == was[..i] + [v] && was[..i + 1][..i] == was[..i];
      if v !in seen {
        seen := seen + {v};
        ghost var kept := a[..n];
        a[n] := v;
        assert a[..n + 1] == kept + [v];
        n := n + 1;
      }
      i := i + 1;
    }
    assert was[..i] == was;
  }

  const DEFAULT_SCHEMES: seq<string> := ["https"]
  const DEFAULT_METHODS: seq<string> := ["GET", "POST", "PUT", "PATCH", "DELETE"]
  const DEFAULT_PATHS: seq<string> := ["/*"]

  function OrDefault(xs: seq<string>, default: seq<string>): seq<string> {
    if xs == [] then default else xs
  }

  function NormalizeMatch(m: Match): Option<Match> {
    var schemes := NormalizeEach(OrDefault(m.schemes, DEFAULT_SCHEMES), NormalizeScheme);
    var hosts := NormalizeEach(m.hosts, NormalizeHost);
    var methods := NormalizeEach(OrDefault(m.methods, DEFAULT_METHODS), NormalizeMethod);
    var paths := NormalizeEach(OrDefault(m.paths, DEFAULT_PATHS), NormalizePath);
    if m.hosts == [] || (exists p :: p in m.ports && p != 80 && p != 443)
       || schemes.None? || hosts.None? || methods.None? || paths.None? then None
    else Some(Match(WithoutRepeats(schemes.value), [], WithoutRepeats(hosts.value),
                    WithoutRepeats(methods.value), WithoutRepeats(paths.value)))
  }

  /** A match as the vault stores one. */
  predicate NormalMatch(m: Match) {
    && m.schemes != [] && m.hosts != [] && m.methods != [] && m.paths != []
    && (forall s :: s in m.schemes ==> NormalizeScheme(s) == Some(s))
    && (forall h :: h in m.hosts ==> NormalizeHost(h) == Some(h))
    && (forall s :: s in m.methods ==> NormalizeMethod(s) == Some(s))
    && (forall p :: p in m.paths ==> NormalizePath(p) == Some(p))
  }

  lemma EachIsNormal(xs: seq<string>, norm: string -> Option<string>)
    requires NormalizeEach(xs, norm).Some? && xs != []
    requires forall x :: norm(x).Some? ==> norm(norm(x).value) == norm(x)
    ensures
      var r := WithoutRepeats(NormalizeEach(xs, norm).value);
      && r != [] && (forall x :: x in r ==> norm(x) == Some(x))
      && NormalizeEach(r, norm) == Some(r) && WithoutRepeats(r) == r
  {
    hide NormalizeEach, WithoutRepeats;
    var ys := NormalizeEach(xs, norm).value;
    var r := WithoutRepeats(ys);
    assert ys[0] in r;
    forall x | x in r ensures norm(x) == Some(x) {
      var i :| 0 <= i < |ys| && ys[i] == x;
      assert norm(xs[i]) == Some(x);
    }
    RepeatFreeIsKept(r);
    assert NormalizeEach(r, norm).value == r;
  }

  /** Normalizing yields a normal match, and a normal match normalizes to itself: what a client
      reads back and writes again is the same binding. */
  lemma MatchIsNormal(m: Match)
    requires NormalizeMatch(m).Some?
    ensures NormalMatch(NormalizeMatch(m).value)
    ensures NormalizeMatch(NormalizeMatch(m).value) == NormalizeMatch(m)
  {
    hide NormalizeEach, WithoutRepeats, NormalizeScheme, NormalizeHost, NormalizeMethod, NormalizePath;
    forall x
      ensures NormalizeScheme(x).Some? ==> NormalizeScheme(NormalizeScheme(x).value) == NormalizeScheme(x)
      ensures NormalizeHost(x).Some? ==> NormalizeHost(NormalizeHost(x).value) == NormalizeHost(x)
      ensures NormalizeMethod(x).Some? ==> NormalizeMethod(NormalizeMethod(x).value) == NormalizeMethod(x)
      ensures NormalizePath(x).Some? ==> NormalizePath(NormalizePath(x).value) == NormalizePath(x)
    {
      EntriesAreNormal(x);
    }
    EachIsNormal(OrDefault(m.schemes, DEFAULT_SCHEMES), NormalizeScheme);
    EachIsNormal(m.hosts, NormalizeHost);
    EachIsNormal(OrDefault(m.methods, DEFAULT_METHODS), NormalizeMethod);
    EachIsNormal(OrDefault(m.paths, DEFAULT_PATHS), NormalizePath);
  }
}
