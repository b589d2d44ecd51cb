/**
 Matching a request against bindings (internal/credvault/apply.go) and deciding, when they are
 written, whether two bindings could ever match one request (internal/credvault/validate.go).
 */
module Overlap {
  import opened Text
  import opened Bindings

  // -------------------------------------------------------------------------
  // A request, and the canonical form it is matched in

  /** urlScheme and urlHost are the request URL's, host is the Host header. */
  datatype Request = Request(urlScheme: string, tls: bool, host: string, urlHost: string,
                             verb: string, path: string)

  /** Position of the last colon, or -1. */
  function LastColon(s: string): (i: int)
    ensures -1 <= i < |s|
    ensures i == -1 <==> ':' !in s
  {
    if s == "" then -1 else if s[|s| - 1] == ':' then |s| - 1 else
      assert s == s[..|s| - 1] + [s[|s| - 1]];
      LastColon(s[..|s| - 1])
  }

  function TrimBrackets(s: string): string {
    if s != "" && s[0] in "[]" then TrimBrackets(s[1..])
    else if s != "" && s[|s| - 1] in "[]" then TrimBrackets(s[..|s| - 1])
    else s
  }

  /** The host in front of a port, or None where the source says there is no port to split off. */
  function HostBeforePort(host: string): Option<string> {
    var i := LastColon(host);
    if i < 0 || ']' in host[i + 1..] then None
    else if "[" <= host && !(exists k :: i <= k < |host| - 1 && host[k] == ']' && host[k + 1] == ':') then None
    else Some(TrimBrackets(host[..i]))
  }

  lemma {:induction false} LastColonIsLast(s: string, k: nat)
    requires LastColon(s) < k < |s|
    ensures s[k] != ':'
    decreases |s|
  {
    if k < |s| - 1 {
      LastColonIsLast(s[..|s| - 1], k);
    }
  }

  /** The bracket of an address literal is looked for after the last colon, where it never is, so a
      host that begins with one keeps whatever port it has. */
  lemma BracketedPortStays(host: string)
    requires "[" <= host
    ensures HostBeforePort(host) == None
  {
    var i := LastColon(host);
    if i >= 0 {
      assert i < |host| && (host[i] == ']' ==> false) by {
        LastColonIsColon(host);
      }
      forall k | i < k < |host| ensures host[k] != ':' {
        LastColonIsLast(host, k);
      }
    }
  }

  lemma {:induction false} LastColonIsColon(s: string)
    requires LastColon(s) >= 0
    ensures s[LastColon(s)] == ':'
    decreases |s|
  {
    if s[|s| - 1] != ':' {
      LastColonIsColon(s[..|s| - 1]);
    }
  }

  function CanonicalHost(raw: string): string {
    var host := TrimSpace(raw);
    if host == "" then ""
    else
      var split := HostBeforePort(host);
      TrimSuffix(Lower(if split.Some? then split.value else host), ".")
  }

  // Which names a Host header can be read as

  /** A name no Host header is read as is one that begins with a closing bracket and holds a colon
      with no closing bracket after the last: its port is split off, and then its bracket. */
  predicate Askable(name: string) {
    !("]" <= name && ':' in name && ']' !in name[LastColon(name) + 1..])
  }

  /** A Host header read as the name: the name, or the name and a port where its own last colon
      would be taken for one. */
  function HeaderFor(name: string): string {
    if ':' !in name || "[" <= name || ']' in name[LastColon(name) + 1..] then name else name + ":80"
  }

  lemma LastColonIs(s: string, i: nat)
    requires i < |s| && s[i] == ':' && forall k :: i < k < |s| ==> s[k] != ':'
    ensures LastColon(s) == i
  {
    hide LastColon;
    if LastColon(s) < i {
      LastColonIsLast(s, i);
    }
    LastColonIsColon(s);
  }

  lemma HeaderIsReadAs(name: string)
    requires name != "" && Trimmed(name) && NoUpper(name) && !EndsWith(name, ".") && name[|name| - 1] !in "[]" && Askable(name)
    ensures CanonicalHost(HeaderFor(name)) == name
  {
    hide TrimSpace, Lower, LastColon;
    LowerIsIdentity(name);
    var header := HeaderFor(name);
    if header == name {
      if "[" <= name {
        BracketedPortStays(name);
      }
    } else {
      assert header[|name|] == ':' && header[|name| + 1..] == "80";
      LastColonIs(header, |name|);
      assert header[..|name|] == name && !("[" <= header);
      assert Trimmed(header);
    }
  }

  lemma {:induction false} NoBracketFirst(s: string)
    ensures var t := TrimBrackets(s); t == "" || t[0] !in "[]"
    decreases |s|
  {
    if s != "" && s[0] in "[]" {
      NoBracketFirst(s[1..]);
    } else if s != "" && s[|s| - 1] in "[]" {
      NoBracketFirst(s[..|s| - 1]);
    }
  }

  lemma UnsplitIsAskable(host: string)
    requires host != "" && HostBeforePort(host).None?
    ensures Askable(TrimSuffix(Lower(host), "."))
  {
    hide LastColon;
    var name := TrimSuffix(Lower(host), ".");
    assert forall k :: 0 <= k < |name| ==> name[k] == LowerChar(host[k]);
    if "]" <= name && ':' in name {
      var i := LastColon(name);
      LastColonIsColon(name);
      forall k | i < k < |host| ensures host[k] != ':' {
        if k < |name| {
          LastColonIsLast(name, k);
        } else {
          assert Lower(host)[k] == '.';
        }
      }
      LastColonIs(host, i);
      var k :| i + 1 <= k < |host| && host[k] == ']';
      assert k < |name| by {
        assert Lower(host)[k] == ']';
      }
      assert name[i + 1..][k - i - 1] == ']';
    }
  }

  /** Every name a request is matched by is one of these. */
  lemma MatchedNamesAreAskable(raw: string)
    ensures Askable(CanonicalHost(raw))
  {
    hide TrimSpace, HostBeforePort, LastColon;
    var host := TrimSpace(raw);
    if host != "" {
      var split := HostBeforePort(host);
      if split.None? {
        UnsplitIsAskable(host);
      } else {
        SplitHasNoBracket(host);
        var name := TrimSuffix(Lower(split.value), ".");
        assert name != "" ==> name[0] == LowerChar(split.value[0]);
      }
    }
  }

  lemma SplitHasNoBracket(host: string)
    requires HostBeforePort(host).Some?
    ensures var x := HostBeforePort(host).value; x == "" || x[0] !in "[]"
  {
    hide TrimBrackets;
    NoBracketFirst(host[..LastColon(host)]);
  }

  function SchemeOf(r: Request): string {
    var s := Lower(r.urlScheme);
    if s != "" then s else if r.tls then "https" else "http"
  }

  function HostOf(r: Request): string {
    var h := CanonicalHost(r.host);
    if h != "" then h else CanonicalHost(r.urlHost)
  }

  predicate HostMatches(pattern: string, host: string) {
    if IsWild(pattern) then EndsWith(host, pattern[1..]) && |host| > |pattern| - 1 else pattern == host
  }

  predicate PathMatches(pattern: string, path: string) {
    if EndsWith(pattern, "*") then TrimSuffix(pattern, "*") <= path else pattern == path
  }

  predicate MatchesHost(hosts: seq<string>, host: string) {
    exists h :: h in hosts && HostMatches(h, host)
  }

  predicate MatchesPath(paths: seq<string>, path: string) {
    exists p :: p in paths && PathMatches(p, if path == "" then "/" else path)
  }

  /** All four fields agree. */
  predicate Matches(m: Match, r: Request) {
    && SchemeOf(r) in m.schemes
    && MatchesHost(m.hosts, HostOf(r))
    && Upper(r.verb) in m.methods
    && MatchesPath(m.paths, r.path)
  }

  /** A plain name is already in the form requests are matched in. */
  lemma PlainNameIsCanonical(s: string)
    requires PlainName(s)
    ensures CanonicalHost(s) == s
  {
    LowerIsIdentity(s);
    assert ':' !in s && Trimmed(s) && !EndsWith(s, ".");
  }

  // -------------------------------------------------------------------------
  // The overlap test

  function HostPatternsOverlap(x: string, y: string): Option<string> {
    var domX, domY := DomainOf(x), DomainOf(y);
    if !IsWild(x) && !IsWild(y) then (if x == y then Some(x) else None)
    else if IsWild(x) && IsWild(y) then
      if domX == domY || EndsWith(domX, "." + domY) then Some("host." + domX)
      else if EndsWith(domY, "." + domX) then Some("host." + domY)
      else None
    else if IsWild(x) then (if EndsWith(y, "." + domX) then Some(y) else None)
    else (if EndsWith(x, "." + domY) then Some(x) else None)
  }

  function PathPatternsOverlap(x: string, y: string): Option<string> {
    var preX, preY := TrimSuffix(x, "*"), TrimSuffix(y, "*");
    if EndsWith(x, "*") && EndsWith(y, "*") then
      if preY <= preX then Some(preX) else if preX <= preY then Some(preY) else None
    else if EndsWith(x, "*") then (if preX <= y then Some(y) else None)
    else if EndsWith(y, "*") then (if preY <= x then Some(x) else None)
    else (if x == y then Some(x) else None)
  }

  /** The first answer over all pairs, in the order two nested loops ask. */
  function FirstPair(xs: seq<string>, ys: seq<string>, meet: (string, string) -> Option<string>): Option<string>
    decreases |xs|, |ys|
  {
    if xs == [] then None
    else
      var here := FirstWith(xs[0], ys, meet);
      if here.Some? then here else FirstPair(xs[1..], ys, meet)
  }

  function FirstWith(x: string, ys: seq<string>, meet: (string, string) -> Option<string>): Option<string> {
    if ys == [] then None else if meet(x, ys[0]).Some? then meet(x, ys[0]) else FirstWith(x, ys[1..], meet)
  }

  function SameValue(x: string, y: string): Option<string> {
    if x == y then Some(x) else None
  }

  datatype Example = Example(verb: string, scheme: string, host: string, path: string)

  /** Some request both bindings match, as the refusal names it, or None. */
  function BindingsOverlap(a: Match, b: Match): Option<Example> {
    var scheme := FirstPair(a.schemes, b.schemes, SameValue);
    var verb := FirstPair(a.methods, b.methods, SameValue);
    var host := FirstPair(a.hosts, b.hosts, HostPatternsOverlap);
    var path := FirstPair(a.paths, b.paths, PathPatternsOverlap);
    if scheme.None? || verb.None? || host.None? || path.None? then None
    else Some(Example(verb.value, scheme.value, host.value, path.value))
  }

  lemma {:induction false} FirstWithFinds(x: string, ys: seq<string>, meet: (string, string) -> Option<string>)
    ensures FirstWith(x, ys, meet).Some? ==> exists y :: y in ys && meet(x, y) == FirstWith(x, ys, meet)
    ensures FirstWith(x, ys, meet).None? ==> forall y :: y in ys ==> meet(x, y).None?
  {
    if ys != [] {
      FirstWithFinds(x, ys[1..], meet);
      assert ys == [ys[0]] + ys[1..];
    }
  }

  /** The nested loops find an answer exactly when some pair has one, and it is a pair's answer. */
  lemma {:induction false} FirstPairFinds(xs: seq<string>, ys: seq<string>, meet: (string, string) -> Option<string>)
    ensures FirstPair(xs, ys, meet).Some? ==>
              exists x, y :: x in xs && y in ys && meet(x, y) == FirstPair(xs, ys, meet)
    ensures FirstPair(xs, ys, meet).None? ==> forall x, y :: x in xs && y in ys ==> meet(x, y).None?
  {
    if xs != [] {
      FirstWithFinds(xs[0], ys, meet);
      FirstPairFinds(xs[1..], ys, meet);
      assert xs == [xs[0]] + xs[1..];
    }
  }

  /** "*.D" matches exactly the strings that end in ".D" and are longer than it. */
  lemma WildMatches(d: string, host: string)
    ensures HostMatches("*." + d, host) <==> EndsWith(host, "." + d) && host != "." + d
  {
    assert ("*." + d)[1..] == "." + d;
  }

  lemma HostUnder(d: string)
    requires PlainName(d)
    ensures PlainName("host." + d) && EndsWith("host." + d, "." + d)
  {
    var h := "host." + d;
    assert forall i :: 5 <= i < |h| ==> h[i] == d[i - 5];
    assert h[|h| - 1] == d[|d| - 1];
    assert h[4..] == "." + d;
  }

  lemma WildDomainsNest(d: string, e: string, host: string)
    requires EndsWith(host, "." + d) && EndsWith(host, "." + e)
    ensures d == e || EndsWith(d, "." + e) || EndsWith(e, "." + d)
  {
    if |d| <= |e| {
      NestOneWay(d, e, host);
    } else {
      NestOneWay(e, d, host);
    }
  }

  lemma NestOneWay(d: string, e: string, host: string)
    requires EndsWith(host, "." + d) && EndsWith(host, "." + e) && |d| <= |e|
    ensures d == e || EndsWith(e, "." + d)
  {
    SuffixesNest(host, "." + d, "." + e);
    if |d| == |e| {
      assert d == ("." + d)[1..] && e == ("." + e)[1..];
    } else {
      assert ("." + e)[|e| - |d|..] == e[|e| - |d| - 1..];
    }
  }

  /** Two normal host patterns overlap exactly when some host is matched by both; the example is
      one, in canonical form. */
  lemma HostOverlapExact(x: string, y: string)
    requires NormalizeHost(x) == Some(x) && NormalizeHost(y) == Some(y)
    ensures
      var r := HostPatternsOverlap(x, y);
      && (r.Some? ==> HostMatches(x, r.value) && HostMatches(y, r.value) && CanonicalHost(r.value) == r.value)
      && (r.None? ==> forall h :: !(HostMatches(x, h) && HostMatches(y, h)))
  {
    hide NormalizeHost, CanonicalHost, PlainName;
    NormalHostShape(x, x);
    NormalHostShape(y, y);
    var domX, domY := DomainOf(x), DomainOf(y);
    HostUnder(domX);
    HostUnder(domY);
    PlainNameIsCanonical("host." + domX);
    PlainNameIsCanonical("host." + domY);
    PlainNameIsCanonical(domX);
    PlainNameIsCanonical(domY);
    forall h
      ensures IsWild(x) ==> (HostMatches(x, h) <==> EndsWith(h, "." + domX) && h != "." + domX)
      ensures IsWild(y) ==> (HostMatches(y, h) <==> EndsWith(h, "." + domY) && h != "." + domY)
    {
      WildMatches(domX, h);
      WildMatches(domY, h);
    }
    if IsWild(x) && IsWild(y) {
      BothWild(x, y);
    } else if IsWild(x) {
      DottedIsNotPlain(domX, y);
    } else if IsWild(y) {
      DottedIsNotPlain(domY, x);
    }
  }

  lemma DottedIsNotPlain(d: string, name: string)
    requires PlainName(name)
    ensures name != "." + d
  {
  }

  lemma BothWild(x: string, y: string)
    requires IsWild(x) && IsWild(y)
    requires PlainName(DomainOf(x)) && PlainName(DomainOf(y))
    ensures
      var r := HostPatternsOverlap(x, y);
      && (r.Some? ==> HostMatches(x, r.value) && HostMatches(y, r.value))
      && (r.None? ==> forall h :: !(HostMatches(x, h) && HostMatches(y, h)))
  {
    hide PlainName, EndsWith;
    var d, e := DomainOf(x), DomainOf(y);
    assert x == "*." + d && y == "*." + e;
    HostUnder(d);
    HostUnder(e);
    var r := HostPatternsOverlap(x, y);
    if r.Some? {
      var h := r.value;
      WildMatches(d, h);
      WildMatches(e, h);
      if h == "host." + d && d != e {
        DeeperEndsInShallower("host." + d, d, e);
      } else if h == "host." + e && d != e {
        DeeperEndsInShallower("host." + e, e, d);
      }
      assert h[0] == 'h';
    } else {
      forall h ensures !(HostMatches(x, h) && HostMatches(y, h)) {
        WildMatches(d, h);
        WildMatches(e, h);
        if EndsWith(h, "." + d) && EndsWith(h, "." + e) {
          WildDomainsNest(d, e, h);
        }
      }
    }
  }

  lemma DeeperEndsInShallower(h: string, deep: string, shallow: string)
    requires EndsWith(h, "." + deep)
    ensures EndsWith(deep, "." + shallow) ==> EndsWith(h, "." + shallow)
  {
    if EndsWith(deep, "." + shallow) {
      assert ("." + deep)[1..] == deep;
      SuffixTransitive("." + deep, deep, "." + shallow);
      SuffixTransitive(h, "." + deep, "." + shallow);
    }
  }

  /** Two normal path patterns overlap exactly when some path is matched by both, and the example
      is one. */
  lemma PathOverlapExact(x: string, y: string)
    requires "/" <= x && "/" <= y
    ensures
      var r := PathPatternsOverlap(x, y);
      && (r.Some? ==> r.value != "" && PathMatches(x, r.value) && PathMatches(y, r.value))
      && (r.None? ==> forall p :: !(PathMatches(x, p) && PathMatches(y, p)))
  {
    var preX, preY := TrimSuffix(x, "*"), TrimSuffix(y, "*");
    assert EndsWith(x, "*") ==> x == preX + "*";
    assert EndsWith(y, "*") ==> y == preY + "*";
    assert x[0] == y[0] == '/';
    forall p | PathMatches(x, p) && PathMatches(y, p) ensures PathPatternsOverlap(x, y).Some? {
      if EndsWith(x, "*") && EndsWith(y, "*") {
        PrefixesNest(preX, preY, p);
      }
    }
  }

  lemma PrefixesNest(x: string, y: string, s: string)
    requires x <= s && y <= s
    ensures x <= y || y <= x
  {
    if |x| <= |y| {
      assert y[..|x|] == s[..|y|][..|x|] == s[..|x|];
    } else {
      assert x[..|y|] == s[..|x|][..|y|] == s[..|y|];
    }
  }

  /** The request a refusal names. */
  function RequestFor(e: Example): Request {
    Request(e.scheme, false, e.host, "", e.verb, e.path)
  }

  lemma ExampleMatches(a: Match, b: Match)
    requires NormalMatch(a) && NormalMatch(b)
    requires BindingsOverlap(a, b).Some?
    ensures
      var r := RequestFor(BindingsOverlap(a, b).value);
      Matches(a, r) && Matches(b, r)
  {
    hide NormalizeHost, CanonicalHost, HostPatternsOverlap, PathPatternsOverlap, FirstPair, HostMatches, PathMatches, Lower, Upper, TrimSpace;
    var e := BindingsOverlap(a, b).value;
    FirstPairFinds(a.schemes, b.schemes, SameValue);
    FirstPairFinds(a.methods, b.methods, SameValue);
    FirstPairFinds(a.hosts, b.hosts, HostPatternsOverlap);
    FirstPairFinds(a.paths, b.paths, PathPatternsOverlap);
    var x, y :| x in a.hosts && y in b.hosts && HostPatternsOverlap(x, y) == Some(e.host);
    HostOverlapExact(x, y);
    var p, q :| p in a.paths && q in b.paths && PathPatternsOverlap(p, q) == Some(e.path);
    NormalPathIsRooted(p);
    NormalPathIsRooted(q);
    PathOverlapExact(p, q);
    NormalCase(e.scheme, e.verb);
    NormalHostIsNotBlank(x, e.host);
  }

  lemma NormalPathIsRooted(p: string)
    requires NormalizePath(p) == Some(p)
    ensures "/" <= p
  {
  }

  lemma NormalCase(scheme: string, verb: string)
    requires NormalizeScheme(scheme) == Some(scheme) && NormalizeMethod(verb) == Some(verb)
    ensures Lower(scheme) == scheme != "" && Upper(verb) == verb
  {
    hide TrimSpace, Lower, Upper;
    CaseIsIdempotent(TrimSpace(scheme));
    CaseIsIdempotent(TrimSpace(verb));
  }

  lemma NormalHostIsNotBlank(pattern: string, host: string)
    requires NormalizeHost(pattern) == Some(pattern) && HostMatches(pattern, host)
    ensures host != ""
  {
  }

  lemma CommonRequestIsFound(a: Match, b: Match, r: Request)
    requires NormalMatch(a) && NormalMatch(b)
    requires Matches(a, r) && Matches(b, r)
    ensures BindingsOverlap(a, b).Some?
  {
    hide NormalizeHost, CanonicalHost, HostPatternsOverlap, PathPatternsOverlap, FirstPair, HostMatches, PathMatches, Lower, Upper, TrimSpace;
    FirstPairFinds(a.schemes, b.schemes, SameValue);
    FirstPairFinds(a.methods, b.methods, SameValue);
    FirstPairFinds(a.hosts, b.hosts, HostPatternsOverlap);
    FirstPairFinds(a.paths, b.paths, PathPatternsOverlap);
    assert SameValue(SchemeOf(r), SchemeOf(r)).Some? && SameValue(Upper(r.verb), Upper(r.verb)).Some?;
    var x :| x in a.hosts && HostMatches(x, HostOf(r));
    var y :| y in b.hosts && HostMatches(y, HostOf(r));
    HostOverlapExact(x, y);
    var path := if r.path == "" then "/" else r.path;
    var p :| p in a.paths && PathMatches(p, path);
    var q :| q in b.paths && PathMatches(q, path);
    NormalPathIsRooted(p);
    NormalPathIsRooted(q);
    PathOverlapExact(p, q);
  }

  /** The write-time test is exact: it finds an overlap if and only if some request is matched by
      both bindings, and the request it names is one. */
  lemma OverlapIsExact(a: Match, b: Match)
    requires NormalMatch(a) && NormalMatch(b)
    ensures BindingsOverlap(a, b).Some? <==> exists r :: Matches(a, r) && Matches(b, r)
    ensures BindingsOverlap(a, b).Some? ==>
              var r := RequestFor(BindingsOverlap(a, b).value);
              Matches(a, r) && Matches(b, r)
  {
    if BindingsOverlap(a, b).Some? {
      ExampleMatches(a, b);
    }
    forall r | Matches(a, r) && Matches(b, r) ensures BindingsOverlap(a, b).Some? {
      CommonRequestIsFound(a, b, r);
    }
  }
}
