/**
 The sandbox's certificate authority (internal/credvault/ca.go): the name constraints it is minted
 with, following section 4.2.1.10 of RFC 5280, and what it will sign.
 */
module Authority {
  import opened Text
  import opened Bindings
  import opened Overlap

  function CanonicalName(host: string): string {
    TrimSuffix(Lower(TrimSpace(host)), ".")
  }

  /** The suffix rule a verifier applies to one constraint. */
  predicate Permits(constraint: string, host: string) {
    if "." <= constraint then EndsWith(host, constraint) && |host| > |constraint|
    else host == constraint || EndsWith(host, "." + constraint)
  }

  predicate CoveredBy(constraints: seq<string>, host: string) {
    host != "" && exists c :: c in constraints && Permits(c, host)
  }

  /** The constraint a binding host turns into, or None for a host there is none for. Whether a
      name is an IP address is the standard library's to say. */
  function ConstraintOf(raw: string, isAddress: string -> bool): Option<string> {
    var h := CanonicalName(raw);
    var c := if IsWild(h) then h[1..] else h;
    if h == "" || isAddress(if "." <= c then c[1..] else c) then None else Some(c)
  }

  function ConstraintIn(isAddress: string -> bool): string -> Option<string> {
    h => ConstraintOf(h, isAddress)
  }

  function DnsConstraints(hosts: seq<string>, isAddress: string -> bool): Option<seq<string>> {
    var each := NormalizeEach(hosts, ConstraintIn(isAddress));
    if hosts == [] || each.None? then None else Some(WithoutRepeats(each.value))
  }

  method MakeDnsConstraints(hosts: seq<string>, isAddress: string -> bool) returns (r: Option<seq<string>>)
    ensures r == DnsConstraints(hosts, isAddress)
  {
    hide NormalizeEach, WithoutRepeats, ConstraintOf;
    if hosts == [] {
      return None;
    }
    var seen: set<string>, out: seq<string> := {}, [];
    ghost var each: seq<string> := [];
    for i := 0 to |hosts|
      invariant |each| == i && forall k :: 0 <= k < i ==> ConstraintOf(hosts[k], isAddress) == Some(each[k])
      invariant out == WithoutRepeats(each)
      invariant forall c :: c in seen <==> c in out
    {
      assert ConstraintIn(isAddress)(hosts[i]) == ConstraintOf(hosts[i], isAddress);
      var c := ConstraintOf(hosts[i], isAddress);
      if c.None? {
        return None;
      }
      RepeatsStep(each, c.value);
      each := each + [c.value];
      if c.value !in seen {
        seen := seen + {c.value};
        out := out + [c.value];
      }
    }
    var all := NormalizeEach(hosts, ConstraintIn(isAddress));
    assert forall i :: 0 <= i < |hosts| ==> ConstraintIn(isAddress)(hosts[i]) == Some(each[i]);
    assert all.value == each;
    return Some(out);
  }

  /** An authority is refused exactly for an empty list, a blank entry, or one that names an address,
      with or without a wildcard or a dot before it. */
  lemma ConstraintsRefusedIff(hosts: seq<string>, isAddress: string -> bool)
    ensures DnsConstraints(hosts, isAddress).None? <==>
      || hosts == []
      || exists h :: h in hosts && var n := CanonicalName(h);
           n == "" || isAddress(if "*." <= n then n[2..] else if "." <= n then n[1..] else n)
  {
    hide NormalizeEach, CanonicalName, WithoutRepeats;
    forall h ensures ConstraintOf(h, isAddress).None? <==>
      var n := CanonicalName(h); n == "" || isAddress(if "*." <= n then n[2..] else if "." <= n then n[1..] else n)
    {
      var n := CanonicalName(h);
      if "*." <= n {
        assert n[1..][1..] == n[2..] && "." <= n[1..];
      }
    }
    var each := NormalizeEach(hosts, ConstraintIn(isAddress));
    if each.None? {
      var i :| 0 <= i < |hosts| && ConstraintIn(isAddress)(hosts[i]).None?;
      assert ConstraintOf(hosts[i], isAddress).None? && hosts[i] in hosts;
    } else {
      forall h | h in hosts ensures ConstraintOf(h, isAddress).Some? {
        var i :| 0 <= i < |hosts| && hosts[i] == h;
        assert ConstraintIn(isAddress)(hosts[i]) == Some(each.value[i]);
      }
    }
  }

  // -------------------------------------------------------------------------
  // The ceiling covers what the bindings match

  lemma ConstraintPermits(h: string, host: string, isAddress: string -> bool)
    requires CanonicalName(h) == h && ConstraintOf(h, isAddress).Some?
    requires HostMatches(h, host) && (IsWild(h) || !("." <= h))
    ensures host != "" && Permits(ConstraintOf(h, isAddress).value, host)
  {
  }

  /** By the suffix rule, the constraint made for the listed host x takes in the name h. */
  predicate Encloses(x: string, h: string) {
    if IsWild(x) then |h| > |x| - 1 && EndsWith(h, x[1..])
    else if "." <= x then |h| > |x| && EndsWith(h, x)
    else h == x || EndsWith(h, "." + x)
  }

  /** A name is covered exactly when some listed host takes it in. */
  lemma CoveredByList(hosts: seq<string>, isAddress: string -> bool, h: string)
    requires DnsConstraints(hosts, isAddress).Some? && h != ""
    requires forall x :: x in hosts ==> CanonicalName(x) == x
    ensures CoveredBy(DnsConstraints(hosts, isAddress).value, h) <==> exists x :: x in hosts && Encloses(x, h)
  {
    hide CanonicalName, EndsWith, WithoutRepeats;
    var cs := DnsConstraints(hosts, isAddress).value;
    if CoveredBy(cs, h) {
      var c :| c in cs && Permits(c, h);
      var x := ListedFor(hosts, isAddress, c);
      assert Encloses(x, h);
    }
    if x :| x in hosts && Encloses(x, h) {
      ConstraintIsListed(hosts, isAddress, x);
      assert Permits(ConstraintOf(x, isAddress).value, h);
    }
  }

  lemma ConstraintIsListed(hosts: seq<string>, isAddress: string -> bool, x: string)
    requires DnsConstraints(hosts, isAddress).Some? && x in hosts
    ensures ConstraintOf(x, isAddress).Some? && ConstraintOf(x, isAddress).value in DnsConstraints(hosts, isAddress).value
  {
    hide NormalizeEach, ConstraintOf;
    var i :| 0 <= i < |hosts| && hosts[i] == x;
    assert ConstraintIn(isAddress)(hosts[i]) == ConstraintOf(x, isAddress);
  }

  lemma ListedFor(hosts: seq<string>, isAddress: string -> bool, c: string) returns (x: string)
    requires DnsConstraints(hosts, isAddress).Some? && c in DnsConstraints(hosts, isAddress).value
    ensures x in hosts && ConstraintOf(x, isAddress) == Some(c)
  {
    hide NormalizeEach, ConstraintOf;
    var each := NormalizeEach(hosts, ConstraintIn(isAddress)).value;
    var i :| 0 <= i < |each| && each[i] == c;
    x := hosts[i];
    assert ConstraintIn(isAddress)(hosts[i]) == ConstraintOf(x, isAddress);
  }

  /** An authority constrained to a list of names, wildcards among them, covers everything those match. */
  lemma ConstraintsCoverMatches(hosts: seq<string>, isAddress: string -> bool, host: string)
    requires DnsConstraints(hosts, isAddress).Some?
    requires forall h :: h in hosts ==> CanonicalName(h) == h && !("." <= h)
    requires MatchesHost(hosts, host)
    ensures CoveredBy(DnsConstraints(hosts, isAddress).value, host)
  {
    hide CanonicalName;
    var h :| h in hosts && HostMatches(h, host);
    PermittedIsCovered(hosts, isAddress, h, host);
  }

  /** Where a listed name may begin with a dot, that holds exactly when each that does is taken in by
      another listed host. */
  lemma DottedListIsCoveredIff(hosts: seq<string>, isAddress: string -> bool)
    requires DnsConstraints(hosts, isAddress).Some?
    requires forall h :: h in hosts ==> CanonicalName(h) == h
    ensures
      (forall host :: MatchesHost(hosts, host) ==> CoveredBy(DnsConstraints(hosts, isAddress).value, host))
      <==> (forall h :: h in hosts && "." <= h ==> exists x :: x in hosts && x != h && Encloses(x, h))
  {
    hide CanonicalName, DnsConstraints, CoveredBy, Encloses, HostMatches;
    var cs := DnsConstraints(hosts, isAddress).value;
    forall h | h in hosts && "." <= h
      ensures MatchesHost(hosts, h) && (CoveredBy(cs, h) <==> exists x :: x in hosts && x != h && Encloses(x, h))
    {
      DottedMatchesItself(h, h);
      CoveredByList(hosts, isAddress, h);
    }
    if forall h :: h in hosts && "." <= h ==> CoveredBy(cs, h) {
      forall host | MatchesHost(hosts, host) ensures CoveredBy(cs, host) {
        var h :| h in hosts && HostMatches(h, host);
        if "." <= h {
          DottedMatchesItself(h, host);
        } else {
          PermittedIsCovered(hosts, isAddress, h, host);
        }
      }
    }
  }

  /** A name beginning with a dot is no wildcard, and its own constraint does not take it in. */
  lemma DottedMatchesItself(h: string, host: string)
    requires "." <= h
    ensures (HostMatches(h, host) <==> host == h) && !Encloses(h, h)
  {
    assert h[0] == '.';
  }

  lemma PermittedIsCovered(hosts: seq<string>, isAddress: string -> bool, h: string, host: string)
    requires DnsConstraints(hosts, isAddress).Some? && h in hosts && CanonicalName(h) == h && !("." <= h)
    requires HostMatches(h, host)
    ensures CoveredBy(DnsConstraints(hosts, isAddress).value, host)
  {
    hide CanonicalName;
    ConstraintIsListed(hosts, isAddress, h);
    ConstraintPermits(h, host, isAddress);
  }

  /** A listed name beginning with a dot, alone, is not covered by its own constraint. A policy names
      no such host: its labels are not empty. */
  lemma DottedNameIsNotCovered(isAddress: string -> bool)
    requires !isAddress("example.com")
    ensures
      var hosts := [".example.com"];
      && DnsConstraints(hosts, isAddress) == Some(hosts)
      && MatchesHost(hosts, ".example.com") && !CoveredBy(hosts, ".example.com")
  {
    hide NormalizeEach, WithoutRepeats, TrimSpace;
    var h := ".example.com";
    assert NoUpper(h) && Trimmed(h) && !EndsWith(h, ".");
    LowerIsIdentity(h);
    assert h[1..] == "example.com" && !IsWild(h);
    assert ConstraintIn(isAddress)(h) == ConstraintOf(h, isAddress) == Some(h);
    assert NormalizeEach([h], ConstraintIn(isAddress)).value == [h];
    RepeatFreeIsKept([h]);
    assert HostMatches(h, h) && !Permits(h, h);
    assert h in [h];
  }

  // -------------------------------------------------------------------------
  // Checking a wildcard through one name under it

  function Probe(domain: string): string {
    "probe." + domain
  }

  ghost predicate WildcardCovered(constraints: seq<string>, domain: string) {
    forall host :: HostMatches("*." + domain, host) ==> CoveredBy(constraints, host)
  }

  /** A suffix that begins with a dot of a host whose first label has none reaches at most that
      label's dot. */
  lemma DottedSuffixFits(first: string, domain: string, suffix: string)
    requires '.' !in first && "." <= suffix
    requires EndsWith(first + "." + domain, suffix)
    ensures EndsWith("." + domain, suffix)
  {
    var host := first + "." + domain;
    assert host == first + ("." + domain);
    assert suffix[0] == host[|host| - |suffix|] == '.';
    assert |suffix| <= |domain| + 1;
    assert host[|host| - |suffix|..] == ("." + domain)[|domain| + 1 - |suffix|..];
  }

  /** A constraint that permits one name under a domain, and is not that name, permits every name
      under it. */
  lemma PermitsUnder(c: string, first: string, domain: string, host: string)
    requires '.' !in first && first != "" && Permits(c, first + "." + domain) && c != first + "." + domain
    requires HostMatches("*." + domain, host)
    ensures host != "" && Permits(c, host) && |c| <= |domain| + 1
  {
    WildMatches(domain, host);
    var suffix := if "." <= c then c else "." + c;
    DottedSuffixFits(first, domain, suffix);
    SuffixTransitive(host, "." + domain, suffix);
  }

  /** A label longer than every constraint. */
  function FreshLabel(constraints: seq<string>): (l: string)
    ensures l != "" && '.' !in l && forall c :: c in constraints ==> |c| < |l|
  {
    if constraints == [] then "x"
    else
      var l := FreshLabel(constraints[1..]);
      assert constraints == [constraints[0]] + constraints[1..];
      l + seq(|constraints[0]|, i => 'x')
  }

  /** If every name under a domain is covered, one with a label longer than any constraint is, and
      what permits that one permits them all. */
  lemma CoverageReachesProbe(constraints: seq<string>, domain: string)
    requires WildcardCovered(constraints, domain)
    ensures exists c :: c in constraints && c != Probe(domain) && Permits(c, Probe(domain))
  {
    hide EndsWith, Permits;
    var first := FreshLabel(constraints);
    var host := first + "." + domain;
    UnderDomain(first, domain);
    var c :| c in constraints && Permits(c, host);
    UnderDomain("probe", domain);
    assert Probe(domain) == "probe" + "." + domain;
    PermitsUnder(c, first, domain, Probe(domain));
  }

  lemma UnderDomain(first: string, domain: string)
    requires first != ""
    ensures HostMatches("*." + domain, first + "." + domain)
  {
    var host := first + "." + domain;
    assert host[|first|..] == "." + domain;
    WildMatches(domain, host);
  }

  /** Every name under a domain is covered if and only if some constraint other than the probe
      name itself permits the probe name. */
  lemma ProbeIsExact(constraints: seq<string>, domain: string)
    ensures WildcardCovered(constraints, domain)
            <==> exists c :: c in constraints && c != Probe(domain) && Permits(c, Probe(domain))
  {
    hide EndsWith, Permits, HostMatches;
    assert Probe(domain) == "probe" + "." + domain;
    if c :| c in constraints && c != Probe(domain) && Permits(c, Probe(domain)) {
      forall host | HostMatches("*." + domain, host) ensures CoveredBy(constraints, host) {
        PermitsUnder(c, "probe", domain, host);
      }
    }
    if WildcardCovered(constraints, domain) {
      CoverageReachesProbe(constraints, domain);
    }
  }

  /** So a wildcard accepted through its probe can go uncovered: the constraint that admits it
      may be the probe name and nothing else. */
  lemma ProbeAloneCoversNothingElse()
    ensures
      var cs := ["probe.example.com"];
      CoveredBy(cs, Probe("example.com")) && !WildcardCovered(cs, "example.com")
  {
    var cs := ["probe.example.com"];
    assert Probe("example.com") == "probe.example.com" == cs[0];
    assert cs[0][0] == 'p';
    assert Permits(cs[0], Probe("example.com"));
    ProbeIsExact(cs, "example.com");
  }

  // -------------------------------------------------------------------------
  // The authority itself: a leaf is signed once and then served from the cache

  datatype LeafOutcome = Signed(name: string) | Refused | Destroyed

  class CertificateAuthority {
    const hosts: seq<string>
    var leaves: set<string>
    var destroyed: bool

    ghost predicate Valid() reads this {
      forall h :: h in leaves ==> CoveredBy(hosts, h)
    }

    constructor (hosts: seq<string>)
      ensures Valid() && this.hosts == hosts && leaves == {} && !destroyed
    {
      this.hosts := hosts;
      leaves, destroyed := {}, false;
    }

    predicate Covers(host: string)
      reads this
    {
      !destroyed && CoveredBy(hosts, CanonicalName(host))
    }

    /** The cache never answers for a name the constraints do not cover, so what Leaf refuses is
        exactly what Covers denies. */
    method Leaf(host: string) returns (r: LeafOutcome)
      requires Valid()
      modifies this`leaves
      ensures Valid() && old(leaves) <= leaves
      ensures r == if destroyed then Destroyed
                   else if Covers(host) then Signed(CanonicalName(host)) else Refused
    {
      var name := CanonicalName(host);
      if destroyed {
        return Destroyed;
      }
      if name in leaves {
        return Signed(name);
      }
      if !CoveredBy(hosts, name) {
        return Refused;
      }
      leaves := leaves + {name};
      return Signed(name);
    }

    method Destroy()
      modifies this
      ensures Valid() && destroyed && leaves == {}
    {
      destroyed, leaves := true, {};
    }
  }
}
