/** cmd/lamund/serve.go, certDomains: the names certificates are requested for. */
module CertDomains {
  import opened Wrappers
  import opened Strings
  import opened Domains
  import opened DnsStore

  /** The `*` of a wildcard name stands for exactly the one label `first`. */
  ghost predicate StandsFor(name: string, d: string, first: string) {
    "*" <= name && first != "" && '.' !in first && d == first + name[1..]
  }

  /** A certificate for `name` is valid for host `d`: equal, or a wildcard standing for exactly one leftmost
      label (section 6.4.3 of RFC 6125). */
  ghost predicate CertifiedBy(name: string, d: string) {
    name == d || exists first: string :: StandsFor(name, d, first)
  }

  /** The names requested on account of one active domain. */
  function NamesFor(zones: seq<Zone>, d: string, dnsOn: bool): seq<string> {
    match if dnsOn then ZoneFor(zones, Lower(Trim(d))) else None
    case None => [d]
    case Some(z) =>
      var host := LabelIn(z.domain, Lower(Trim(d)));
      ["*." + z.domain, z.domain] + if host != "@" && '.' in host then [d] else []
  }

  ghost predicate Duplicates(names: seq<string>) {
    exists i, j :: 0 <= i < j < |names| && names[i] == names[j]
  }

  /** The names requested for some domain of the list. */
  ghost predicate Wanted(zones: seq<Zone>, active: seq<string>, on: nat -> bool, name: string) {
    exists i: nat :: i < |active| && name in NamesFor(zones, active[i], on(i))
  }

  /** Everything that is asked for, domain by domain; `on(i)` says whether the zones are consulted for domain `i`. */
  function AllNames(zones: seq<Zone>, active: seq<string>, on: nat -> bool): seq<string> {
    if active == [] then []
    else
      var n := |active| - 1;
      AllNames(zones, active[..n], on) + NamesFor(zones, active[n], on(n))
  }

  /** The list without repetitions, each name where it comes first. */
  function FirstOnes(names: seq<string>): (r: seq<string>)
    ensures forall name :: name in r <==> name in names
  {
    if names == [] then []
    else
      var n := |names| - 1;
      assert names == names[..n] + [names[n]];
      var r := FirstOnes(names[..n]);
      if names[n] in r then r else r + [names[n]]
  }

  lemma FirstOnesAppend(names: seq<string>, name: string)
    ensures FirstOnes(names + [name]) == FirstOnes(names) + if name in names then [] else [name]
  {
    assert (names + [name])[..|names|] == names;
  }

  /** Adds the names that were not seen yet; `names` is all that was asked for before. */
  method AddEach(asked: seq<string>, seen: set<string>, out: seq<string>, ghost names: seq<string>)
      returns (seen': set<string>, out': seq<string>)
    requires out == FirstOnes(names) && forall name :: name in seen <==> name in out
    ensures out' == FirstOnes(names + asked) && forall name :: name in seen' <==> name in out'
  {
    hide FirstOnes;
    seen', out' := seen, out;
    assert names + [] == names && asked[..0] == [];
    for j := 0 to |asked|
      invariant out' == FirstOnes(names + asked[..j]) && forall name :: name in seen' <==> name in out'
    {
      assert names + asked[..j + 1] == names + asked[..j] + [asked[j]];
      FirstOnesAppend(names + asked[..j], asked[j]);
      if asked[j] !in seen' {
        seen', out' := seen' + {asked[j]}, out' + [asked[j]];
      }
    }
    assert asked[..|asked|] == asked;
  }

  /** The zones are consulted if DNS is on and listing them, done anew for each domain, succeeds. */
  function Consulted(dnsOn: bool, listed: nat -> bool): nat -> bool {
    (i: nat) => dnsOn && listed(i)
  }

  method CertNames(store: Store, active: seq<string>, dnsOn: bool, listed: nat -> bool) returns (out: seq<string>)
    ensures out == FirstOnes(AllNames(store.zones, active, Consulted(dnsOn, listed)))
  {
    hide FirstOnes;
    var seen: set<string> := {};
    out := [];
    NothingAsked(store.zones, Consulted(dnsOn, listed));
    assert active[..0] == [];
    for i := 0 to |active|
      invariant out == FirstOnes(AllNames(store.zones, active[..i], Consulted(dnsOn, listed)))
      invariant forall name :: name in seen <==> name in out
    {
      hide AllNames;
      var d := active[i];
      var asked := [d];
      if dnsOn {
        var found := store.FindDNSZoneForDomain(d, listed(i));
        if found.Some? {
          var z, host := found.value.0, found.value.1;
          asked := ["*." + z.domain, z.domain] + if host != "@" && '.' in host then [d] else [];
        }
      }
      assert asked == NamesFor(store.zones, d, Consulted(dnsOn, listed)(i));
      seen, out := AddEach(asked, seen, out, AllNames(store.zones, active[..i], Consulted(dnsOn, listed)));
      assert active[..i + 1][..i] == active[..i];
      AllNamesAppend(store.zones, active[..i + 1], Consulted(dnsOn, listed));
    }
    assert active[..|active|] == active;
  }

  lemma NothingAsked(zones: seq<Zone>, on: nat -> bool)
    ensures FirstOnes(AllNames(zones, [], on)) == []
  {
  }

  lemma AllNamesAppend(zones: seq<Zone>, active: seq<string>, on: nat -> bool)
    requires active != []
    ensures AllNames(zones, active, on) ==
            AllNames(zones, active[..|active| - 1], on) + NamesFor(zones, active[|active| - 1], on(|active| - 1))
  {
  }

  lemma {:induction false} AllNamesAreWanted(zones: seq<Zone>, active: seq<string>, on: nat -> bool)
    ensures forall name :: name in AllNames(zones, active, on) <==> Wanted(zones, active, on, name)
  {
    hide NamesFor;
    if active != [] {
      var n := |active| - 1;
      AllNamesAreWanted(zones, active[..n], on);
      forall name ensures Wanted(zones, active, on, name) <==>
                          Wanted(zones, active[..n], on, name) || name in NamesFor(zones, active[n], on(n))
      {
        assert forall i :: 0 <= i < n ==> active[..n][i] == active[i];
      }
    }
  }

  /** `name` comes first at position `p` of the list. */
  predicate FirstAt(names: seq<string>, name: string, p: nat) {
    p < |names| && names[p] == name && name !in names[..p]
  }

  /** The result names each thing once, in the order in which the list first asks for it. */
  lemma {:induction false} FirstOnesInOrder(names: seq<string>, i: nat, j: nat) returns (p: nat, q: nat)
    requires i < j < |FirstOnes(names)|
    ensures p < q && FirstAt(names, FirstOnes(names)[i], p) && FirstAt(names, FirstOnes(names)[j], q)
  {
    var n := |names| - 1;
    var before := names[..n];
    assert names == before + [names[n]];
    if j < |FirstOnes(before)| {
      p, q := FirstOnesInOrder(before, i, j);
      assert before[..p] == names[..p] && before[..q] == names[..q];
    } else {
      q := n;
      p := FirstPosition(before, FirstOnes(before)[i]);
      assert before[..p] == names[..p];
    }
  }

  lemma {:induction false} FirstPosition(names: seq<string>, name: string) returns (p: nat)
    requires name in names
    ensures FirstAt(names, name, p)
  {
    var n := |names| - 1;
    var before := names[..n];
    assert names == before + [names[n]];
    if name in before {
      p := FirstPosition(before, name);
      assert before[..p] == names[..p];
    } else {
      p := n;
    }
  }

  /** The list asks for `a` before it first asks for `b`. */
  ghost predicate AskedBefore(names: seq<string>, a: string, b: string) {
    exists p: nat, q: nat :: p < q && FirstAt(names, a, p) && FirstAt(names, b, q)
  }

  /** No name is requested twice, exactly the wanted ones are, and they keep the order of the domains. */
  lemma CertNamesAre(zones: seq<Zone>, active: seq<string>, on: nat -> bool)
    ensures var names := AllNames(zones, active, on);
            var out := FirstOnes(names);
            && !Duplicates(out)
            && (forall name :: name in out <==> Wanted(zones, active, on, name))
            && (forall i, j :: 0 <= i < j < |out| ==> AskedBefore(names, out[i], out[j]))
  {
    AllNamesAreWanted(zones, active, on);
    hide AllNames, FirstOnes, Wanted;
    var names := AllNames(zones, active, on);
    var out := FirstOnes(names);
    forall i, j | 0 <= i < j < |out| ensures out[i] != out[j] && AskedBefore(names, out[i], out[j]) {
      var p, q := FirstOnesInOrder(names, i, j);
      assert names[p] in names[..q];
    }
  }

  // ---- Coverage ----

  /** A zone's wildcard certifies the names one label below its apex. */
  lemma WildcardCertifies(apex: string, d: string)
    requires Covers(apex, d) && d != apex && d[0] != '.' && '.' !in LabelIn(apex, d)
    ensures CertifiedBy("*." + apex, d)
  {
    var first, name := LabelIn(apex, d), "*." + apex;
    assert d == first + ("." + apex);
    assert name[1..] == "." + apex;
    assert first != "";
    assert StandsFor(name, d, first);
  }

  /** Every valid domain is certified by one of the names requested for it. */
  lemma NamesCertify(zones: seq<Zone>, d: string, dnsOn: bool) returns (name: string)
    requires DistinctDomains(zones) && Valid(d)
    ensures name in NamesFor(zones, d, dnsOn) && CertifiedBy(name, d)
  {
    ValidFacts(d);
    hide Valid, Trim, Lower, Covers, LabelIn, StandsFor;
    name := d;
    if dnsOn && ZoneFor(zones, d).Some? {
      var z := ZoneFor(zones, d).value;
      ZoneForIsLongestCover(zones, d);
      assert IsLongestCover(zones, d, z);
      assert NamesFor(zones, d, dnsOn)[0] == "*." + z.domain && NamesFor(zones, d, dnsOn)[1] == z.domain;
      if d != z.domain {
        var host := LabelIn(z.domain, d);
        if '.' !in host {
          WildcardCertifies(z.domain, d);
          name := "*." + z.domain;
        } else {
          assert NamesFor(zones, d, dnsOn)[2] == d;
        }
      }
    } else {
      assert NamesFor(zones, d, dnsOn)[0] == d;
    }
  }

  /** Whatever the zones, nested ones included, every active domain is covered by a requested name. */
  lemma EveryDomainCertified(zones: seq<Zone>, active: seq<string>, on: nat -> bool, d: string)
    requires DistinctDomains(zones) && Valid(d) && d in active
    ensures exists name :: Wanted(zones, active, on, name) && CertifiedBy(name, d)
  {
    hide Valid, NamesFor, CertifiedBy;
    var i :| 0 <= i < |active| && active[i] == d;
    var name := NamesCertify(zones, d, on(i));
    assert Wanted(zones, active, on, name);
  }

  /** For every listed domain in a managed zone both the zone's apex and its wildcard are requested. */
  lemma ManagedZoneRequested(zones: seq<Zone>, active: seq<string>, on: nat -> bool, i: nat, z: Zone)
    requires DistinctDomains(zones) && i < |active| && on(i) && IsLongestCover(zones, Lower(Trim(active[i])), z)
    ensures Wanted(zones, active, on, z.domain) && Wanted(zones, active, on, "*." + z.domain)
  {
    ZoneForIsLongestCover(zones, Lower(Trim(active[i])));
    var names := NamesFor(zones, active[i], on(i));
    assert names[0] == "*." + z.domain && names[1] == z.domain;
    hide NamesFor;
    assert names[0] in names && names[1] in names;
  }

  /** The domain's own name is asked for: no managed zone covers it, or it is neither the apex of the longest one that
      does nor a name its wildcard stands for. */
  ghost predicate NeedsItsOwn(zones: seq<Zone>, d: string, on: bool) {
    var domain := Lower(Trim(d));
    || !on
    || (forall z :: z in zones ==> !Covers(z.domain, domain))
    || (exists z :: IsLongestCover(zones, domain, z) && domain != z.domain
                    && forall first :: !StandsFor("*." + z.domain, domain, first))
  }

  lemma StandsForLabel(apex: string, d: string, first: string)
    requires Covers(apex, d) && d != apex && StandsFor("*." + apex, d, first)
    ensures first == LabelIn(apex, d)
  {
    var prefix, name := LabelIn(apex, d), "*." + apex;
    assert d == prefix + ("." + apex) && name[1..] == "." + apex;
    assert d[..|first|] == first && d[..|prefix|] == prefix;
  }

  lemma WildcardStandsForOneLabel(apex: string, d: string)
    requires Covers(apex, d) && d != apex && '.' in LabelIn(apex, d)
    ensures forall first :: !StandsFor("*." + apex, d, first)
  {
    forall first ensures !StandsFor("*." + apex, d, first) {
      if StandsFor("*." + apex, d, first) { StandsForLabel(apex, d, first); }
    }
  }

  /** Nothing is requested that no active domain gave cause for: a requested name is the apex or wildcard of the zone
      that manages an active domain, or an active domain that needs its own. */
  lemma OnlyCalledFor(zones: seq<Zone>, active: seq<string>, on: nat -> bool, name: string)
    requires DistinctDomains(zones) && Wanted(zones, active, on, name)
    ensures exists i: nat :: i < |active| && CallsFor(zones, active[i], on(i), name)
  {
    hide Trim, Lower, IsLongestCover, NamesFor, CallsFor;
    var i: nat :| i < |active| && name in NamesFor(zones, active[i], on(i));
    OneCallsFor(zones, active[i], on(i), name);
  }

  ghost predicate CallsFor(zones: seq<Zone>, d: string, on: bool, name: string) {
    || (name == d && NeedsItsOwn(zones, d, on))
    || exists z :: IsLongestCover(zones, Lower(Trim(d)), z) && (name == z.domain || name == "*." + z.domain)
  }

  lemma OneCallsFor(zones: seq<Zone>, d: string, on: bool, name: string)
    requires DistinctDomains(zones) && name in NamesFor(zones, d, on)
    ensures CallsFor(zones, d, on, name)
  {
    var domain := Lower(Trim(d));
    ZoneForIsLongestCover(zones, domain);
    hide Trim, Lower, StandsFor, ZoneFor;
    if on && ZoneFor(zones, domain).Some? {
      var z := ZoneFor(zones, domain).value;
      assert IsLongestCover(zones, domain, z);
      if name != z.domain && name != "*." + z.domain {
        WildcardStandsForOneLabel(z.domain, domain);
      }
    }
  }
}
