/** internal/store/domain.go, and label boundaries: what "a name lies in a zone" means. */
module Domains {
  import opened Strings

  datatype Verdict = Accepted | BadLength | Wildcard | NoDot | BadLabelLength | BadHyphen | BadCharacter

  predicate LabelChar(c: char) {
    'a' <= c <= 'z' || '0' <= c <= '9' || c == '-'
  }

  predicate AllLabelChars(l: string) {
    forall i :: 0 <= i < |l| ==> LabelChar(l[i])
  }

  /** The checks on one label, in the order the source makes them. */
  function CheckLabel(l: string): Verdict {
    if |l| == 0 || |l| > 63 then BadLabelLength
    else if l[0] == '-' || l[|l| - 1] == '-' then BadHyphen
    else if !AllLabelChars(l) then BadCharacter
    else Accepted
  }

  function CheckLabels(labels: seq<string>): Verdict {
    if labels == [] then Accepted
    else
      var v := CheckLabel(labels[0]);
      if v != Accepted then v else CheckLabels(labels[1..])
  }

  function ValidateDomain(d: string): Verdict {
    if |d| == 0 || |d| > 253 then BadLength
    else if '*' in d then Wildcard
    else
      var labels := Split(d, '.');
      if |labels| < 2 then NoDot else CheckLabels(labels)
  }

  /** Why a name is refused. The checks on the whole name come first; of its labels the first bad one decides, with its
      length, then its ends, then its characters. */
  lemma {:induction false} LabelVerdict(labels: seq<string>) returns (k: nat)
    ensures CheckLabels(labels) == Accepted <==> forall i :: 0 <= i < |labels| ==> CheckLabel(labels[i]) == Accepted
    ensures CheckLabels(labels) != Accepted ==>
              && k < |labels| && (forall i :: 0 <= i < k ==> CheckLabel(labels[i]) == Accepted)
              && var l := labels[k];
                 CheckLabels(labels) ==
                 if l == "" || |l| > 63 then BadLabelLength
                 else if l[0] == '-' || l[|l| - 1] == '-' then BadHyphen
                 else BadCharacter
  {
    if labels == [] {
      k := 0;
    } else if CheckLabel(labels[0]) != Accepted {
      k := 0;
    } else {
      k := LabelVerdict(labels[1..]);
      k := k + 1;
    }
  }

  lemma VerdictIs(d: string)
    ensures ValidateDomain(d) == BadLength <==> |d| == 0 || |d| > 253
    ensures ValidateDomain(d) == Wildcard <==> 0 < |d| <= 253 && '*' in d
    ensures ValidateDomain(d) == NoDot <==> 0 < |d| <= 253 && '*' !in d && '.' !in d
  {
    hide CheckLabel;
    var k := LabelVerdict(Split(d, '.'));
    assert |Split(d, '.')| >= 2 <==> Index(d, '.') >= 0;
  }

  predicate Valid(d: string) {
    ValidateDomain(d) == Accepted
  }

  // ---- What ValidateDomain accepts, said without splitting into labels ----

  predicate StartsLabel(d: string, i: int)
    requires 0 <= i < |d|
  {
    i == 0 || d[i - 1] == '.'
  }

  predicate EndsLabel(d: string, i: int)
    requires 0 <= i < |d|
  {
    i == |d| - 1 || d[i + 1] == '.'
  }

  /** The character at `i` may stand where it stands. */
  predicate CharacterFits(d: string, i: int)
    requires 0 <= i < |d|
  {
    && (LabelChar(d[i]) || d[i] == '.')
    && (StartsLabel(d, i) || EndsLabel(d, i) ==> d[i] != '.' && d[i] != '-')
  }

  /** One of the 64 characters from `i` on is a dot. */
  predicate DotSoon(d: string, i: int)
    requires 0 <= i <= |d| - 64
  {
    exists j :: i <= j < i + 64 && d[j] == '.'
  }

  /** Every character fits and no 64 characters in a row are free of dots. */
  ghost predicate WellFormedLabels(d: string) {
    && d != ""
    && (forall i :: 0 <= i < |d| ==> CharacterFits(d, i))
    && (forall i :: 0 <= i <= |d| - 64 ==> DotSoon(d, i))
  }

  lemma {:induction false} OneLabel(d: string)
    requires '.' !in d
    ensures CheckLabel(d) == Accepted <==> WellFormedLabels(d)
  {
    if WellFormedLabels(d) {
      assert |d| >= 64 ==> DotSoon(d, 0);
      assert CharacterFits(d, 0) && CharacterFits(d, |d| - 1);
      forall i | 0 <= i < |d| ensures LabelChar(d[i]) { assert CharacterFits(d, i); }
    }
  }

  /** Gluing two dotted names: each half keeps exactly its own obligations. */
  lemma {:induction false} GlueLabels(l: string, t: string)
    requires '.' !in l
    ensures WellFormedLabels(l + "." + t) <==> WellFormedLabels(l) && WellFormedLabels(t)
  {
    var d := l + "." + t;
    var n := |l| + 1;
    assert d[|l|] == '.';
    assert forall i :: 0 <= i < |l| ==> d[i] == l[i];
    assert forall i :: 0 <= i < |t| ==> d[n + i] == t[i];
    if WellFormedLabels(d) {
      assert CharacterFits(d, |l|);
      forall i | 0 <= i < |l| ensures CharacterFits(l, i) { assert CharacterFits(d, i); }
      forall i | 0 <= i < |t| ensures CharacterFits(t, i) { assert CharacterFits(d, n + i); }
      assert |l| >= 64 ==> DotSoon(d, 0);
      forall i | 0 <= i <= |t| - 64 ensures DotSoon(t, i) {
        assert DotSoon(d, n + i);
        var j :| n + i <= j < n + i + 64 && d[j] == '.';
        assert t[j - n] == '.';
      }
    }
    if WellFormedLabels(l) && WellFormedLabels(t) {
      OneLabel(l);
      forall i | 0 <= i < |d| ensures CharacterFits(d, i) {
        if i < |l| {
          assert CharacterFits(l, i);
        } else if i > |l| {
          assert CharacterFits(t, i - n);
        } else {
          assert CharacterFits(t, 0) && d[i + 1] == t[0];
        }
      }
      forall i | 0 <= i <= |d| - 64 ensures DotSoon(d, i) {
        if i > |l| {
          assert DotSoon(t, i - n);
          var j :| i - n <= j < i - n + 64 && t[j] == '.';
          assert d[j + n] == '.';
        }
      }
    }
  }

  lemma {:induction false} LabelsIff(d: string)
    ensures CheckLabels(Split(d, '.')) == Accepted <==> WellFormedLabels(d)
    decreases |d|
  {
    var i := Index(d, '.');
    if i < 0 {
      OneLabel(d);
      assert [d][1..] == [];
    } else {
      var l, t := d[..i], d[i + 1..];
      assert d == l + "." + t;
      assert ([l] + Split(t, '.'))[1..] == Split(t, '.');
      OneLabel(l);
      LabelsIff(t);
      GlueLabels(l, t);
    }
  }

  /** ValidateDomain accepts exactly the dotted, lower-case RFC 1123 host names of at most 253 characters. */
  lemma {:induction false} ValidateDomainIff(d: string)
    ensures Valid(d) <==> |d| <= 253 && '.' in d && WellFormedLabels(d)
  {
    LabelsIff(d);
    if '*' in d && WellFormedLabels(d) {
      var i :| 0 <= i < |d| && d[i] == '*';
      assert CharacterFits(d, i);
    }
    assert |Split(d, '.')| >= 2 <==> Index(d, '.') >= 0;
  }

  /** The consequences of validity that the DNS and routing proofs use. */
  lemma {:induction false} ValidFacts(d: string)
    requires Valid(d)
    ensures d != "" && IsLower(d) && NoSpaces(d)
    ensures d[|d| - 1] != '.' && d[0] != '.'
    ensures '*' !in d && '@' !in d && ':' !in d && '[' !in d && ']' !in d
    ensures Trim(d) == d && Lower(d) == d
  {
    ValidateDomainIff(d);
    forall i | 0 <= i < |d| ensures LabelChar(d[i]) || d[i] == '.' { assert CharacterFits(d, i); }
    assert CharacterFits(d, 0) && CharacterFits(d, |d| - 1);
    LowerIsIdentity(d);
  }

  // ---- Names and zones ----

  /** miekg/dns `Fqdn` on names without backslash escapes. */
  function Fqdn(s: string): string {
    if HasSuffix(s, ".") then s else s + "."
  }

  /** `name[i..]` is `name` with some leading labels peeled off. */
  predicate BoundaryAt(name: string, i: int) {
    0 <= i < |name| && (i == 0 || name[i - 1] == '.')
  }

  /** `domain` is the apex or lies under it at a label boundary. */
  predicate Covers(apex: string, domain: string) {
    domain == apex || HasSuffix(domain, "." + apex)
  }

  predicate ProperName(s: string) {
    s != "" && s[|s| - 1] != '.'
  }

  /** Peeling labels off an FQDN reaches a zone's FQDN exactly when the zone covers the name. */
  lemma {:induction false} CoversIffPeeled(apex: string, domain: string)
    ensures Covers(apex, domain) <==>
            exists i :: BoundaryAt(domain + ".", i) && (domain + ".")[i..] == apex + "."
  {
    var name := domain + ".";
    if Covers(apex, domain) {
      var i := |domain| - |apex|;
      assert domain[i..] == apex && (i > 0 ==> domain[i - 1] == '.') by {
        if domain != apex {
          assert domain[i - 1..] == "." + apex;
          assert domain[i..] == domain[i - 1..][1..];
        }
      }
      assert BoundaryAt(name, i) && name[i..] == apex + ".";
    }
    if i :| BoundaryAt(name, i) && name[i..] == apex + "." {
      assert i == |domain| - |apex|;
      assert domain[i..] == name[i..][..|apex|] == apex;
      if i > 0 {
        assert domain[i - 1..] == [domain[i - 1]] + domain[i..];
      }
    }
  }
}
