/** internal/api/usersearch.go, rankUserMatches: the best `limit` of the matching candidates. */
module UserRanking {
  import opened Wrappers
  import opened Sorting
  import opened Strings
  import EditDistance

  datatype User = User(username: string, name: string)

  datatype Scored = Scored(user: User, rank: nat, tie: nat)

  // ---- Scoring one candidate ----

  predicate OccursAt(s: string, q: string, i: nat) {
    i + |q| <= |s| && s[i..i + |q|] == q
  }

  predicate Contains(s: string, q: string) {
    exists i: nat :: i <= |s| && OccursAt(s, q, i)
  }

  predicate Around(s: string, q: string, before: string, behind: string) {
    s == before + q + behind
  }

  /** There is something before the occurrence, `i` characters long, and something behind it. */
  lemma OccursIff(s: string, q: string, i: nat)
    ensures OccursAt(s, q, i) <==> exists before, behind :: |before| == i && Around(s, q, before, behind)
  {
    if OccursAt(s, q, i) {
      assert |s[..i]| == i && Around(s, q, s[..i], s[i + |q|..]);
    }
    if before, behind :| |before| == i && Around(s, q, before, behind) {
      assert s[i..i + |q|] == q;
    }
  }

  lemma ContainsIff(s: string, q: string)
    ensures Contains(s, q) <==> exists before, behind :: Around(s, q, before, behind)
  {
    if i: nat :| i <= |s| && OccursAt(s, q, i) {
      OccursIff(s, q, i);
    }
    if before, behind :| Around(s, q, before, behind) {
      OccursIff(s, q, |before|);
      assert OccursAt(s, q, |before|);
    }
  }

  /** First occurrence of `q` in `s` at or after `from`. */
  function Occurrence(s: string, q: string, from: nat): (i: nat)
    requires exists j: nat :: from <= j <= |s| && OccursAt(s, q, j)
    ensures from <= i <= |s| && OccursAt(s, q, i)
    ensures forall j :: from <= j < i ==> !OccursAt(s, q, j)
    decreases |s| - from
  {
    if OccursAt(s, q, from) then from else Occurrence(s, q, from + 1)
  }

  function Score(c: User, q: string): Option<Scored> {
    var u, n := Lower(c.username), Lower(c.name);
    if u == q then Some(Scored(c, 0, 0))
    else if q <= u then Some(Scored(c, 1, |u|))
    else if Contains(u, q) then Some(Scored(c, 2, Occurrence(u, q, 0)))
    else
      var d := EditDistance.Distance(u, q);
      if d <= 2 then Some(Scored(c, 3, d))
      else if Contains(n, q) then Some(Scored(c, 4, 0))
      else None
  }

  // ---- The order ----

  predicate Before(x: Scored, y: Scored) {
    if x.rank != y.rank then x.rank < y.rank
    else if x.tie != y.tie then x.tie < y.tie
    else StringLess(x.user.username, y.user.username)
  }

  lemma BeforeTotal(x: Scored, y: Scored)
    ensures !(Before(x, y) && Before(y, x))
    ensures x.user.username != y.user.username ==> Before(x, y) || Before(y, x)
  {
    StringLessTotal(x.user.username, y.user.username);
  }

  ghost predicate Sorted(s: seq<Scored>) {
    forall i, j :: 0 <= i < j < |s| ==> Before(s[i], s[j])
  }

  // ---- Sorting ----

  /** The order handed to sort.Slice. */
  function NotAfter(): (Scored, Scored) -> bool {
    (x: Scored, y: Scored) => !Before(y, x)
  }

  function NameOf(x: Scored): string { x.user.username }

  ghost predicate DistinctNames(s: seq<Scored>) {
    DistinctKeys(s, NameOf)
  }

  lemma SortSorts(s: seq<Scored>)
    requires DistinctNames(s)
    ensures Sorted(Sort(s, NotAfter())) && DistinctNames(Sort(s, NotAfter()))
  {
    hide Before;
    var le := NotAfter();
    forall x, y ensures le(x, y) || le(y, x) { BeforeTotal(x, y); }
    forall x, y, z | le(x, y) && le(y, z) ensures le(x, z) { NotAfterTransitive(x, y, z); }
    SortOrders(s, le);
    SortKeepsDistinct(s, le, NameOf);
    var t := Sort(s, le);
    forall i, j | 0 <= i < j < |t| ensures Before(t[i], t[j]) {
      assert le(t[i], t[j]) && NameOf(t[i]) != NameOf(t[j]);
      BeforeTotal(t[i], t[j]);
    }
  }

  lemma NotAfterTransitive(x: Scored, y: Scored, z: Scored)
    requires !Before(y, x) && !Before(z, y)
    ensures !Before(z, x)
  {
    StringLessTotal(x.user.username, y.user.username);
    StringLessTotal(y.user.username, z.user.username);
    StringLessTotal(x.user.username, z.user.username);
    if StringLess(z.user.username, x.user.username) && StringLess(x.user.username, y.user.username) {
      StringLessTransitive(z.user.username, x.user.username, y.user.username);
    }
    if StringLess(y.user.username, z.user.username) && StringLess(z.user.username, x.user.username) {
      StringLessTransitive(y.user.username, z.user.username, x.user.username);
    }
  }

  lemma SortedHeads(s: seq<Scored>, t: seq<Scored>)
    requires Sorted(s) && Sorted(t) && multiset(s) == multiset(t) && s != [] && t != []
    ensures s[0] == t[0]
  {
    hide Before;
    assert s[0] in multiset(t) && t[0] in multiset(s);
    var i :| 0 <= i < |t| && t[i] == s[0];
    var j :| 0 <= j < |s| && s[j] == t[0];
    BeforeTotal(s[0], t[0]);
  }

  /** Two sorted arrangements of the same rows are the same list. */
  lemma {:induction false} SortedIsUnique(s: seq<Scored>, t: seq<Scored>)
    requires Sorted(s) && Sorted(t) && multiset(s) == multiset(t)
    ensures s == t
  {
    hide Before;
    assert |s| == |multiset(s)| == |multiset(t)| == |t|;
    if s != [] {
      SortedHeads(s, t);
      var s', t' := s[1..], t[1..];
      assert s == [s[0]] + s' && t == [t[0]] + t';
      assert multiset(s') == multiset(s) - multiset{s[0]};
      assert multiset(t') == multiset(t) - multiset{t[0]};
      SortedIsUnique(s', t');
    }
  }

  // ---- The whole operation ----

  function Matches(cands: seq<User>, q: string): seq<Scored> {
    if cands == [] then []
    else
      var rest := Matches(cands[..|cands| - 1], q);
      match Score(cands[|cands| - 1], q)
      case Some(s) => rest + [s]
      case None => rest
  }

  function Users(s: seq<Scored>): (us: seq<User>)
    ensures |us| == |s| && forall i :: 0 <= i < |s| ==> us[i] == s[i].user
  {
    seq(|s|, i requires 0 <= i < |s| => s[i].user)
  }

  function Best(cands: seq<User>, q: string, limit: nat): seq<User> {
    var s := Sort(Matches(cands, q), NotAfter());
    Users(if |s| > limit then s[..limit] else s)
  }

  method RankUserMatches(cands: seq<User>, q: string, limit: nat) returns (out: seq<User>)
    ensures out == Best(cands, q, limit)
  {
    var scored: seq<Scored> := [];
    for i := 0 to |cands|
      invariant scored == Matches(cands[..i], q)
    {
      assert cands[..i + 1][..i] == cands[..i];
      var c := cands[i];
      var u, n := Lower(c.username), Lower(c.name);
      var rank, tie := 0, 0;
      if u == q {
        rank, tie := 0, 0;
      } else if q <= u {
        rank, tie := 1, |u|;
      } else if Contains(u, q) {
        rank, tie := 2, Occurrence(u, q, 0);
      } else {
        var d := EditDistance.Levenshtein(u, q);
        if d <= 2 {
          rank, tie := 3, d;
        } else if Contains(n, q) {
          rank, tie := 4, 0;
        } else {
          continue;
        }
      }
      scored := scored + [Scored(c, rank, tie)];
    }
    assert cands[..|cands|] == cands;
    scored := Sort(scored, NotAfter());
    if |scored| > limit {
      scored := scored[..limit];
    }
    out := Users(scored);
  }

  // ---- What the caller gets ----

  ghost predicate DistinctUsernames(cands: seq<User>) {
    forall i, j :: 0 <= i < j < |cands| ==> cands[i].username != cands[j].username
  }

  /** `Matches` lists exactly the candidates that score, each once, with their scores. */
  lemma {:induction false} MatchesAreScores(cands: seq<User>, q: string)
    ensures forall s :: s in Matches(cands, q) <==> s.user in cands && Score(s.user, q) == Some(s)
    ensures DistinctUsernames(cands) ==> DistinctNames(Matches(cands, q))
  {
    hide Score;
    if cands != [] {
      var c, rest := cands[|cands| - 1], cands[..|cands| - 1];
      MatchesAreScores(rest, q);
      RankZeroIsExact(c, q);
      assert cands == rest + [c];
      if DistinctUsernames(cands) && Score(c, q).Some? {
        forall i | 0 <= i < |Matches(rest, q)|
          ensures Matches(rest, q)[i].user.username != c.username
        {
          assert Matches(rest, q)[i] in Matches(rest, q);
        }
      }
    }
  }

  lemma SortedMatches(cands: seq<User>, q: string) returns (s: seq<Scored>)
    requires DistinctUsernames(cands)
    ensures s == Sort(Matches(cands, q), NotAfter()) && Sorted(s) && DistinctNames(s)
    ensures forall x :: x in s <==> x.user in cands && Score(x.user, q) == Some(x)
  {
    hide Score;
    s := Sort(Matches(cands, q), NotAfter());
    MatchesAreScores(cands, q);
    SortSorts(Matches(cands, q));
    SortPermutes(Matches(cands, q), NotAfter());
  }

  lemma RankZeroIsExact(c: User, q: string)
    ensures Lower(c.username) == q <==> Score(c, q).Some? && Score(c, q).value.rank == 0
    ensures Score(c, q).Some? ==> Score(c, q).value.user == c
  {
  }

  // ---- Who matches and who comes first, in words of the strings ----

  predicate IsExact(c: User, q: string) {
    Lower(c.username) == q
  }

  predicate StartsWith(c: User, q: string) {
    |q| <= |c.username| && Lower(c.username)[..|q|] == q
  }

  predicate Inside(c: User, q: string) {
    Contains(Lower(c.username), q)
  }

  /** The query first occurs in the username at position `i`. */
  predicate InsideAt(c: User, q: string, i: nat) {
    OccursAt(Lower(c.username), q, i) && forall j :: 0 <= j < i ==> !OccursAt(Lower(c.username), q, j)
  }

  /** A script of at most `n` edits turns the username into the query. */
  ghost predicate Within(c: User, q: string, n: nat) {
    exists k: nat :: k <= n && EditDistance.Script(Lower(c.username), q, k)
  }

  predicate NameHas(c: User, q: string) {
    Contains(Lower(c.name), q)
  }

  ghost predicate Matched(c: User, q: string) {
    IsExact(c, q) || StartsWith(c, q) || Inside(c, q) || Within(c, q, 2) || NameHas(c, q)
  }

  /** `x` can be turned into the query with fewer edits than `y`. */
  ghost predicate Closer(x: User, y: User, q: string) {
    exists n: nat :: Within(x, q, n) && !Within(y, q, n)
  }

  /** The query first occurs earlier in `x`. */
  predicate InsideEarlier(x: User, y: User, q: string) {
    exists i: nat :: i <= |x.username| && InsideAt(x, q, i) && !exists j: nat :: j <= i && InsideAt(y, q, j)
  }

  /** Both match, and `x` belongs before `y`: exact, then prefix, shorter first, then inner occurrence, earlier first,
      then typo, closer first, then name; among equals by username. */
  ghost predicate Ahead(x: User, y: User, q: string) {
    && Matched(x, q) && Matched(y, q)
    && var less := StringLess(x.username, y.username);
       if IsExact(x, q) || IsExact(y, q) then
         IsExact(x, q) && (IsExact(y, q) ==> less)
       else if StartsWith(x, q) || StartsWith(y, q) then
         StartsWith(x, q) && (StartsWith(y, q) ==>
           |x.username| < |y.username| || (|x.username| == |y.username| && less))
       else if Inside(x, q) || Inside(y, q) then
         Inside(x, q) && (Inside(y, q) ==> InsideEarlier(x, y, q) || (!InsideEarlier(y, x, q) && less))
       else if Within(x, q, 2) || Within(y, q, 2) then
         Within(x, q, 2) && (Within(y, q, 2) ==> Closer(x, y, q) || (!Closer(y, x, q) && less))
       else less
  }

  lemma WithinIff(c: User, q: string, n: nat)
    ensures Within(c, q, n) <==> EditDistance.Distance(Lower(c.username), q) <= n
  {
    EditDistance.DistanceIsShortestScript(Lower(c.username), q);
  }

  lemma CloserIff(x: User, y: User, q: string)
    ensures Closer(x, y, q) <==>
            EditDistance.Distance(Lower(x.username), q) < EditDistance.Distance(Lower(y.username), q)
  {
    hide Within;
    forall c, n: nat ensures Within(c, q, n) <==> EditDistance.Distance(Lower(c.username), q) <= n {
      WithinIff(c, q, n);
    }
    var d := EditDistance.Distance(Lower(x.username), q);
    assert Within(x, q, d);
  }

  lemma EarlierIff(x: User, y: User, q: string)
    requires Inside(x, q) && Inside(y, q)
    ensures InsideEarlier(x, y, q) <==>
            Occurrence(Lower(x.username), q, 0) < Occurrence(Lower(y.username), q, 0)
  {
    var i, j := Occurrence(Lower(x.username), q, 0), Occurrence(Lower(y.username), q, 0);
    assert InsideAt(x, q, i) && InsideAt(y, q, j);
    assert forall k: nat :: InsideAt(x, q, k) ==> k == i;
    assert forall k: nat :: InsideAt(y, q, k) ==> k == j;
  }

  /** The scores say exactly that. */
  lemma ScoreIs(c: User, q: string)
    ensures Score(c, q).Some? <==> Matched(c, q)
    ensures Score(c, q).Some? ==>
              var s, u := Score(c, q).value, Lower(c.username);
              && s.user == c
              && (if IsExact(c, q) then s.rank == 0 && s.tie == 0
                  else if StartsWith(c, q) then s.rank == 1 && s.tie == |c.username|
                  else if Inside(c, q) then s.rank == 2 && s.tie == Occurrence(u, q, 0)
                  else if Within(c, q, 2) then s.rank == 3 && s.tie == EditDistance.Distance(u, q)
                  else s.rank == 4 && s.tie == 0)
  {
    WithinIff(c, q, 2);
    assert StartsWith(c, q) <==> q <= Lower(c.username);
  }

  lemma AheadIff(x: User, y: User, q: string)
    requires Matched(x, q) && Matched(y, q)
    ensures Ahead(x, y, q) <==> Score(x, q).Some? && Score(y, q).Some? && Before(Score(x, q).value, Score(y, q).value)
  {
    ScoreIs(x, q);
    ScoreIs(y, q);
    CloserIff(x, y, q);
    CloserIff(y, x, q);
    if Inside(x, q) && Inside(y, q) {
      EarlierIff(x, y, q);
      EarlierIff(y, x, q);
    }
    hide Matched, Within, Closer, Inside, InsideEarlier, IsExact, StartsWith, Score, StringLess;
  }

  /** The result holds only matches, in strictly increasing order. */
  lemma BestIsSorted(cands: seq<User>, q: string, limit: nat)
    requires DistinctUsernames(cands)
    ensures var out := Best(cands, q, limit);
            && |out| <= limit
            && (forall i :: 0 <= i < |out| ==> out[i] in cands && Matched(out[i], q))
            && (forall i, j :: 0 <= i < j < |out| ==> Ahead(out[i], out[j], q))
  {
    var s := SortedMatches(cands, q);
    var out := Best(cands, q, limit);
    assert |out| <= limit && |out| <= |s| && forall i :: 0 <= i < |out| ==> out[i] == s[i].user;
    hide Score, Before, Sort, Best, Users, Matches, DistinctNames, DistinctUsernames, Matched, Ahead;
    forall i | 0 <= i < |out| ensures out[i] in cands && Score(out[i], q) == Some(s[i]) && Matched(out[i], q) {
      assert s[i] in s;
      ScoreIs(out[i], q);
    }
    forall i, j | 0 <= i < j < |out| ensures Ahead(out[i], out[j], q) {
      assert Before(s[i], s[j]);
      AheadIff(out[i], out[j], q);
    }
  }

  /** A match left out comes after every match returned, of which there are then `limit`. */
  lemma OmittedComeAfter(cands: seq<User>, q: string, limit: nat, c: User)
    requires DistinctUsernames(cands)
    requires c in cands && Matched(c, q) && c !in Best(cands, q, limit)
    ensures var out := Best(cands, q, limit);
            |out| == limit && forall i :: 0 <= i < |out| ==> Ahead(out[i], c, q)
  {
    var s := SortedMatches(cands, q);
    var out, all := Best(cands, q, limit), Users(s);
    assert forall i :: 0 <= i < |all| && i < limit ==> all[i] == out[i];
    hide Score, Before, Sort, Best, Matched, Ahead;
    ScoreIs(c, q);
    var k :| 0 <= k < |s| && s[k] == Score(c, q).value;
    assert all[k] == c;
    forall i | 0 <= i < |out| ensures Ahead(out[i], c, q) {
      assert s[i] in s && Before(s[i], s[k]);
      ScoreIs(out[i], q);
      AheadIff(out[i], c, q);
    }
  }

  /** A candidate whose username is the query comes first, whatever else matches. */
  lemma ExactMatchIsFirst(cands: seq<User>, q: string, limit: nat, c: User)
    requires DistinctUsernames(cands) && limit > 0
    requires c in cands && Lower(c.username) == q
    ensures var out := Best(cands, q, limit); out != [] && Lower(out[0].username) == q
  {
    var out := Best(cands, q, limit);
    hide Score, Best, Within, Closer, InsideEarlier, Inside, StartsWith;
    BestIsSorted(cands, q, limit);
    if c in out {
      var k :| 0 <= k < |out| && out[k] == c;
      assert k > 0 ==> Ahead(out[0], c, q);
    } else {
      OmittedComeAfter(cands, q, limit, c);
      assert Ahead(out[0], c, q);
    }
  }

  lemma {:induction false} MatchesOfPermutation(cands: seq<User>, q: string, s: Scored)
    ensures multiset(Matches(cands, q))[s] == if Score(s.user, q) == Some(s) then multiset(cands)[s.user] else 0
  {
    hide Score;
    if cands != [] {
      RankZeroIsExact(cands[|cands| - 1], q);
      MatchesOfPermutation(cands[..|cands| - 1], q, s);
      assert cands == cands[..|cands| - 1] + [cands[|cands| - 1]];
    }
  }

  /** The order in which the database returned the candidates does not matter. */
  lemma BestIgnoresInputOrder(cands: seq<User>, other: seq<User>, q: string, limit: nat)
    requires DistinctUsernames(cands) && DistinctUsernames(other) && multiset(cands) == multiset(other)
    ensures Best(cands, q, limit) == Best(other, q, limit)
  {
    var s := SortedMatches(cands, q);
    var t := SortedMatches(other, q);
    SortPermutes(Matches(cands, q), NotAfter());
    SortPermutes(Matches(other, q), NotAfter());
    forall x ensures multiset(s)[x] == multiset(t)[x] {
      MatchesOfPermutation(cands, q, x);
      MatchesOfPermutation(other, q, x);
    }
    assert multiset(s) == multiset(t);
    SortedIsUnique(s, t);
  }
}
