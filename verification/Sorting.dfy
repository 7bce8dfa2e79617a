/** Sorting a list of rows: what Go's sort package and SQL's ORDER BY are asked for. */
module Sorting {
  ghost predicate Ordered<T>(s: seq<T>, le: (T, T) -> bool) {
    forall i, j :: 0 <= i < j < |s| ==> le(s[i], s[j])
  }

  ghost predicate TotalPreorder<T(!new)>(le: (T, T) -> bool) {
    && (forall x, y :: le(x, y) || le(y, x))
    && (forall x, y, z :: le(x, y) && le(y, z) ==> le(x, z))
  }

  function Insert<T>(x: T, s: seq<T>, le: (T, T) -> bool): seq<T> {
    if s == [] || !le(s[0], x) then [x] + s else [s[0]] + Insert(x, s[1..], le)
  }

  /** Rows that are equal in the order keep their places. */
  function Sort<T>(s: seq<T>, le: (T, T) -> bool): seq<T> {
    if s == [] then [] else Insert(s[|s| - 1], Sort(s[..|s| - 1], le), le)
  }

  lemma {:induction false} InsertPermutes<T(!new)>(x: T, s: seq<T>, le: (T, T) -> bool)
    ensures multiset(Insert(x, s, le)) == multiset(s) + multiset{x}
  {
    if s != [] && le(s[0], x) {
      InsertPermutes(x, s[1..], le);
      assert s == [s[0]] + s[1..];
    }
  }

  lemma {:induction false} SortPermutes<T(!new)>(s: seq<T>, le: (T, T) -> bool)
    ensures multiset(Sort(s, le)) == multiset(s) && |Sort(s, le)| == |s|
    ensures forall x :: x in Sort(s, le) <==> x in s
  {
    if s != [] {
      SortPermutes(s[..|s| - 1], le);
      InsertPermutes(s[|s| - 1], Sort(s[..|s| - 1], le), le);
      assert s == s[..|s| - 1] + [s[|s| - 1]];
    }
    assert |multiset(Sort(s, le))| == |multiset(s)|;
    assert forall x :: x in Sort(s, le) <==> x in multiset(Sort(s, le));
    assert forall x :: x in s <==> x in multiset(s);
  }

  lemma {:induction false} InsertOrders<T(!new)>(x: T, s: seq<T>, le: (T, T) -> bool)
    requires TotalPreorder(le) && Ordered(s, le)
    ensures Ordered(Insert(x, s, le), le)
  {
    if s != [] {
      if le(s[0], x) {
        var r := Insert(x, s[1..], le);
        InsertOrders(x, s[1..], le);
        InsertPermutes(x, s[1..], le);
        forall i | 0 <= i < |r| ensures le(s[0], r[i]) {
          assert r[i] in multiset(r);
          assert r[i] == x || r[i] in s[1..];
        }
      } else {
        forall i | 0 <= i < |s| ensures le(x, s[i]) {
          assert le(x, s[0]) && (i > 0 ==> le(s[0], s[i]));
        }
      }
    }
  }

  lemma {:induction false} SortOrders<T(!new)>(s: seq<T>, le: (T, T) -> bool)
    requires TotalPreorder(le)
    ensures Ordered(Sort(s, le), le)
  {
    if s != [] {
      SortOrders(s[..|s| - 1], le);
      InsertOrders(s[|s| - 1], Sort(s[..|s| - 1], le), le);
    }
  }

  /** The keys of any two rows differ. */
  ghost predicate DistinctKeys<T, K>(s: seq<T>, key: T -> K) {
    forall i, j :: 0 <= i < j < |s| ==> key(s[i]) != key(s[j])
  }

  lemma {:induction false} InsertKeepsDistinct<T(!new), K>(x: T, s: seq<T>, le: (T, T) -> bool, key: T -> K)
    requires DistinctKeys(s, key) && forall i :: 0 <= i < |s| ==> key(s[i]) != key(x)
    ensures DistinctKeys(Insert(x, s, le), key)
  {
    if s != [] && le(s[0], x) {
      var r := Insert(x, s[1..], le);
      InsertKeepsDistinct(x, s[1..], le, key);
      InsertPermutes(x, s[1..], le);
      forall i | 0 <= i < |r| ensures key(r[i]) != key(s[0]) {
        assert r[i] in multiset(r);
        assert r[i] == x || r[i] in s[1..];
      }
    }
  }

  lemma ComesFrom<T(!new)>(s: seq<T>, le: (T, T) -> bool, i: nat) returns (j: nat)
    requires i < |Sort(s, le)|
    ensures j < |s| && s[j] == Sort(s, le)[i]
  {
    SortPermutes(s, le);
    var x := Sort(s, le)[i];
    assert x in Sort(s, le);
    j :| 0 <= j < |s| && s[j] == x;
  }

  lemma {:induction false} SortKeepsDistinct<T(!new), K>(s: seq<T>, le: (T, T) -> bool, key: T -> K)
    requires DistinctKeys(s, key)
    ensures DistinctKeys(Sort(s, le), key)
  {
    if s != [] {
      var before := s[..|s| - 1];
      var t := Sort(before, le);
      SortKeepsDistinct(before, le, key);
      hide Insert;
      forall i | 0 <= i < |t| ensures key(t[i]) != key(s[|s| - 1]) {
        var j := ComesFrom(before, le, i);
        assert s[j] == t[i];
      }
      InsertKeepsDistinct(s[|s| - 1], t, le, key);
    }
  }

  // ---- Text ----

  /** Go's `<` on strings. */
  predicate StringLess(a: string, b: string) {
    b != "" && (a == "" || a[0] < b[0] || (a[0] == b[0] && StringLess(a[1..], b[1..])))
  }

  /** Up to `k` the strings are the same; there `a` ends or has the smaller character. */
  predicate LessAt(a: string, b: string, k: nat) {
    k <= |a| && k < |b| && a[..k] == b[..k] && (k == |a| || a[k] < b[k])
  }

  lemma {:induction false} StringLessIff(a: string, b: string)
    ensures StringLess(a, b) <==> exists k: nat :: LessAt(a, b, k)
    decreases |a|
  {
    if a == "" || b == "" || a[0] != b[0] {
      assert b != "" && (a == "" || a[0] < b[0]) ==> LessAt(a, b, 0);
      assert forall k: nat :: LessAt(a, b, k) && k > 0 ==> a[..k][0] == b[..k][0];
    } else {
      StringLessIff(a[1..], b[1..]);
      if k: nat :| LessAt(a[1..], b[1..], k) {
        assert a[..k + 1] == [a[0]] + a[1..][..k] && b[..k + 1] == [b[0]] + b[1..][..k];
        assert LessAt(a, b, k + 1);
      }
      if k: nat :| LessAt(a, b, k) {
        if k > 0 {
          assert a[1..][..k - 1] == a[..k][1..] && b[1..][..k - 1] == b[..k][1..];
          assert LessAt(a[1..], b[1..], k - 1);
        }
      }
    }
  }

  lemma {:induction false} StringLessTransitive(a: string, b: string, c: string)
    requires StringLess(a, b) && StringLess(b, c)
    ensures StringLess(a, c)
    decreases |a|
  {
    if a != "" && a[0] == b[0] && b[0] == c[0] {
      StringLessTransitive(a[1..], b[1..], c[1..]);
    }
  }

  lemma {:induction false} StringLessTotal(a: string, b: string)
    ensures !(StringLess(a, b) && StringLess(b, a))
    ensures a != b ==> StringLess(a, b) || StringLess(b, a)
    decreases |a|
  {
    if a != "" && b != "" && a[0] == b[0] {
      StringLessTotal(a[1..], b[1..]);
      assert a == [a[0]] + a[1..] && b == [b[0]] + b[1..];
    }
  }

  predicate AtMost(a: string, b: string) {
    a == b || StringLess(a, b)
  }

  lemma AtMostIsTotal(a: string, b: string)
    ensures AtMost(a, b) || AtMost(b, a)
    ensures AtMost(a, b) && AtMost(b, a) ==> a == b
  {
    StringLessTotal(a, b);
  }

  lemma AtMostIsTransitive(a: string, b: string, c: string)
    requires AtMost(a, b) && AtMost(b, c)
    ensures AtMost(a, c)
  {
    if StringLess(a, b) && StringLess(b, c) {
      StringLessTransitive(a, b, c);
    }
  }

  /** Rows in ascending order of one text column. */
  function ByText<T>(column: T -> string): (T, T) -> bool {
    (x: T, y: T) => AtMost(column(x), column(y))
  }

  lemma ByTextIsTotal<T(!new)>(column: T -> string)
    ensures TotalPreorder(ByText(column))
  {
    hide AtMost;
    var le := ByText(column);
    forall x, y ensures le(x, y) || le(y, x) { AtMostIsTotal(column(x), column(y)); }
    forall x, y, z | le(x, y) && le(y, z) ensures le(x, z) { AtMostIsTransitive(column(x), column(y), column(z)); }
  }

  /** Without repetitions and in ascending order. */
  ghost predicate Ascending(s: seq<string>) {
    forall i, j :: 0 <= i < j < |s| ==> StringLess(s[i], s[j])
  }

  function Itself(s: string): string { s }

  function SortedText(s: seq<string>): seq<string> {
    Sort(s, ByText(Itself))
  }

  lemma SortedTextIs(s: seq<string>)
    ensures multiset(SortedText(s)) == multiset(s) && forall d :: d in SortedText(s) <==> d in s
    ensures Ordered(SortedText(s), ByText(Itself))
    ensures DistinctKeys(s, Itself) ==> Ascending(SortedText(s))
  {
    SortPermutes(s, ByText(Itself));
    ByTextIsTotal(Itself);
    SortOrders(s, ByText(Itself));
    if DistinctKeys(s, Itself) {
      SortKeepsDistinct(s, ByText(Itself), Itself);
      var t := SortedText(s);
      forall i, j | 0 <= i < j < |t| ensures StringLess(t[i], t[j]) {
        assert ByText(Itself)(t[i], t[j]) && Itself(t[i]) != Itself(t[j]);
      }
    }
  }
}
