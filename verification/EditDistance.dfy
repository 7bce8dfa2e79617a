/** internal/api/usersearch.go, levenshtein: the row-by-row table computes the length of a shortest edit script. */
module EditDistance {

  // ---- What an edit script is ----

  ghost predicate Inserts(a: string, b: string, i: nat, c: char) {
    i <= |a| && b == a[..i] + [c] + a[i..]
  }

  ghost predicate Substitutes(a: string, b: string, i: nat, c: char) {
    i < |a| && b == a[..i] + [c] + a[i + 1..]
  }

  /** One insertion, deletion or substitution of one character, anywhere. */
  ghost predicate OneEdit(a: string, b: string) {
    || (exists i: nat, c: char :: Inserts(a, b, i, c))
    || (exists i: nat, c: char :: Inserts(b, a, i, c))
    || (exists i: nat, c: char :: Substitutes(a, b, i, c))
  }

  /** A script of exactly `n` edits turns `a` into `b`. */
  ghost predicate Script(a: string, b: string, n: nat)
    decreases n
  {
    if n == 0 then a == b else exists m: string :: OneEdit(a, m) && Script(m, b, n - 1)
  }

  // ---- The table ----

  function Min3(x: nat, y: nat, z: nat): nat {
    if x <= y && x <= z then x else if y <= z then y else z
  }

  function Cost(c: char, d: char): nat {
    if c == d then 0 else 1
  }

  /** The table entry for the first `i` characters of `a` and the first `j` of `b`. */
  function Cell(a: string, b: string, i: nat, j: nat): nat
    requires i <= |a| && j <= |b|
    decreases i + j
  {
    if i == 0 then j
    else if j == 0 then i
    else
      Min3(Cell(a, b, i, j - 1) + 1, Cell(a, b, i - 1, j) + 1, Cell(a, b, i - 1, j - 1) + Cost(a[i - 1], b[j - 1]))
  }

  function Distance(a: string, b: string): nat {
    Cell(a, b, |a|, |b|)
  }

  // The table's defining equations. The proofs below hide the recursion and use these.

  lemma CellEdge(a: string, b: string, i: nat, j: nat)
    requires i <= |a| && j <= |b| && (i == 0 || j == 0)
    ensures Cell(a, b, i, j) == i + j
  {
  }

  lemma CellStep(a: string, b: string, i: nat, j: nat)
    requires 1 <= i <= |a| && 1 <= j <= |b|
    ensures Cell(a, b, i, j) ==
            Min3(Cell(a, b, i, j - 1) + 1, Cell(a, b, i - 1, j) + 1,
                 Cell(a, b, i - 1, j - 1) + Cost(a[i - 1], b[j - 1]))
  {
  }

  /** `row` is the start of row `i` of the table. */
  ghost predicate IsRow(row: seq<nat>, a: string, b: string, i: nat) {
    i <= |a| && |row| <= |b| + 1 && forall j :: 0 <= j < |row| ==> row[j] == Cell(a, b, i, j)
  }

  lemma FirstRow(row: seq<nat>, a: string, b: string)
    requires |row| == |b| + 1 && forall j :: 0 <= j < |row| ==> row[j] == j
    ensures IsRow(row, a, b, 0)
  {
  }

  lemma ExtendRow(prev: seq<nat>, row: seq<nat>, a: string, b: string, i: nat, j: nat)
    requires 1 <= i <= |a| && 1 <= j <= |b| && |prev| == |b| + 1 && |row| == j
    requires IsRow(prev, a, b, i - 1) && IsRow(row, a, b, i)
    ensures IsRow(row + [Min3(row[j - 1] + 1, prev[j] + 1, prev[j - 1] + Cost(a[i - 1], b[j - 1]))], a, b, i)
  {
    hide Cell;
    CellStep(a, b, i, j);
  }

  method Levenshtein(a: string, b: string) returns (d: nat)
    ensures d == Distance(a, b)
  {
    if |a| == 0 {
      return |b|;
    }
    if |b| == 0 {
      return |a|;
    }
    hide Cell;
    var prev := new nat[|b| + 1](j => j);
    FirstRow(prev[..], a, b);
    for i := 1 to |a| + 1
      invariant prev.Length == |b| + 1 && IsRow(prev[..], a, b, i - 1)
    {
      var cur := new nat[|b| + 1](_ => 0);
      cur[0] := i;
      CellEdge(a, b, i, 0);
      for j := 1 to |b| + 1
        invariant IsRow(cur[..j], a, b, i) && IsRow(prev[..], a, b, i - 1)
      {
        ExtendRow(prev[..], cur[..j], a, b, i, j);
        ghost var row := cur[..j];
        cur[j] := Min3(cur[j - 1] + 1, prev[j] + 1, prev[j - 1] + Cost(a[i - 1], b[j - 1]));
        assert cur[..j + 1] == row + [cur[j]];
      }
      assert cur[..] == cur[..|b| + 1];
      prev := cur;
    }
    return prev[|b|];
  }

  /** The table's answer is the length of a shortest script of insertions, deletions and substitutions. */
  lemma DistanceIsShortestScript(a: string, b: string)
    ensures Script(a, b, Distance(a, b))
    ensures forall n: nat :: Script(a, b, n) ==> Distance(a, b) <= n
  {
    CellIsAchieved(a, b, |a|, |b|);
    assert a[..|a|] == a && b[..|b|] == b;
    forall n: nat | Script(a, b, n) ensures Distance(a, b) <= n {
      NoShorterScript(a, b, n);
    }
  }

  // ---- A script of that length exists ----

  lemma {:induction false} OneEditAppend(a: string, b: string, c: char)
    requires OneEdit(a, b)
    ensures OneEdit(a + [c], b + [c])
  {
    if i: nat, x :| Inserts(a, b, i, x) {
      assert Inserts(a + [c], b + [c], i, x);
    } else if i: nat, x :| Inserts(b, a, i, x) {
      assert Inserts(b + [c], a + [c], i, x);
    } else {
      var i: nat, x :| Substitutes(a, b, i, x);
      assert Substitutes(a + [c], b + [c], i, x);
    }
  }

  lemma {:induction false} ScriptAppend(a: string, b: string, n: nat, c: char)
    requires Script(a, b, n)
    ensures Script(a + [c], b + [c], n)
    decreases n
  {
    if n > 0 {
      var m :| OneEdit(a, m) && Script(m, b, n - 1);
      OneEditAppend(a, m, c);
      ScriptAppend(m, b, n - 1, c);
    }
  }

  lemma {:induction false} ScriptThenEdit(a: string, b: string, n: nat, c: string)
    requires Script(a, b, n) && OneEdit(b, c)
    ensures Script(a, c, n + 1)
    decreases n
  {
    if n == 0 {
      assert OneEdit(a, c) && Script(c, c, 0);
    } else {
      var m :| OneEdit(a, m) && Script(m, b, n - 1);
      ScriptThenEdit(m, b, n - 1, c);
    }
  }

  lemma {:induction false} DeleteLast(a: string, b: string, n: nat, c: char)
    requires Script(a, b, n)
    ensures Script(a + [c], b, n + 1)
  {
    assert Inserts(a, a + [c], |a|, c);
    assert OneEdit(a + [c], a);
  }

  lemma {:induction false} InsertLast(a: string, b: string, n: nat, c: char)
    requires Script(a, b, n)
    ensures Script(a, b + [c], n + 1)
  {
    assert Inserts(b, b + [c], |b|, c);
    ScriptThenEdit(a, b, n, b + [c]);
  }

  lemma {:induction false} ReplaceLast(a: string, b: string, n: nat, c: char, x: char)
    requires Script(a, b, n)
    ensures Script(a + [c], b + [x], n + 1)
  {
    ScriptAppend(a, b, n, x);
    assert Substitutes(a + [c], a + [x], |a|, x);
    assert OneEdit(a + [c], a + [x]);
  }

  lemma {:induction false} InsertAll(b: string, j: nat)
    requires j <= |b|
    ensures Script("", b[..j], j)
  {
    if j > 0 {
      assert b[..j] == b[..j - 1] + [b[j - 1]];
      InsertAll(b, j - 1);
      InsertLast("", b[..j - 1], j - 1, b[j - 1]);
    }
  }

  lemma {:induction false} DeleteAll(a: string, i: nat)
    requires i <= |a|
    ensures Script(a[..i], "", i)
  {
    if i > 0 {
      assert a[..i] == a[..i - 1] + [a[i - 1]];
      DeleteAll(a, i - 1);
      DeleteLast(a[..i - 1], "", i - 1, a[i - 1]);
    }
  }

  lemma {:induction false} CellIsAchieved(a: string, b: string, i: nat, j: nat)
    requires i <= |a| && j <= |b|
    ensures Script(a[..i], b[..j], Cell(a, b, i, j))
    decreases i + j
  {
    hide Cell, Script;
    if i == 0 {
      CellEdge(a, b, i, j);
      InsertAll(b, j);
    } else if j == 0 {
      CellEdge(a, b, i, j);
      DeleteAll(a, i);
    } else {
      var d := Cell(a, b, i, j);
      CellStep(a, b, i, j);
      assert a[..i] == a[..i - 1] + [a[i - 1]] && b[..j] == b[..j - 1] + [b[j - 1]];
      if d == Cell(a, b, i - 1, j) + 1 {
        CellIsAchieved(a, b, i - 1, j);
        DeleteLast(a[..i - 1], b[..j], d - 1, a[i - 1]);
      } else if d == Cell(a, b, i, j - 1) + 1 {
        CellIsAchieved(a, b, i, j - 1);
        InsertLast(a[..i], b[..j - 1], d - 1, b[j - 1]);
      } else if a[i - 1] == b[j - 1] {
        CellIsAchieved(a, b, i - 1, j - 1);
        ScriptAppend(a[..i - 1], b[..j - 1], d, b[j - 1]);
      } else {
        CellIsAchieved(a, b, i - 1, j - 1);
        ReplaceLast(a[..i - 1], b[..j - 1], d - 1, a[i - 1], b[j - 1]);
      }
    }
  }

  // ---- No script is shorter: the distance is a metric and one edit moves it by at most one ----

  lemma {:induction false} CellBounds(a: string, b: string, i: nat, j: nat)
    requires i <= |a| && j <= |b|
    ensures i - j <= Cell(a, b, i, j) && j - i <= Cell(a, b, i, j) <= i + j
    decreases i + j
  {
    hide Cell;
    if i == 0 || j == 0 {
      CellEdge(a, b, i, j);
    } else {
      CellStep(a, b, i, j);
      CellBounds(a, b, i, j - 1);
      CellBounds(a, b, i - 1, j);
      CellBounds(a, b, i - 1, j - 1);
    }
  }

  lemma {:induction false} CellSymmetric(a: string, b: string, i: nat, j: nat)
    requires i <= |a| && j <= |b|
    ensures Cell(a, b, i, j) == Cell(b, a, j, i)
    decreases i + j
  {
    hide Cell;
    if i == 0 || j == 0 {
      CellEdge(a, b, i, j);
      CellEdge(b, a, j, i);
    } else {
      CellStep(a, b, i, j);
      CellStep(b, a, j, i);
      CellSymmetric(a, b, i, j - 1);
      CellSymmetric(a, b, i - 1, j);
      CellSymmetric(a, b, i - 1, j - 1);
    }
  }

  lemma {:induction false} CellZeroIff(a: string, b: string, i: nat, j: nat)
    requires i <= |a| && j <= |b|
    ensures Cell(a, b, i, j) == 0 <==> i == j && forall k :: 0 <= k < i ==> a[k] == b[k]
    decreases i + j
  {
    hide Cell;
    if i == 0 || j == 0 {
      CellEdge(a, b, i, j);
    } else {
      CellStep(a, b, i, j);
      CellZeroIff(a, b, i - 1, j - 1);
    }
  }

  lemma {:induction false} CellTriangle(a: string, b: string, c: string, i: nat, j: nat, k: nat)
    requires i <= |a| && j <= |b| && k <= |c|
    ensures Cell(a, c, i, k) <= Cell(a, b, i, j) + Cell(b, c, j, k)
    decreases i + j + k
  {
    hide Cell;
    if i == 0 || j == 0 || k == 0 {
      CellBounds(a, c, i, k);
      CellBounds(a, b, i, j);
      CellBounds(b, c, j, k);
    } else {
      CellStep(a, b, i, j);
      CellStep(b, c, j, k);
      CellStep(a, c, i, k);
      var x, y := Cell(a, b, i, j), Cell(b, c, j, k);
      if x == Cell(a, b, i - 1, j) + 1 {
        CellTriangle(a, b, c, i - 1, j, k);
      } else if y == Cell(b, c, j, k - 1) + 1 {
        CellTriangle(a, b, c, i, j, k - 1);
      } else if x == Cell(a, b, i, j - 1) + 1 {
        if y == Cell(b, c, j - 1, k) + 1 {
          CellTriangle(a, b, c, i, j - 1, k);
        } else {
          CellTriangle(a, b, c, i, j - 1, k - 1);
        }
      } else if y == Cell(b, c, j - 1, k) + 1 {
        CellTriangle(a, b, c, i - 1, j - 1, k);
      } else {
        CellTriangle(a, b, c, i - 1, j - 1, k - 1);
      }
    }
  }

  /** Zero exactly on equal strings, symmetric, and subject to the triangle inequality. */
  lemma DistanceIsMetric(a: string, b: string, c: string)
    ensures Distance(a, b) == 0 <==> a == b
    ensures Distance(a, b) == Distance(b, a)
    ensures Distance(a, c) <= Distance(a, b) + Distance(b, c)
  {
    CellZeroIff(a, b, |a|, |b|);
    CellSymmetric(a, b, |a|, |b|);
    CellTriangle(a, b, c, |a|, |b|, |c|);
  }

  lemma {:induction false} InsertionCostsOne(a: string, b: string, p: nat, c: char, i: nat)
    requires Inserts(a, b, p, c) && p <= i <= |a|
    ensures Cell(a, b, i, i + 1) <= 1
    decreases i
  {
    if i == p {
      CellZeroIff(a, b, i, i);
    } else {
      InsertionCostsOne(a, b, p, c, i - 1);
    }
  }

  lemma {:induction false} SubstitutionCostsOne(a: string, b: string, p: nat, c: char, i: nat)
    requires Substitutes(a, b, p, c) && p < i <= |a|
    ensures Cell(a, b, i, i) <= 1
    decreases i
  {
    if i == p + 1 {
      CellZeroIff(a, b, p, p);
    } else {
      SubstitutionCostsOne(a, b, p, c, i - 1);
    }
  }

  lemma {:induction false} EditCostsOne(a: string, b: string)
    requires OneEdit(a, b)
    ensures Distance(a, b) <= 1
  {
    hide Cell;
    if i: nat, x :| Inserts(a, b, i, x) {
      InsertionCostsOne(a, b, i, x, |a|);
    } else if i: nat, x :| Inserts(b, a, i, x) {
      InsertionCostsOne(b, a, i, x, |b|);
      CellSymmetric(a, b, |a|, |b|);
    } else {
      var i: nat, x :| Substitutes(a, b, i, x);
      SubstitutionCostsOne(a, b, i, x, |a|);
    }
  }

  lemma {:induction false} NoShorterScript(a: string, b: string, n: nat)
    requires Script(a, b, n)
    ensures Distance(a, b) <= n
    decreases n
  {
    if n == 0 {
      CellZeroIff(a, b, |a|, |b|);
    } else {
      var m :| OneEdit(a, m) && Script(m, b, n - 1);
      EditCostsOne(a, m);
      NoShorterScript(m, b, n - 1);
      CellTriangle(a, m, b, |a|, |m|, |b|);
    }
  }
}
