/** The few operations of Go's `strings` package the models need, on ASCII text. */
module Strings {

  function LowerChar(c: char): char {
    if 'A' <= c <= 'Z' then ((c as int) + 32) as char else c
  }

  function Lower(s: string): (r: string)
    ensures |r| == |s|
  {
    seq(|s|, i requires 0 <= i < |s| => LowerChar(s[i]))
  }

  function UpperChar(c: char): char {
    if 'a' <= c <= 'z' then ((c as int) - 32) as char else c
  }

  function Upper(s: string): (r: string)
    ensures |r| == |s|
  {
    seq(|s|, i requires 0 <= i < |s| => UpperChar(s[i]))
  }

  /** Each of the 26 letters has the one of the same place in the other case; other characters stay. */
  lemma CasesAre(c: char)
    ensures if 'A' <= c <= 'Z' then
              'a' <= LowerChar(c) <= 'z' && LowerChar(c) as int - 'a' as int == c as int - 'A' as int
            else LowerChar(c) == c
    ensures if 'a' <= c <= 'z' then
              'A' <= UpperChar(c) <= 'Z' && UpperChar(c) as int - 'A' as int == c as int - 'a' as int
            else UpperChar(c) == c
  {
  }

  predicate IsLower(s: string) {
    forall i :: 0 <= i < |s| ==> s[i] == LowerChar(s[i])
  }

  lemma LowerIsIdentity(s: string)
    requires IsLower(s)
    ensures Lower(s) == s
  {
  }

  lemma LowerIsLower(s: string)
    ensures IsLower(Lower(s))
  {
  }

  lemma LowerConcat(s: string, t: string)
    ensures Lower(s + t) == Lower(s) + Lower(t)
  {
  }

  predicate Space(c: char) {
    c == ' ' || c == '\t' || c == '\n' || c == '\r' || c == 11 as char || c == 12 as char
  }

  function TrimLeft(s: string): string {
    if s != "" && Space(s[0]) then TrimLeft(s[1..]) else s
  }

  function TrimRight(s: string): string {
    if s != "" && Space(s[|s| - 1]) then TrimRight(s[..|s| - 1]) else s
  }

  function Trim(s: string): string {
    TrimRight(TrimLeft(s))
  }

  /** Trimming leaves what lies between the blanks at both ends. */
  lemma {:induction false} TrimLeftEnds(s: string) returns (n: nat)
    ensures n <= |s| && TrimLeft(s) == s[n..] && forall i :: 0 <= i < n ==> Space(s[i])
    ensures TrimLeft(s) != "" ==> !Space(TrimLeft(s)[0])
    decreases |s|
  {
    if s != "" && Space(s[0]) {
      n := TrimLeftEnds(s[1..]);
      n := n + 1;
    } else {
      n := 0;
    }
  }

  lemma {:induction false} TrimRightEnds(s: string) returns (n: nat)
    ensures n <= |s| && TrimRight(s) == s[..n] && forall i :: n <= i < |s| ==> Space(s[i])
    ensures n > 0 ==> !Space(s[n - 1])
    decreases |s|
  {
    if s != "" && Space(s[|s| - 1]) {
      n := TrimRightEnds(s[..|s| - 1]);
    } else {
      n := |s|;
    }
  }

  lemma TrimEnds(s: string) returns (from: nat, to: nat)
    ensures from <= to <= |s| && Trim(s) == s[from..to]
    ensures forall i :: 0 <= i < |s| && (i < from || to <= i) ==> Space(s[i])
    ensures Trim(s) != "" ==> !Space(Trim(s)[0]) && !Space(Trim(s)[|Trim(s)| - 1])
  {
    from := TrimLeftEnds(s);
    var n := TrimRightEnds(s[from..]);
    to := from + n;
    assert s[from..][..n] == s[from..to];
  }

  lemma TrimKeeps(s: string)
    requires s != "" ==> !Space(s[0]) && !Space(s[|s| - 1])
    ensures Trim(s) == s
  {
  }

  lemma LowerTrim(s: string)
    ensures Lower(Trim(Lower(Trim(s)))) == Lower(Trim(s))
  {
    var _, _ := TrimEnds(s);
    var t := Trim(s);
    assert t != "" ==> Lower(t)[0] == LowerChar(t[0]) && Lower(t)[|t| - 1] == LowerChar(t[|t| - 1]);
    TrimKeeps(Lower(t));
    LowerIsLower(t);
    LowerIsIdentity(Lower(t));
  }

  lemma UpperTrim(s: string)
    ensures Upper(Trim(Upper(Trim(s)))) == Upper(Trim(s))
  {
    var _, _ := TrimEnds(s);
    var t := Trim(s);
    assert t != "" ==> Upper(t)[0] == UpperChar(t[0]) && Upper(t)[|t| - 1] == UpperChar(t[|t| - 1]);
    TrimKeeps(Upper(t));
    assert Upper(Upper(t)) == Upper(t);
  }

  predicate NoSpaces(s: string) {
    forall i :: 0 <= i < |s| ==> !Space(s[i])
  }

  predicate HasSuffix(s: string, t: string) {
    |t| <= |s| && s[|s| - |t|..] == t
  }

  function TrimSuffix(s: string, t: string): string {
    if HasSuffix(s, t) then s[..|s| - |t|] else s
  }

  /** Position of the first `c`, or -1. */
  function Index(s: string, c: char): (i: int)
    ensures -1 <= i < |s|
    ensures i >= 0 ==> s[i] == c && forall j :: 0 <= j < i ==> s[j] != c
    ensures i < 0 ==> forall j :: 0 <= j < |s| ==> s[j] != c
  {
    if s == "" then -1
    else if s[0] == c then 0
    else
      var i := Index(s[1..], c);
      assert forall j :: 1 <= j < |s| ==> s[j] == s[1..][j - 1];
      if i < 0 then -1 else i + 1
  }

  /** Go's `strings.Split` for a one-character separator. */
  function Split(s: string, sep: char): (parts: seq<string>)
    ensures parts != []
    decreases |s|
  {
    var i := Index(s, sep);
    if i < 0 then [s] else [s[..i]] + Split(s[i + 1..], sep)
  }
}
