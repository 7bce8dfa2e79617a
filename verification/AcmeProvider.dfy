/** internal/dns/acmeprovider.go: challenge records put into a zone and taken out again. */
module AcmeProvider {
  import opened Wrappers
  import opened Strings
  import opened Rows
  import opened DnsStore

  datatype Challenge = Challenge(name: string, rtype: string, data: string)

  datatype Failure = NotManaged | StoreFailure

  /** State of one call: the tables, whether anything changed, and whether a store call failed. */
  datatype Progress = Progress(db: Db, changed: bool, failed: bool)

  function RowFor(zoneID: int, c: Challenge): Record {
    Record(0, zoneID, c.name, "TXT", c.data, 60, 0)
  }

  function Append(p: Progress, zoneID: int, c: Challenge, attempt: Attempt): Progress {
    if p.failed || c.rtype != "TXT" then p
    else
      var (db', added, err) := AddIfAbsent(p.db, RowFor(zoneID, c), attempt.query, attempt.io);
      Progress(db', p.changed || (added && err.None?), err.Some?)
  }

  function AppendAll(db: Db, zoneID: int, cs: seq<Challenge>, attempts: nat -> Attempt): Progress {
    if cs == [] then Progress(db, false, false)
    else
      var n := |cs| - 1;
      Append(AppendAll(db, zoneID, cs[..n], attempts), zoneID, cs[n], attempts(n))
  }

  function Remove(p: Progress, zoneID: int, c: Challenge, attempt: Attempt): Progress {
    if p.failed || c.rtype != "TXT" then p
    else
      var (db', res) := DeleteMatching(p.db, zoneID, c.name, "TXT", c.data, attempt.io);
      Progress(db', p.changed || (res.Ok? && res.value > 0), res.Err?)
  }

  function RemoveAll(db: Db, zoneID: int, cs: seq<Challenge>, attempts: nat -> Attempt): Progress {
    if cs == [] then Progress(db, false, false)
    else
      var n := |cs| - 1;
      Remove(RemoveAll(db, zoneID, cs[..n], attempts), zoneID, cs[n], attempts(n))
  }

  /** The zone whose apex is exactly the given name. */
  function Managed(db: Db, zone: string): Option<Zone> {
    var apex := TrimSuffix(zone, ".");
    match ZoneFor(db.zones, Lower(Trim(apex)))
    case Some(z) => if z.domain == apex then Some(z) else None
    case None => None
  }

  lemma {:induction false} FailureLatches(db: Db, zoneID: int, cs: seq<Challenge>, attempts: nat -> Attempt, i: nat)
    requires i <= |cs|
    ensures AppendAll(db, zoneID, cs[..i], attempts).failed ==>
            AppendAll(db, zoneID, cs, attempts) == AppendAll(db, zoneID, cs[..i], attempts)
    ensures RemoveAll(db, zoneID, cs[..i], attempts).failed ==>
            RemoveAll(db, zoneID, cs, attempts) == RemoveAll(db, zoneID, cs[..i], attempts)
    decreases |cs|
  {
    if i == |cs| {
      assert cs[..i] == cs;
    } else {
      var n := |cs| - 1;
      FailureLatches(db, zoneID, cs[..n], attempts, i);
      assert cs[..n][..i] == cs[..i];
    }
  }

  method AppendRecords(store: Store, zone: string, recs: seq<Challenge>, listed: bool, attempts: nat -> Attempt)
      returns (res: Result<seq<Challenge>, Failure>, reload: bool)
    modifies store
    ensures !listed || Managed(old(store.Tables()), zone).None? ==>
              res == Err(NotManaged) && !reload && store.Tables() == old(store.Tables())
    ensures listed && Managed(old(store.Tables()), zone).Some? ==>
              var p := AppendAll(old(store.Tables()), Managed(old(store.Tables()), zone).value.id, recs, attempts);
              store.Tables() == p.db && reload == (p.changed && !p.failed)
                && res == if p.failed then Err(StoreFailure) else Ok(recs)
  {
    hide AddIfAbsent;
    reload := false;
    var apex := TrimSuffix(zone, ".");
    var found := store.FindDNSZoneForDomain(apex, listed);
    if found.None? || found.value.0.domain != apex {
      return Err(NotManaged), false;
    }
    var z := found.value.0;
    var anyAdded := false;
    for i := 0 to |recs|
      invariant Progress(store.Tables(), anyAdded, false) == AppendAll(old(store.Tables()), z.id, recs[..i], attempts)
    {
      assert recs[..i + 1][..i] == recs[..i];
      var rr := recs[i];
      if rr.rtype != "TXT" {
        continue;
      }
      var row := Record(0, z.id, rr.name, "TXT", rr.data, 60, 0);
      var added, err := store.AddDNSRecordIfAbsent(row, attempts(i).query, attempts(i).io);
      if err.Some? {
        FailureLatches(old(store.Tables()), z.id, recs, attempts, i + 1);
        return Err(StoreFailure), false;
      }
      if added {
        anyAdded := true;
      }
    }
    assert recs[..|recs|] == recs;
    return Ok(recs), anyAdded;
  }

  method DeleteRecords(store: Store, zone: string, recs: seq<Challenge>, listed: bool, attempts: nat -> Attempt)
      returns (res: Result<seq<Challenge>, Failure>, reload: bool)
    modifies store
    ensures !listed || Managed(old(store.Tables()), zone).None? ==>
              res == Err(NotManaged) && !reload && store.Tables() == old(store.Tables())
    ensures listed && Managed(old(store.Tables()), zone).Some? ==>
              var p := RemoveAll(old(store.Tables()), Managed(old(store.Tables()), zone).value.id, recs, attempts);
              store.Tables() == p.db && reload == (p.changed && !p.failed)
                && res == if p.failed then Err(StoreFailure) else Ok(recs)
  {
    hide DeleteMatching;
    reload := false;
    var apex := TrimSuffix(zone, ".");
    var found := store.FindDNSZoneForDomain(apex, listed);
    if found.None? || found.value.0.domain != apex {
      return Err(NotManaged), false;
    }
    var z := found.value.0;
    var anyDeleted := false;
    for i := 0 to |recs|
      invariant Progress(store.Tables(), anyDeleted, false) == RemoveAll(old(store.Tables()), z.id, recs[..i], attempts)
    {
      assert recs[..i + 1][..i] == recs[..i];
      var rr := recs[i];
      if rr.rtype != "TXT" {
        continue;
      }
      var n := store.DeleteDNSRecordsMatching(z.id, rr.name, "TXT", rr.data, attempts(i).io);
      if n.Err? {
        FailureLatches(old(store.Tables()), z.id, recs, attempts, i + 1);
        return Err(StoreFailure), false;
      }
      if n.value > 0 {
        anyDeleted := true;
      }
    }
    assert recs[..|recs|] == recs;
    return Ok(recs), anyDeleted;
  }

  // ---- Append and delete undo each other ----

  /** The row is one the challenge asks for, whatever the letter case and blanks around its name. */
  predicate Asked(r: Record, zoneID: int, c: Challenge) {
    c.rtype == "TXT" && Same(r, zoneID, Lower(Trim(c.name)), "TXT", c.data)
  }

  predicate Listed(r: Record, zoneID: int, cs: seq<Challenge>) {
    exists c :: c in cs && Asked(r, zoneID, c)
  }

  function Unlisted(zoneID: int, cs: seq<Challenge>): Record -> bool {
    (r: Record) => !Listed(r, zoneID, cs)
  }

  ghost predicate NeverFails(attempts: nat -> Attempt) {
    forall i: nat :: attempts(i) == Attempt(true, Io(true, true, true, true, true))
  }

  /** Serial increments: `zones'` is `zones` with the zone's serial raised by `n`. */
  function Raise(zones: seq<Zone>, zoneID: int, n: nat): seq<Zone> {
    seq(|zones|, i requires 0 <= i < |zones| =>
      if zones[i].id == zoneID then zones[i].(serial := zones[i].serial + n) else zones[i])
  }

  lemma RaiseThenBump(zones: seq<Zone>, zoneID: int, n: nat)
    ensures Bump(Raise(zones, zoneID, n), zoneID) == Raise(zones, zoneID, n + 1)
    ensures Raise(zones, zoneID, 0) == zones
  {
  }

  lemma TxtIsCanonical()
    ensures Upper(Trim("TXT")) == "TXT"
  {
  }

  ghost predicate Has(db: Db, zoneID: int, c: Challenge) {
    exists r :: r in db.records && Asked(r, zoneID, c)
  }

  ghost predicate HasAll(db: Db, zoneID: int, cs: seq<Challenge>) {
    forall i :: 0 <= i < |cs| && cs[i].rtype == "TXT" ==> Has(db, zoneID, cs[i])
  }

  /** One successful append: nothing when a row is there, else one new row and one serial increment. */
  lemma AppendOne(p: Progress, zoneID: int, c: Challenge, attempt: Attempt) returns (added: seq<Record>)
    requires !p.failed && attempt == Attempt(true, Io(true, true, true, true, true))
    ensures var p' := Append(p, zoneID, c, attempt);
            && !p'.failed
            && p'.db.records == p.db.records + added
            && p'.db.zones == Raise(p.db.zones, zoneID, |added|)
            && (added == [] ==> p' == p)
            && (forall r :: r in added ==> Asked(r, zoneID, c))
            && (c.rtype == "TXT" ==> Has(p'.db, zoneID, c))
  {
    var row := RowFor(zoneID, c);
    TxtIsCanonical();
    LowerTrim(c.name);
    RaiseThenBump(p.db.zones, zoneID, 0);
    hide Trim, Lower, Upper;
    if c.rtype != "TXT" || Present(p.db, Canonical(row)) {
      added := [];
    } else {
      var p' := Append(p, zoneID, c, attempt);
      var r := p'.db.records[|p.db.records|];
      added := [r];
      assert p'.db.records == p.db.records + added && r in p'.db.records;
      assert Asked(r, zoneID, c);
    }
  }

  ghost predicate AllListed(rows: seq<Record>, zoneID: int, cs: seq<Challenge>) {
    forall r :: r in rows ==> Listed(r, zoneID, cs)
  }

  lemma ListedOneMore(rows: seq<Record>, more: seq<Record>, zoneID: int, cs: seq<Challenge>, c: Challenge)
    requires AllListed(rows, zoneID, cs) && forall r :: r in more ==> Asked(r, zoneID, c)
    ensures AllListed(rows + more, zoneID, cs + [c])
  {
    hide Asked;
  }

  /** A successful run of appends adds only listed rows, at the end, each with one serial increment. */
  lemma {:induction false} AppendAdds(db: Db, zoneID: int, cs: seq<Challenge>, attempts: nat -> Attempt)
      returns (added: seq<Record>)
    requires NeverFails(attempts)
    ensures var p := AppendAll(db, zoneID, cs, attempts);
            && !p.failed
            && p.db.records == db.records + added
            && p.db.zones == Raise(db.zones, zoneID, |added|)
            && AllListed(added, zoneID, cs)
    decreases |cs|
  {
    RaiseThenBump(db.zones, zoneID, 0);
    if cs == [] {
      added := [];
    } else {
      var n, rest, c := |cs| - 1, cs[..|cs| - 1], cs[|cs| - 1];
      var before, attempt := AppendAll(db, zoneID, rest, attempts), attempts(n);
      assert AppendAll(db, zoneID, cs, attempts) == Append(before, zoneID, c, attempt);
      hide Append, AppendAll, Raise, AllListed, Asked, Has;
      var rows := AppendAdds(db, zoneID, rest, attempts);
      var more := AppendOne(before, zoneID, c, attempt);
      RaiseAdds(db.zones, zoneID, |rows|, |more|);
      ListedOneMore(rows, more, zoneID, rest, c);
      assert cs == rest + [c];
      added := rows + more;
    }
  }

  lemma HasStays(db: Db, db': Db, zoneID: int, cs: seq<Challenge>)
    requires HasAll(db, zoneID, cs) && db.records <= db'.records
    ensures HasAll(db', zoneID, cs)
  {
    hide Asked;
    forall i | 0 <= i < |cs| && cs[i].rtype == "TXT" ensures Has(db', zoneID, cs[i]) {
      assert Has(db, zoneID, cs[i]);
      var r :| r in db.records && Asked(r, zoneID, cs[i]);
      assert r in db'.records;
    }
  }

  /** After a successful run of appends every listed row is there. */
  lemma {:induction false} AppendCovers(db: Db, zoneID: int, cs: seq<Challenge>, attempts: nat -> Attempt)
    requires NeverFails(attempts)
    ensures HasAll(AppendAll(db, zoneID, cs, attempts).db, zoneID, cs)
    decreases |cs|
  {
    if cs != [] {
      var n, rest, c := |cs| - 1, cs[..|cs| - 1], cs[|cs| - 1];
      var before, attempt := AppendAll(db, zoneID, rest, attempts), attempts(n);
      var after := AppendAll(db, zoneID, cs, attempts);
      assert after == Append(before, zoneID, c, attempt);
      hide Append, AppendAll, Has;
      var _ := AppendAdds(db, zoneID, rest, attempts);
      AppendCovers(db, zoneID, rest, attempts);
      var _ := AppendOne(before, zoneID, c, attempt);
      HasStays(before.db, after.db, zoneID, rest);
    }
  }

  lemma RaiseAdds(zones: seq<Zone>, zoneID: int, m: nat, n: nat)
    ensures Raise(Raise(zones, zoneID, m), zoneID, n) == Raise(zones, zoneID, m + n)
  {
  }

  /** When every listed row is already there, appending changes nothing. */
  lemma {:induction false} AppendNothing(db: Db, zoneID: int, cs: seq<Challenge>, attempts: nat -> Attempt)
    requires NeverFails(attempts)
    requires HasAll(db, zoneID, cs)
    ensures AppendAll(db, zoneID, cs, attempts) == Progress(db, false, false)
    decreases |cs|
  {
    if cs != [] {
      var n := |cs| - 1;
      AppendNothing(db, zoneID, cs[..n], attempts);
      if cs[n].rtype == "TXT" {
        assert Has(db, zoneID, cs[n]);
        var r :| r in db.records && Asked(r, zoneID, cs[n]);
        TxtIsCanonical();
        assert Present(db, Canonical(RowFor(zoneID, cs[n])));
      }
    }
  }

  /** A reload is called for exactly if records were added, or deleted. */
  lemma {:induction false} ChangedIff(db: Db, zoneID: int, cs: seq<Challenge>, attempts: nat -> Attempt)
    ensures var p := AppendAll(db, zoneID, cs, attempts);
            |p.db.records| >= |db.records| && (p.changed <==> |p.db.records| > |db.records|)
    ensures var p := RemoveAll(db, zoneID, cs, attempts);
            |p.db.records| <= |db.records| && (p.changed <==> |p.db.records| < |db.records|)
    decreases |cs|
  {
    hide Lower, Upper, Trim, Where;
    if cs != [] {
      ChangedIff(db, zoneID, cs[..|cs| - 1], attempts);
    }
  }

  /** The rows added have a ttl of 60 seconds and no priority. */
  lemma {:induction false} AppendedColumns(db: Db, zoneID: int, cs: seq<Challenge>, attempts: nat -> Attempt)
    ensures forall r :: r in AppendAll(db, zoneID, cs, attempts).db.records ==>
              r in db.records || (r.ttl == 60 && r.priority == 0)
    decreases |cs|
  {
    hide Lower, Upper, Trim;
    if cs != [] {
      AppendedColumns(db, zoneID, cs[..|cs| - 1], attempts);
    }
  }

  /** Appending the same challenges again changes nothing and asks for no reload. */
  lemma AppendIsIdempotent(db: Db, zoneID: int, cs: seq<Challenge>, attempts: nat -> Attempt)
    requires NeverFails(attempts)
    ensures var once := AppendAll(db, zoneID, cs, attempts).db;
            AppendAll(once, zoneID, cs, attempts) == Progress(once, false, false)
  {
    AppendCovers(db, zoneID, cs, attempts);
    AppendNothing(AppendAll(db, zoneID, cs, attempts).db, zoneID, cs, attempts);
  }

  /** The serial was raised exactly if rows went. */
  ghost predicate Raised(before: seq<Record>, after: seq<Record>, bumps: nat) {
    |after| <= |before| && (if bumps == 0 then after == before else |after| < |before|)
  }

  lemma RemoveOne(p: Progress, zoneID: int, c: Challenge, attempt: Attempt) returns (bump: nat)
    requires !p.failed && attempt.io == Io(true, true, true, true, true)
    ensures var p' := Remove(p, zoneID, c, attempt);
            && !p'.failed
            && p'.db.records == Where(p.db.records, Unlisted(zoneID, [c]))
            && p'.db.zones == Raise(p.db.zones, zoneID, bump)
            && Raised(p.db.records, p'.db.records, bump)
  {
    TxtIsCanonical();
    RaiseThenBump(p.db.zones, zoneID, 0);
    hide Trim, Lower, Upper;
    var like := Unlike(zoneID, Lower(Trim(c.name)), "TXT", c.data);
    if c.rtype == "TXT" {
      forall r | r in p.db.records ensures like(r) == Unlisted(zoneID, [c])(r) {
        assert Listed(r, zoneID, [c]) <==> Asked(r, zoneID, c);
      }
      WhereCongruent(p.db.records, like, Unlisted(zoneID, [c]));
      NothingDeleted(p.db.records, like);
      bump := if |Where(p.db.records, like)| < |p.db.records| then 1 else 0;
    } else {
      bump := 0;
      WhereAll(p.db.records, Unlisted(zoneID, [c]));
    }
  }

  lemma NoneListed(rows: seq<Record>, zoneID: int)
    ensures Where(rows, Unlisted(zoneID, [])) == rows
  {
    WhereAll(rows, Unlisted(zoneID, []));
  }

  lemma UnlistedSplits(rows: seq<Record>, zoneID: int, cs: seq<Challenge>, c: Challenge)
    ensures Where(Where(rows, Unlisted(zoneID, cs)), Unlisted(zoneID, [c])) == Where(rows, Unlisted(zoneID, cs + [c]))
  {
    hide Asked;
    forall r | r in rows
      ensures Unlisted(zoneID, cs + [c])(r) == (Unlisted(zoneID, cs)(r) && Unlisted(zoneID, [c])(r)) {}
    hide Unlisted;
    WhereWhere(rows, Unlisted(zoneID, cs), Unlisted(zoneID, [c]), Unlisted(zoneID, cs + [c]));
  }

  lemma RemoveStep(p: Progress, db: Db, zoneID: int, cs: seq<Challenge>, c: Challenge, attempt: Attempt, bumps: nat)
      returns (more: nat)
    requires !p.failed && attempt.io == Io(true, true, true, true, true)
    requires p.db.records == Where(db.records, Unlisted(zoneID, cs)) && p.db.zones == Raise(db.zones, zoneID, bumps)
    requires Raised(db.records, p.db.records, bumps)
    ensures var p' := Remove(p, zoneID, c, attempt);
            && !p'.failed
            && p'.db.records == Where(db.records, Unlisted(zoneID, cs + [c]))
            && p'.db.zones == Raise(db.zones, zoneID, more)
            && Raised(db.records, p'.db.records, more)
  {
    hide Remove, Unlisted, Raise, Where;
    var bump := RemoveOne(p, zoneID, c, attempt);
    UnlistedSplits(db.records, zoneID, cs, c);
    RaiseAdds(db.zones, zoneID, bumps, bump);
    more := bumps + bump;
  }

  /** A successful run of deletes removes exactly the listed rows. */
  lemma {:induction false} RemoveRemoves(db: Db, zoneID: int, cs: seq<Challenge>, attempts: nat -> Attempt)
      returns (bumps: nat)
    requires NeverFails(attempts)
    ensures !RemoveAll(db, zoneID, cs, attempts).failed
    ensures RemoveAll(db, zoneID, cs, attempts).db.records == Where(db.records, Unlisted(zoneID, cs))
    ensures RemoveAll(db, zoneID, cs, attempts).db.zones == Raise(db.zones, zoneID, bumps)
    ensures Raised(db.records, RemoveAll(db, zoneID, cs, attempts).db.records, bumps)
    decreases |cs|
  {
    hide Remove, Unlisted, Raise, Where;
    if cs == [] {
      RaiseThenBump(db.zones, zoneID, 0);
      NoneListed(db.records, zoneID);
      bumps := 0;
    } else {
      var n, rest, c := |cs| - 1, cs[..|cs| - 1], cs[|cs| - 1];
      bumps := RemoveRemoves(db, zoneID, rest, attempts);
      bumps := RemoveStep(RemoveAll(db, zoneID, rest, attempts), db, zoneID, rest, c, attempts(n), bumps);
      assert cs == rest + [c];
    }
  }

  /** Adding listed rows and then keeping only the unlisted ones. */
  lemma RestoredIff(rows: seq<Record>, added: seq<Record>, zoneID: int, cs: seq<Challenge>)
    requires AllListed(added, zoneID, cs)
    ensures Where(rows + added, Unlisted(zoneID, cs)) == Where(rows, Unlisted(zoneID, cs))
    ensures Where(rows, Unlisted(zoneID, cs)) == rows <==> forall r :: r in rows ==> !Listed(r, zoneID, cs)
  {
    hide Listed;
    var p := Unlisted(zoneID, cs);
    WhereConcat(rows, added, p);
    WhereNone(added, p);
    if forall r :: r in rows ==> !Listed(r, zoneID, cs) {
      WhereAll(rows, p);
    }
  }

  ghost predicate HasTxt(cs: seq<Challenge>) {
    exists i :: 0 <= i < |cs| && cs[i].rtype == "TXT"
  }

  /** Once appended, TXT challenges leave something to delete. */
  lemma DeletesSomething(rows: seq<Record>, left: seq<Record>, db: Db, zoneID: int, cs: seq<Challenge>)
    requires HasTxt(cs) && HasAll(db, zoneID, cs) && db.records == rows
    requires left == Where(rows, Unlisted(zoneID, cs))
    ensures left != rows
  {
    var i :| 0 <= i < |cs| && cs[i].rtype == "TXT";
    hide Asked;
    assert Has(db, zoneID, cs[i]);
    var r :| r in db.records && Asked(r, zoneID, cs[i]);
    assert Listed(r, zoneID, cs);
    assert r !in left;
  }

  lemma NoTxtNothingListed(rows: seq<Record>, zoneID: int, cs: seq<Challenge>)
    requires !HasTxt(cs)
    ensures forall r :: r in rows ==> !Listed(r, zoneID, cs)
    ensures AllListed(rows, zoneID, cs) ==> rows == []
  {
    if rows != [] { assert rows[0] in rows; }
  }

  /** Append then delete restores exactly the original records if and only if none of the listed TXT rows was
      there before; either way no serial has fallen, and the zone's has strictly advanced if and only if a TXT
      challenge was listed, by more than the number of rows added. */
  lemma AppendThenDeleteRestoresIff(db: Db, zoneID: int, cs: seq<Challenge>, attempts: nat -> Attempt)
      returns (added: nat, raised: nat)
    requires NeverFails(attempts)
    ensures var mid := AppendAll(db, zoneID, cs, attempts).db;
            var end := RemoveAll(mid, zoneID, cs, attempts).db;
            && (end.records == db.records <==> forall r :: r in db.records ==> !Listed(r, zoneID, cs))
            && end.records == Where(db.records, Unlisted(zoneID, cs))
            && added == |mid.records| - |db.records|
            && end.zones == Raise(db.zones, zoneID, raised)
            && (if HasTxt(cs) then raised > added else raised == added == 0)
  {
    hide Listed, Unlisted, AppendAll, RemoveAll, Raise, Where, HasAll, HasTxt;
    var mid := AppendAll(db, zoneID, cs, attempts).db;
    var rows := AppendAdds(db, zoneID, cs, attempts);
    var bumps := RemoveRemoves(mid, zoneID, cs, attempts);
    added, raised := |rows|, |rows| + bumps;
    RaiseAdds(db.zones, zoneID, |rows|, bumps);
    RestoredIff(db.records, rows, zoneID, cs);
    var left := RemoveAll(mid, zoneID, cs, attempts).db.records;
    if HasTxt(cs) {
      AppendCovers(db, zoneID, cs, attempts);
      DeletesSomething(mid.records, left, mid, zoneID, cs);
    } else {
      NoTxtNothingListed(mid.records, zoneID, cs);
      NothingToDelete(mid.records, zoneID, cs);
      NoTxtNothingListed(rows, zoneID, cs);
    }
  }

  lemma NothingToDelete(rows: seq<Record>, zoneID: int, cs: seq<Challenge>)
    requires forall r :: r in rows ==> !Listed(r, zoneID, cs)
    ensures Where(rows, Unlisted(zoneID, cs)) == rows
  {
    hide Listed;
    WhereAll(rows, Unlisted(zoneID, cs));
  }
}
