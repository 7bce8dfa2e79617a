/** internal/store/dns.go: what each write leaves in the tables, row by row and column by column. */
module DnsEffects {
  import opened Wrappers
  import opened Strings
  import opened Domains
  import opened Rows
  import opened DnsStore

  /** Every statement of a transaction that changes records succeeds. */
  predicate AllSucceed(io: Io) {
    io.begin && io.exec && io.next && io.commit
  }

  /** The zone's serial is one higher; nothing else of any zone has changed. */
  ghost predicate SerialRaised(zones: seq<Zone>, zones': seq<Zone>, zoneID: int) {
    && |zones'| == |zones|
    && forall i :: 0 <= i < |zones| ==>
         var z, z' := zones[i], zones'[i];
         && z'.serial == (if z.id == zoneID then z.serial + 1 else z.serial)
         && z'.id == z.id && z'.domain == z.domain && z'.ownerType == z.ownerType && z'.ownerID == z.ownerID
         && z'.userID == z.userID && z'.refresh == z.refresh && z'.retry == z.retry && z'.expire == z.expire
         && z'.minimum == z.minimum
  }

  /** One row is added at the end, with these columns. */
  ghost predicate RowAdded(rows: seq<Record>, rows': seq<Record>, id: int, r: Record) {
    && |rows'| == |rows| + 1 && rows'[..|rows|] == rows
    && rows'[|rows|].id == id && rows'[|rows|].zoneID == r.zoneID
    && rows'[|rows|].name == Lower(Trim(r.name)) && rows'[|rows|].rtype == Upper(Trim(r.rtype))
    && rows'[|rows|].value == r.value && rows'[|rows|].ttl == r.ttl && rows'[|rows|].priority == r.priority
  }

  /** The new row is the one asked for, its name and type trimmed and in lower and upper case, under a fresh id. */
  lemma AddWrites(db: Db, r: Record, io: Io)
    ensures var (db', res) := AddRecord(db, r, io);
            if AllSucceed(io) then
              && res == Ok(db.nextRecord)
              && RowAdded(db.records, db'.records, db.nextRecord, r)
              && SerialRaised(db.zones, db'.zones, r.zoneID)
              && db'.nextRecord == db.nextRecord + 1 && db'.nextZone == db.nextZone
            else
              res == Err(IoFailure) && db' == db
  {
  }

  /** A row of that zone and id exists. */
  predicate RowExists(db: Db, zoneID: int, id: int) {
    exists r :: r in db.records && r.id == id && r.zoneID == zoneID
  }

  /** The row of that zone and id has exactly the given value, ttl and priority; every other row stays as it is. */
  ghost predicate RowWritten(rows: seq<Record>, rows': seq<Record>, zoneID: int, id: int, value: string, ttl: int,
                             priority: int) {
    && |rows'| == |rows|
    && forall i :: 0 <= i < |rows| ==>
         if rows[i].id == id && rows[i].zoneID == zoneID then
           && rows'[i].value == value && rows'[i].ttl == ttl && rows'[i].priority == priority
           && rows'[i].id == id && rows'[i].zoneID == zoneID
           && rows'[i].name == rows[i].name && rows'[i].rtype == rows[i].rtype
         else rows'[i] == rows[i]
  }

  lemma UpdateWrites(db: Db, zoneID: int, id: int, value: string, ttl: int, priority: int, io: Io)
    ensures var (db', err) := UpdateRecord(db, zoneID, id, value, ttl, priority, io);
            && (err == None <==> AllSucceed(io) && RowExists(db, zoneID, id))
            && (err == Some(NotFound) <==> io.begin && io.exec && !RowExists(db, zoneID, id))
            && (err == None ==>
                  && RowWritten(db.records, db'.records, zoneID, id, value, ttl, priority)
                  && SerialRaised(db.zones, db'.zones, zoneID)
                  && db'.nextRecord == db.nextRecord && db'.nextZone == db.nextZone)
            && (err != None ==> db' == db)
  {
    assert RowExists(db, zoneID, id) <==> exists r :: r in db.records && IsRecord(r, zoneID, id);
  }

  lemma {:induction false} WhereAllButOne<T(!new)>(s: seq<T>, p: T -> bool, k: nat)
    requires k < |s| && forall i :: 0 <= i < |s| ==> (p(s[i]) <==> i != k)
    ensures Where(s, p) == s[..k] + s[k + 1..]
  {
    hide Where;
    var before, x, behind := s[..k], s[k], s[k + 1..];
    assert s == before + ([x] + behind);
    forall y | y in before ensures p(y) {
      var i :| 0 <= i < k && s[i] == y;
    }
    forall y | y in behind ensures p(y) {
      var i :| 0 <= i < |behind| && behind[i] == y;
      assert s[k + 1 + i] == y;
    }
    WhereConcat(before, [x] + behind, p);
    WhereConcat([x], behind, p);
    WhereAll(before, p);
    WhereNone([x], p);
    WhereAll(behind, p);
  }

  ghost predicate DistinctIds(rows: seq<Record>) {
    forall i, j :: 0 <= i < j < |rows| ==> rows[i].id != rows[j].id
  }

  /** Exactly the row of that zone and id goes; the others keep their order. */
  lemma DeleteWrites(db: Db, zoneID: int, id: int, io: Io) returns (k: nat)
    requires DistinctIds(db.records)
    ensures var (db', err) := DeleteRecord(db, zoneID, id, io);
            && (err == None <==> AllSucceed(io) && RowExists(db, zoneID, id))
            && (err == Some(NotFound) <==> io.begin && io.exec && !RowExists(db, zoneID, id))
            && (err == None ==>
                  && k < |db.records| && db.records[k].id == id && db.records[k].zoneID == zoneID
                  && db'.records == db.records[..k] + db.records[k + 1..]
                  && SerialRaised(db.zones, db'.zones, zoneID)
                  && db'.nextRecord == db.nextRecord && db'.nextZone == db.nextZone)
            && (err != None ==> db' == db)
  {
    k := 0;
    if RowExists(db, zoneID, id) {
      k := TheRow(db, zoneID, id);
    }
    hide Where, OtherThan;
  }

  lemma TheRow(db: Db, zoneID: int, id: int) returns (k: nat)
    requires DistinctIds(db.records) && RowExists(db, zoneID, id)
    ensures k < |db.records| && db.records[k].id == id && db.records[k].zoneID == zoneID
    ensures Where(db.records, OtherThan(zoneID, id)) == db.records[..k] + db.records[k + 1..]
  {
    hide Where;
    var r :| r in db.records && r.id == id && r.zoneID == zoneID;
    k :| 0 <= k < |db.records| && db.records[k] == r;
    WhereAllButOne(db.records, OtherThan(zoneID, id), k);
  }

  /** Exactly the rows equal in zone, canonical name and type, and value go; their number is reported. */
  lemma DeleteMatchingWrites(db: Db, zoneID: int, name: string, rtype: string, value: string, io: Io)
    ensures var (db', res) := DeleteMatching(db, zoneID, name, rtype, value, io);
            var hit := (r: Record) => r.zoneID == zoneID && r.name == Lower(Trim(name)) && r.rtype == Upper(Trim(rtype))
                                      && r.value == value;
            && (res.Ok? <==> io.begin && io.exec && io.commit && ((exists r :: r in db.records && hit(r)) ==> io.next))
            && (res.Ok? ==>
                  && (forall x :: multiset(db'.records)[x] == if hit(x) then 0 else multiset(db.records)[x])
                  && res.value == |db.records| - |db'.records|
                  && (res.value > 0 <==> exists r :: r in db.records && hit(r))
                  && (if res.value > 0 then SerialRaised(db.zones, db'.zones, zoneID) else db' == db))
            && (res.Err? ==> res.error == IoFailure && db' == db)
  {
    var p := Unlike(zoneID, Lower(Trim(name)), Upper(Trim(rtype)), value);
    NothingDeleted(db.records, p);
    hide Lower, Upper, Trim, Where;
    forall x ensures multiset(Where(db.records, p))[x] == if p(x) then multiset(db.records)[x] else 0 {
      WhereCounts(db.records, p, x);
    }
    if forall r :: r in db.records ==> p(r) {
      WhereAll(db.records, p);
    } else {
      var r :| r in db.records && !p(r);
      assert r !in Where(db.records, p);
    }
  }

  /** Nothing is inserted if a row equal in zone, canonical name and type, and value is there. */
  lemma AddIfAbsentWrites(db: Db, r: Record, query: bool, io: Io)
    ensures var (db', added, err) := AddIfAbsent(db, r, query, io);
            var present := exists x :: x in db.records && x.zoneID == r.zoneID && x.name == Lower(Trim(r.name))
                                       && x.rtype == Upper(Trim(r.rtype)) && x.value == r.value;
            && (err == None <==> query && (present || AllSucceed(io)))
            && (err != None ==> err == Some(IoFailure) && db' == db)
            && (added <==> query && !present)
            && (err == None && present ==> db' == db)
            && (err == None && !present ==>
                  && RowAdded(db.records, db'.records, db.nextRecord, r)
                  && SerialRaised(db.zones, db'.zones, r.zoneID))
  {
    AddWrites(db, Canonical(r), io);
    CanonicalTwice(r);
    hide Lower, Upper, Trim, SerialRaised, AddRecord;
    assert Present(db, Canonical(r)) <==>
           exists x :: x in db.records && x.zoneID == r.zoneID && x.name == Lower(Trim(r.name))
                       && x.rtype == Upper(Trim(r.rtype)) && x.value == r.value;
  }

  lemma CanonicalTwice(r: Record)
    ensures Canonical(Canonical(r)) == Canonical(r)
  {
    LowerTrim(r.name);
    UpperTrim(r.rtype);
  }

  /** What the caller left out is filled in; what it gave is kept. */
  ghost predicate FilledIn(row: Zone, z: Zone) {
    && row.serial == (if z.serial == 0 then 1 else z.serial)
    && row.refresh == (if z.refresh == 0 then 7200 else z.refresh)
    && row.retry == (if z.retry == 0 then 3600 else z.retry)
    && row.expire == (if z.expire == 0 then 1209600 else z.expire)
    && row.minimum == (if z.minimum == 0 then 3600 else z.minimum)
    && row.userID == z.userID
    && (if z.ownerType == "" then row.ownerType == "user" && row.ownerID == z.userID
        else row.ownerType == z.ownerType && row.ownerID == z.ownerID)
  }

  ghost predicate IsNameserver(r: Record, id: int, zoneID: int, ns: string) {
    && r.id == id && r.zoneID == zoneID && r.name == "@" && r.rtype == "NS" && r.value == ns
    && r.ttl == 3600 && r.priority == 0
  }

  /** The rows added are NS rows of the zone for the nameservers that are configured, in order. */
  ghost predicate NameserversAdded(rows: seq<Record>, rows': seq<Record>, next: int, next': int, zoneID: int,
                                   settings: Settings) {
    var wanted := (if settings.ns1 != "" then [settings.ns1] else []) +
      (if settings.ns2 != "" then [settings.ns2] else []);
    && |rows'| == |rows| + |wanted| && rows'[..|rows|] == rows && next' == next + |wanted|
    && forall i :: 0 <= i < |wanted| ==> IsNameserver(rows'[|rows| + i], next + i, zoneID, wanted[i])
  }

  lemma CreateZoneWrites(db: Db, z: Zone, settings: Settings, io: Io)
    ensures var (db', res) := CreateZone(db, z, settings, io);
            var domain := Lower(Trim(z.domain));
            var taken := exists x :: x in db.zones && x.domain == domain;
            && (res.Ok? <==> Valid(domain) && !taken && io.begin && io.exec && io.commit
                             && (settings.ns1 != "" ==> io.next) && (settings.ns2 != "" ==> io.last))
            && (!Valid(domain) ==> res == Err(InvalidDomain(ValidateDomain(domain))))
            && (Valid(domain) && io.begin && taken ==> res == Err(AlreadyRegistered))
            && (res.Err? ==> db' == db)
            && (res.Ok? ==>
                  && res.value == db.nextZone && db'.nextZone == db.nextZone + 1
                  && |db'.zones| == |db.zones| + 1 && db'.zones[..|db.zones|] == db.zones
                  && db'.zones[|db.zones|].id == db.nextZone && db'.zones[|db.zones|].domain == domain
                  && FilledIn(db'.zones[|db.zones|], z)
                  && NameserversAdded(db.records, db'.records, db.nextRecord, db'.nextRecord, db.nextZone, settings))
  {
    hide ValidateDomain, Lower, Trim;
    var (db', res) := CreateZone(db, z, settings, io);
    if res.Ok? {
      var withZone := db.(zones := db'.zones, nextZone := db.nextZone + 1);
      assert db' == Nameserver(Nameserver(withZone, db.nextZone, settings.ns1), db.nextZone, settings.ns2);
      NameserversWrite(withZone, db.nextZone, settings);
      hide NameserversAdded, Nameserver;
    }
  }

  lemma NameserversWrite(db: Db, zoneID: int, settings: Settings)
    ensures var db' := Nameserver(Nameserver(db, zoneID, settings.ns1), zoneID, settings.ns2);
            NameserversAdded(db.records, db'.records, db.nextRecord, db'.nextRecord, zoneID, settings)
  {
    var one := Nameserver(db, zoneID, settings.ns1);
    var two := Nameserver(one, zoneID, settings.ns2);
    var n := |db.records|;
    if settings.ns1 != "" { assert IsNameserver(two.records[n], db.nextRecord, zoneID, settings.ns1); }
    if settings.ns2 != "" { assert IsNameserver(two.records[|one.records|], one.nextRecord, zoneID, settings.ns2); }
    hide IsNameserver;
  }

  /** The domain's zones go with their records, and no other zone or record does. */
  lemma DeleteZoneWrites(db: Db, name: string, io: Io)
    ensures var (db', err) := DeleteZone(db, name, io);
            var domain := Lower(Trim(name));
            var known := exists z :: z in db.zones && z.domain == domain;
            && (err == None <==> io.begin && io.exec && io.next && io.commit && known)
            && (err == Some(NotFound) <==> io.begin && io.exec && io.next && !known)
            && (err != None ==> db' == db)
            && (err == None ==>
                  && (forall z :: multiset(db'.zones)[z] == if z.domain == domain then 0 else multiset(db.zones)[z])
                  && (forall r :: multiset(db'.records)[r] ==
                        if exists z :: z in db.zones && z.domain == domain && z.id == r.zoneID then 0
                        else multiset(db.records)[r])
                  && db'.nextZone == db.nextZone && db'.nextRecord == db.nextRecord)
  {
    hide Lower, Trim, Where;
    var domain := Lower(Trim(name));
    forall z ensures multiset(Where(db.zones, NotNamed(domain)))[z] == if z.domain == domain then 0
      else multiset(db.zones)[z] {
      WhereCounts(db.zones, NotNamed(domain), z);
    }
    var gone := IdsOf(db.zones, domain);
    forall r ensures multiset(Where(db.records, NotOfZones(gone)))[r] ==
                     if exists z :: z in db.zones && z.domain == domain && z.id == r.zoneID then 0
                     else multiset(db.records)[r]
    {
      WhereCounts(db.records, NotOfZones(gone), r);
      assert r.zoneID in gone <==> exists z :: z in db.zones && z.domain == domain && z.id == r.zoneID;
    }
  }
}
