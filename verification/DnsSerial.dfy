/** internal/store/dns.go: a zone's serial is a version number of its record set. */
module DnsSerial {
  import opened Strings
  import opened Domains
  import opened Rows
  import opened DnsStore

  /** Every operation that writes the zone or record table. */
  datatype Op =
    | Add(r: Record, io: Io)
    | Update(zoneID: int, id: int, value: string, ttl: int, priority: int, io: Io)
    | Delete(zoneID: int, id: int, io: Io)
    | DeleteEqual(zoneID: int, name: string, rtype: string, value: string, io: Io)
    | AddAbsent(r: Record, query: bool, io: Io)
    | NewZone(z: Zone, settings: Settings, io: Io)
    | DropZone(domain: string, io: Io)

  function Apply(db: Db, op: Op): Db {
    match op
    case Add(r, io) => AddRecord(db, r, io).0
    case Update(zoneID, id, value, ttl, priority, io) => UpdateRecord(db, zoneID, id, value, ttl, priority, io).0
    case Delete(zoneID, id, io) => DeleteRecord(db, zoneID, id, io).0
    case DeleteEqual(zoneID, name, rtype, value, io) => DeleteMatching(db, zoneID, name, rtype, value, io).0
    case AddAbsent(r, query, io) => AddIfAbsent(db, r, query, io).0
    case NewZone(z, settings, io) => CreateZone(db, z, settings, io).0
    case DropZone(domain, io) => DeleteZone(db, domain, io).0
  }

  /** The operation reports an error to its caller. */
  predicate Fails(db: Db, op: Op) {
    match op
    case Add(r, io) => AddRecord(db, r, io).1.Err?
    case Update(zoneID, id, value, ttl, priority, io) => UpdateRecord(db, zoneID, id, value, ttl, priority, io).1.Some?
    case Delete(zoneID, id, io) => DeleteRecord(db, zoneID, id, io).1.Some?
    case DeleteEqual(zoneID, name, rtype, value, io) => DeleteMatching(db, zoneID, name, rtype, value, io).1.Err?
    case AddAbsent(r, query, io) => AddIfAbsent(db, r, query, io).2.Some?
    case NewZone(z, settings, io) => CreateZone(db, z, settings, io).1.Err?
    case DropZone(domain, io) => DeleteZone(db, domain, io).1.Some?
  }

  lemma FailedOpChangesNothing(db: Db, op: Op)
    requires Fails(db, op)
    ensures Apply(db, op) == db
  {
  }

  function Run(db: Db, ops: seq<Op>): Db {
    if ops == [] then db else Apply(Run(db, ops[..|ops| - 1]), ops[|ops| - 1])
  }

  // ---- Table invariants ----

  predicate Live(db: Db, id: int) {
    exists z :: z in db.zones && z.id == id
  }

  ghost predicate DistinctRows(records: seq<Record>) {
    forall i, j :: 0 <= i < j < |records| ==> records[i].id != records[j].id
  }

  /** Ids are unique and below the counters; zone domains are valid and distinct. */
  ghost predicate Sound(db: Db) {
    && DistinctDomains(db.zones)
    && (forall z :: z in db.zones ==> z.id < db.nextZone && Valid(z.domain))
    && DistinctRows(db.records)
    && (forall r :: r in db.records ==> r.id < db.nextRecord)
  }

  ghost predicate RecordsHaveZones(db: Db) {
    forall r :: r in db.records ==> Live(db, r.zoneID)
  }

  lemma BumpKeepsRows(zones: seq<Zone>, zoneID: int)
    ensures var b := Bump(zones, zoneID);
            |b| == |zones| && forall i :: 0 <= i < |zones| ==>
              b[i] == zones[i].(serial := if zones[i].id == zoneID then zones[i].serial + 1 else zones[i].serial)
  {
  }

  lemma {:induction false} WhereKeepsDistinctRows(s: seq<Record>, p: Record -> bool)
    requires DistinctRows(s)
    ensures DistinctRows(Where(s, p))
  {
    if s != [] {
      var t := s[..|s| - 1];
      WhereKeepsDistinctRows(t, p);
      forall i | 0 <= i < |Where(t, p)| ensures Where(t, p)[i].id != s[|s| - 1].id {
        assert Where(t, p)[i] in t;
      }
    }
  }

  lemma {:induction false} WhereKeepsDistinctDomains(s: seq<Zone>, p: Zone -> bool)
    requires DistinctDomains(s)
    ensures DistinctDomains(Where(s, p))
  {
    if s != [] {
      var t := s[..|s| - 1];
      WhereKeepsDistinctDomains(t, p);
      forall i | 0 <= i < |Where(t, p)|
        ensures Where(t, p)[i].id != s[|s| - 1].id && Where(t, p)[i].domain != s[|s| - 1].domain
      {
        assert Where(t, p)[i] in t;
      }
    }
  }

  lemma BumpedIsSound(db: Db, records: seq<Record>, zoneID: int, nextRecord: int)
    requires Sound(db) && DistinctRows(records) && forall r :: r in records ==> r.id < nextRecord
    ensures Sound(db.(records := records, zones := Bump(db.zones, zoneID), nextRecord := nextRecord))
  {
    BumpKeepsRows(db.zones, zoneID);
    var b := Bump(db.zones, zoneID);
    forall z | z in b ensures z.id < db.nextZone && Valid(z.domain) {
      var i :| 0 <= i < |b| && b[i] == z;
      assert db.zones[i] in db.zones;
    }
  }

  lemma AddIsSound(db: Db, r: Record, io: Io)
    requires Sound(db)
    ensures Sound(AddRecord(db, r, io).0)
  {
    var row := Canonical(r).(id := db.nextRecord);
    BumpedIsSound(db, db.records + [row], row.zoneID, db.nextRecord + 1);
  }

  lemma CreateIsSound(db: Db, z: Zone, settings: Settings, io: Io)
    requires Sound(db)
    ensures Sound(CreateZone(db, z, settings, io).0)
  {
    hide Valid, ValidateDomain;
    var domain := Lower(Trim(z.domain));
    var row := WithDefaults(z.(domain := domain)).(id := db.nextZone);
    var withZone := db.(zones := db.zones + [row], nextZone := db.nextZone + 1);
    if CreateZone(db, z, settings, io).1.Ok? {
      assert Sound(withZone);
      assert Sound(Nameserver(withZone, row.id, settings.ns1));
    }
  }

  lemma SetRowKeepsIds(records: seq<Record>, zoneID: int, id: int, value: string, ttl: int, priority: int)
    ensures var s := SetRow(records, zoneID, id, value, ttl, priority);
            |s| == |records| && forall i :: 0 <= i < |s| ==>
              s[i].id == records[i].id && s[i].zoneID == records[i].zoneID
  {
  }

  lemma ApplyKeepsSound(db: Db, op: Op)
    requires Sound(db)
    ensures Sound(Apply(db, op))
  {
    if !Fails(db, op) {
      match op
      case Add(r, io) =>
        AddIsSound(db, r, io);
      case Update(zoneID, id, value, ttl, priority, io) =>
        var s := SetRow(db.records, zoneID, id, value, ttl, priority);
        SetRowKeepsIds(db.records, zoneID, id, value, ttl, priority);
        forall r | r in s ensures r.id < db.nextRecord {
          var i :| 0 <= i < |s| && s[i] == r;
          assert db.records[i] in db.records;
        }
        BumpedIsSound(db, s, zoneID, db.nextRecord);
      case Delete(zoneID, id, io) =>
        WhereKeepsDistinctRows(db.records, OtherThan(zoneID, id));
        BumpedIsSound(db, Where(db.records, OtherThan(zoneID, id)), zoneID, db.nextRecord);
      case DeleteEqual(zoneID, name, rtype, value, io) =>
        var p := Unlike(zoneID, Lower(Trim(name)), Upper(Trim(rtype)), value);
        WhereKeepsDistinctRows(db.records, p);
        BumpedIsSound(db, Where(db.records, p), zoneID, db.nextRecord);
      case AddAbsent(r, query, io) =>
        AddIsSound(db, Canonical(r), io);
      case NewZone(z, settings, io) =>
        CreateIsSound(db, z, settings, io);
      case DropZone(domain, io) =>
        var d := Lower(Trim(domain));
        WhereKeepsDistinctRows(db.records, NotOfZones(IdsOf(db.zones, d)));
        WhereKeepsDistinctDomains(db.zones, NotNamed(d));
    }
  }

  // ---- The serial ----

  ghost predicate HasSerial(db: Db, id: int, serial: int) {
    exists z :: z in db.zones && z.id == id && z.serial == serial
  }

  /** From one state to another the zone's serial did not fall, and if it stayed put so did the records. */
  ghost predicate Versioned(db: Db, db': Db, id: int) {
    forall s, s' :: HasSerial(db, id, s) && HasSerial(db', id, s') ==>
      s <= s' && (s == s' ==> RecordsOf(db, id) == RecordsOf(db', id))
  }

  lemma BumpedSerial(db: Db, zoneID: int, id: int, s: int, s': int)
    requires DistinctDomains(db.zones) && HasSerial(db, id, s)
    requires HasSerial(db.(zones := Bump(db.zones, zoneID)), id, s')
    ensures s' == if id == zoneID then s + 1 else s
  {
    BumpKeepsRows(db.zones, zoneID);
    var b := Bump(db.zones, zoneID);
    var z :| z in db.zones && z.id == id && z.serial == s;
    var z' :| z' in b && z'.id == id && z'.serial == s';
    var i :| 0 <= i < |b| && b[i] == z';
    var j :| 0 <= j < |b| && db.zones[j] == z;
    assert i == j;
  }

  /** A transaction that bumps `zoneID` and leaves the other zones' records alone. */
  lemma BumpIsVersioned(db: Db, db': Db, zoneID: int, id: int)
    requires DistinctDomains(db.zones) && db'.zones == Bump(db.zones, zoneID)
    requires id != zoneID ==> RecordsOf(db, id) == RecordsOf(db', id)
    ensures Versioned(db, db', id)
  {
    forall s, s' | HasSerial(db, id, s) && HasSerial(db', id, s')
      ensures s <= s' && (s == s' ==> RecordsOf(db, id) == RecordsOf(db', id))
    {
      BumpedSerial(db, zoneID, id, s, s');
    }
  }

  lemma {:induction false} SetRowElsewhere(s: seq<Record>, zoneID: int, rid: int, value: string, ttl: int,
                                           priority: int, id: int)
    requires id != zoneID
    ensures Where(SetRow(s, zoneID, rid, value, ttl, priority), OfZone(id)) == Where(s, OfZone(id))
  {
    if s != [] {
      var t := s[..|s| - 1];
      var u := SetRow(s, zoneID, rid, value, ttl, priority);
      assert u[..|s| - 1] == SetRow(t, zoneID, rid, value, ttl, priority);
      assert u[|s| - 1].zoneID == id ==> u[|s| - 1] == s[|s| - 1];
      SetRowElsewhere(t, zoneID, rid, value, ttl, priority, id);
    }
  }

  /** Removing rows of other zones only. */
  lemma RemoveElsewhere(s: seq<Record>, p: Record -> bool, id: int)
    requires forall r :: r in s && r.zoneID == id ==> p(r)
    ensures Where(Where(s, p), OfZone(id)) == Where(s, OfZone(id))
  {
    WhereWhere(s, p, OfZone(id), OfZone(id));
  }

  lemma AddIsVersioned(db: Db, r: Record, io: Io, id: int)
    requires Sound(db)
    ensures Versioned(db, AddRecord(db, r, io).0, id)
  {
    if AddRecord(db, r, io).1.Ok? {
      WhereAppend(db.records, Canonical(r).(id := db.nextRecord), OfZone(id));
      BumpIsVersioned(db, AddRecord(db, r, io).0, r.zoneID, id);
    } else {
      SameIsVersioned(db, id);
    }
  }

  lemma SerialIsUnique(db: Db, id: int, s: int, s': int)
    requires DistinctDomains(db.zones) && HasSerial(db, id, s) && HasSerial(db, id, s')
    ensures s == s'
  {
    var z :| z in db.zones && z.id == id && z.serial == s;
    var z' :| z' in db.zones && z'.id == id && z'.serial == s';
    SameIdSameZone(db.zones, z, z');
  }

  lemma SameIsVersioned(db: Db, id: int)
    requires DistinctDomains(db.zones)
    ensures Versioned(db, db, id)
  {
    forall s, s' | HasSerial(db, id, s) && HasSerial(db, id, s') ensures s == s' {
      SerialIsUnique(db, id, s, s');
    }
  }

  lemma CreateIsVersioned(db: Db, z: Zone, settings: Settings, io: Io, id: int)
    requires Sound(db) && Live(db, id)
    ensures Versioned(db, CreateZone(db, z, settings, io).0, id)
  {
    hide Valid, ValidateDomain;
    var db' := CreateZone(db, z, settings, io).0;
    SameIsVersioned(db, id);
    if CreateZone(db, z, settings, io).1.Ok? {
      var row := db'.zones[|db.zones|];
      assert db'.zones == db.zones + [row] && row.id == db.nextZone != id;
      assert forall s :: HasSerial(db', id, s) ==> HasSerial(db, id, s);
      var a := if settings.ns1 == "" then [] else [Record(db.nextRecord, row.id, "@", "NS", settings.ns1, 3600, 0)];
      var b := if settings.ns2 == "" then []
               else [Record(db.nextRecord + |a|, row.id, "@", "NS", settings.ns2, 3600, 0)];
      assert db'.records == db.records + (a + b);
      WhereConcat(db.records, a + b, OfZone(id));
      WhereNone(a + b, OfZone(id));
    }
  }

  lemma SameIdSameZone(zones: seq<Zone>, y: Zone, z: Zone)
    requires DistinctDomains(zones) && y in zones && z in zones && y.id == z.id
    ensures y == z
  {
    var i :| 0 <= i < |zones| && zones[i] == y;
    var j :| 0 <= j < |zones| && zones[j] == z;
    assert i == j;
  }

  lemma DropIsVersioned(db: Db, domain: string, io: Io, id: int)
    requires Sound(db) && Live(DeleteZone(db, domain, io).0, id)
    ensures Versioned(db, DeleteZone(db, domain, io).0, id)
  {
    hide Valid;
    var db', d := DeleteZone(db, domain, io).0, Lower(Trim(domain));
    SameIsVersioned(db, id);
    if DeleteZone(db, domain, io).1.None? {
      assert forall s :: HasSerial(db', id, s) ==> HasSerial(db, id, s);
      var z :| z in db'.zones && z.id == id;
      forall y | y in db.zones && y.domain == d ensures y.id != id {
        if y.id == id { SameIdSameZone(db.zones, y, z); }
      }
      assert id !in IdsOf(db.zones, d);
      RemoveElsewhere(db.records, NotOfZones(IdsOf(db.zones, d)), id);
    }
  }

  lemma ApplyIsVersioned(db: Db, op: Op, id: int)
    requires Sound(db) && Live(db, id) && Live(Apply(db, op), id)
    ensures Versioned(db, Apply(db, op), id)
  {
    if Fails(db, op) {
      FailedOpChangesNothing(db, op);
      SameIsVersioned(db, id);
    } else {
      match op
      case Add(r, io) =>
        AddIsVersioned(db, r, io, id);
      case Update(zoneID, rid, value, ttl, priority, io) =>
        if id != zoneID { SetRowElsewhere(db.records, zoneID, rid, value, ttl, priority, id); }
        BumpIsVersioned(db, Apply(db, op), zoneID, id);
      case Delete(zoneID, rid, io) =>
        if id != zoneID { RemoveElsewhere(db.records, OtherThan(zoneID, rid), id); }
        BumpIsVersioned(db, Apply(db, op), zoneID, id);
      case DeleteEqual(zoneID, name, rtype, value, io) =>
        var p := Unlike(zoneID, Lower(Trim(name)), Upper(Trim(rtype)), value);
        if Apply(db, op) == db {
          SameIsVersioned(db, id);
        } else {
          if id != zoneID { RemoveElsewhere(db.records, p, id); }
          BumpIsVersioned(db, Apply(db, op), zoneID, id);
        }
      case AddAbsent(r, query, io) =>
        if Apply(db, op) == db {
          SameIsVersioned(db, id);
        } else {
          AddIsVersioned(db, Canonical(r), io, id);
        }
      case NewZone(z, settings, io) =>
        CreateIsVersioned(db, z, settings, io, id);
      case DropZone(domain, io) =>
        DropIsVersioned(db, domain, io, id);
    }
  }

  // ---- Zone ids are never reused ----

  lemma BumpKeepsLive(db: Db, db': Db, zoneID: int, id: int)
    requires db'.zones == Bump(db.zones, zoneID)
    ensures Live(db, id) <==> Live(db', id)
  {
    BumpKeepsRows(db.zones, zoneID);
    if Live(db, id) {
      var z :| z in db.zones && z.id == id;
      var i :| 0 <= i < |db.zones| && db.zones[i] == z;
      assert db'.zones[i] in db'.zones;
    }
    if Live(db', id) {
      var z :| z in db'.zones && z.id == id;
      var i :| 0 <= i < |db'.zones| && db'.zones[i] == z;
      assert db.zones[i] in db.zones;
    }
  }

  function TargetZone(op: Op): int
    requires !op.NewZone? && !op.DropZone?
  {
    match op
    case Add(r, _) => r.zoneID
    case AddAbsent(r, _, _) => r.zoneID
    case Update(zoneID, _, _, _, _, _) => zoneID
    case Delete(zoneID, _, _) => zoneID
    case DeleteEqual(zoneID, _, _, _, _) => zoneID
  }

  /** An operation other than create and drop changes no zone's existence. */
  lemma RecordOpsKeepLive(db: Db, op: Op, id: int)
    requires !op.NewZone? && !op.DropZone?
    ensures Live(db, id) <==> Live(Apply(db, op), id)
  {
    var db' := Apply(db, op);
    if db' != db {
      assert db'.zones == Bump(db.zones, TargetZone(op));
      BumpKeepsLive(db, db', TargetZone(op), id);
    }
  }

  lemma DeadStaysDead(db: Db, op: Op, id: int)
    requires Sound(db) && id < db.nextZone && !Live(db, id)
    ensures !Live(Apply(db, op), id) && id < Apply(db, op).nextZone
  {
    if !op.NewZone? && !op.DropZone? {
      RecordOpsKeepLive(db, op, id);
    }
  }

  // ---- Runs ----

  lemma {:induction false} RunIsSound(db: Db, ops: seq<Op>, i: nat)
    requires Sound(db) && i <= |ops|
    ensures Sound(Run(db, ops[..i]))
  {
    hide Apply, Sound;
    if i > 0 {
      RunIsSound(db, ops, i - 1);
      assert ops[..i][..i - 1] == ops[..i - 1];
      ApplyKeepsSound(Run(db, ops[..i - 1]), ops[i - 1]);
    }
  }

  /** Between any two moments of any run at which the zone exists: the serial never falls, a changed
      record set has a larger serial, and equal serials mean equal record sets. */
  lemma {:induction false} SerialIsVersion(db: Db, ops: seq<Op>, i: nat, j: nat, id: int)
    requires Sound(db) && i <= j <= |ops|
    requires Live(Run(db, ops[..i]), id) && Live(Run(db, ops[..j]), id)
    ensures Versioned(Run(db, ops[..i]), Run(db, ops[..j]), id)
    decreases j - i
  {
    hide Apply, Versioned, Live;
    var a, c := Run(db, ops[..i]), Run(db, ops[..j]);
    RunIsSound(db, ops, i);
    if i == j {
      SameIsVersioned(a, id);
    } else {
      var b := Run(db, ops[..j - 1]);
      assert ops[..j][..j - 1] == ops[..j - 1];
      RunIsSound(db, ops, j - 1);
      StillLive(db, ops, i, j - 1, id);
      SerialIsVersion(db, ops, i, j - 1, id);
      ApplyIsVersioned(b, ops[j - 1], id);
      VersionedTransitive(a, b, c, id);
    }
  }

  lemma StillLive(db: Db, ops: seq<Op>, i: nat, j: nat, id: int)
    requires Sound(db) && i <= j < |ops|
    requires Live(Run(db, ops[..i]), id) && Live(Run(db, ops[..j + 1]), id)
    ensures Live(Run(db, ops[..j]), id)
  {
    hide Valid, ValidateDomain, Apply;
    var a, b := Run(db, ops[..i]), Run(db, ops[..j]);
    RunIsSound(db, ops, i);
    RunIsSound(db, ops, j);
    CounterGrows(db, ops, i, j);
    assert ops[..j + 1][..j] == ops[..j];
    var z :| z in a.zones && z.id == id;
    if !Live(b, id) {
      DeadStaysDead(b, ops[j], id);
    }
  }

  lemma StepCounterGrows(db: Db, op: Op)
    ensures db.nextZone <= Apply(db, op).nextZone
  {
    hide Valid, ValidateDomain, Where;
  }

  lemma {:induction false} CounterGrows(db: Db, ops: seq<Op>, i: nat, j: nat)
    requires i <= j <= |ops|
    ensures Run(db, ops[..i]).nextZone <= Run(db, ops[..j]).nextZone
    decreases j - i
  {
    hide Apply;
    if i < j {
      CounterGrows(db, ops, i, j - 1);
      assert ops[..j][..j - 1] == ops[..j - 1];
      StepCounterGrows(Run(db, ops[..j - 1]), ops[j - 1]);
    }
  }

  lemma VersionedTransitive(a: Db, b: Db, c: Db, id: int)
    requires Live(b, id) && Versioned(a, b, id) && Versioned(b, c, id)
    ensures Versioned(a, c, id)
  {
    var z :| z in b.zones && z.id == id;
    assert HasSerial(b, id, z.serial);
  }

  // ---- Every record has a zone ----

  /** Inserting keeps referential integrity exactly when it fails or the zone exists. */
  lemma AddKeepsReferencesIff(db: Db, r: Record, io: Io)
    requires RecordsHaveZones(db)
    ensures RecordsHaveZones(AddRecord(db, r, io).0) <==> AddRecord(db, r, io).1.Err? || Live(db, r.zoneID)
  {
    var db' := AddRecord(db, r, io).0;
    if AddRecord(db, r, io).1.Ok? {
      forall id ensures Live(db, id) <==> Live(db', id) { BumpKeepsLive(db, db', r.zoneID, id); }
      var row := db'.records[|db.records|];
      assert row in db'.records && row.zoneID == r.zoneID;
    }
  }

  /** Every statement of an insert's transaction succeeds. */
  predicate InsertSucceeds(io: Io) {
    io.begin && io.exec && io.next && io.commit
  }

  /** An insert names an existing zone, or inserts nothing: a statement fails or the record is there already. */
  predicate AddsToLiveZone(db: Db, op: Op) {
    match op
    case Add(r, io) => Live(db, r.zoneID) || !InsertSucceeds(io)
    case AddAbsent(r, query, io) => Live(db, r.zoneID) || !query || Present(db, Canonical(r)) || !InsertSucceeds(io)
    case _ => true
  }

  lemma CreateKeepsReferences(db: Db, z: Zone, settings: Settings, io: Io)
    requires RecordsHaveZones(db)
    ensures RecordsHaveZones(CreateZone(db, z, settings, io).0)
  {
    hide Valid, ValidateDomain;
    var db' := CreateZone(db, z, settings, io).0;
    if CreateZone(db, z, settings, io).1.Ok? {
      var row := db'.zones[|db.zones|];
      assert row in db'.zones && row.id == db.nextZone;
      forall r | r in db'.records ensures Live(db', r.zoneID) {
        if r in db.records {
          var x :| x in db.zones && x.id == r.zoneID;
          assert x in db'.zones;
        } else {
          assert r.zoneID == row.id;
        }
      }
    }
  }

  /** Every operation keeps each record's zone existing, adds to a missing zone being the one exception. */
  lemma ApplyKeepsReferencesIff(db: Db, op: Op)
    requires RecordsHaveZones(db)
    ensures RecordsHaveZones(Apply(db, op)) <==> AddsToLiveZone(db, op)
  {
    var db' := Apply(db, op);
    if !op.NewZone? && !op.DropZone? {
      forall id ensures Live(db, id) <==> Live(db', id) { RecordOpsKeepLive(db, op, id); }
    }
    match op
    case Add(r, io) =>
      AddKeepsReferencesIff(db, r, io);
    case AddAbsent(r, query, io) =>
      AddKeepsReferencesIff(db, Canonical(r), io);
    case Update(zoneID, id, value, ttl, priority, io) =>
      if db' != db {
        SetRowKeepsIds(db.records, zoneID, id, value, ttl, priority);
        forall r | r in db'.records ensures Live(db', r.zoneID) {
          var i :| 0 <= i < |db'.records| && db'.records[i] == r;
          assert db.records[i] in db.records;
        }
      }
    case NewZone(z, settings, io) =>
      CreateKeepsReferences(db, z, settings, io);
    case DropZone(domain, io) =>
      if db' != db {
        forall r | r in db'.records ensures Live(db', r.zoneID) {
          var z :| z in db.zones && z.id == r.zoneID;
          assert z.id !in IdsOf(db.zones, Lower(Trim(domain)));
          assert z in db'.zones;
        }
      }
    case Delete(_, _, _) =>
    case DeleteEqual(_, _, _, _, _) =>
  }

  lemma {:induction false} ReferencesHold(db: Db, ops: seq<Op>, n: nat)
    requires RecordsHaveZones(db) && n <= |ops|
    requires forall k :: 0 <= k < n ==> AddsToLiveZone(Run(db, ops[..k]), ops[k])
    ensures RecordsHaveZones(Run(db, ops[..n]))
  {
    hide Apply, RecordsHaveZones, AddsToLiveZone;
    if n > 0 {
      ReferencesHold(db, ops, n - 1);
      assert ops[..n][..n - 1] == ops[..n - 1];
      ApplyKeepsReferencesIff(Run(db, ops[..n - 1]), ops[n - 1]);
    }
  }

  /** Along any run each record's zone exists at every moment exactly when every insert names an existing zone. */
  lemma RunKeepsReferencesIff(db: Db, ops: seq<Op>)
    requires RecordsHaveZones(db)
    ensures (forall k :: 0 <= k <= |ops| ==> RecordsHaveZones(Run(db, ops[..k]))) <==>
            (forall k :: 0 <= k < |ops| ==> AddsToLiveZone(Run(db, ops[..k]), ops[k]))
  {
    hide Apply, RecordsHaveZones, AddsToLiveZone;
    if forall k :: 0 <= k < |ops| ==> AddsToLiveZone(Run(db, ops[..k]), ops[k]) {
      forall k | 0 <= k <= |ops| ensures RecordsHaveZones(Run(db, ops[..k])) {
        ReferencesHold(db, ops, k);
      }
    }
    if forall k :: 0 <= k <= |ops| ==> RecordsHaveZones(Run(db, ops[..k])) {
      forall k | 0 <= k < |ops| ensures AddsToLiveZone(Run(db, ops[..k]), ops[k]) {
        assert ops[..k + 1][..k] == ops[..k];
        assert RecordsHaveZones(Run(db, ops[..k])) && RecordsHaveZones(Run(db, ops[..k + 1]));
        ApplyKeepsReferencesIff(Run(db, ops[..k]), ops[k]);
      }
    }
  }

  // ---- The serial by domain: a version until the domain's zone is dropped ----

  /** Zone `id` is the domain's. */
  ghost predicate Names(db: Db, id: int, domain: string) {
    exists z :: z in db.zones && z.id == id && z.domain == domain
  }

  /** The operation succeeds in dropping the domain's zone. */
  predicate Drops(db: Db, op: Op, domain: string) {
    op.DropZone? && Lower(Trim(op.domain)) == domain && DeleteZone(db, op.domain, op.io).1.None?
  }

  lemma BumpKeepsNames(db: Db, db': Db, zoneID: int, id: int, domain: string)
    requires db'.zones == Bump(db.zones, zoneID)
    ensures Names(db, id, domain) <==> Names(db', id, domain)
  {
    BumpKeepsRows(db.zones, zoneID);
    if z :| z in db.zones && z.id == id && z.domain == domain {
      var i :| 0 <= i < |db.zones| && db.zones[i] == z;
      assert db'.zones[i] in db'.zones;
    }
    if z :| z in db'.zones && z.id == id && z.domain == domain {
      var i :| 0 <= i < |db'.zones| && db'.zones[i] == z;
      assert db.zones[i] in db.zones;
    }
  }

  lemma CreateKeepsNames(db: Db, z: Zone, settings: Settings, io: Io, id: int, domain: string)
    requires id < db.nextZone
    ensures Names(CreateZone(db, z, settings, io).0, id, domain) <==> Names(db, id, domain)
  {
    hide Valid, ValidateDomain;
    var db' := CreateZone(db, z, settings, io).0;
    if CreateZone(db, z, settings, io).1.Ok? {
      var row := db'.zones[|db.zones|];
      assert db'.zones == db.zones + [row] && row.id == db.nextZone;
    }
  }

  /** An existing zone stays its domain's until it is dropped, and a number once given to a zone names no other. */
  lemma NamesStep(db: Db, op: Op, id: int, domain: string)
    requires id < db.nextZone
    ensures Names(Apply(db, op), id, domain) <==> Names(db, id, domain) && !Drops(db, op, domain)
  {
    var db' := Apply(db, op);
    match op
    case NewZone(z, settings, io) =>
      CreateKeepsNames(db, z, settings, io, id, domain);
    case DropZone(name, io) =>
      hide Lower, Trim;
    case _ =>
      if db' != db {
        assert db'.zones == Bump(db.zones, TargetZone(op));
        BumpKeepsNames(db, db', TargetZone(op), id, domain);
      }
  }

  /** Later in the run zone `id` is still the domain's exactly when no drop of the domain has succeeded since. */
  lemma {:induction false} SameZoneUntilDropped(db: Db, ops: seq<Op>, i: nat, j: nat, id: int, domain: string)
    requires i <= j <= |ops| && id < Run(db, ops[..i]).nextZone && Names(Run(db, ops[..i]), id, domain)
    ensures Names(Run(db, ops[..j]), id, domain) <==>
            forall k :: i <= k < j ==> !Drops(Run(db, ops[..k]), ops[k], domain)
    decreases j - i
  {
    hide Apply, Names, Drops;
    if i < j {
      SameZoneUntilDropped(db, ops, i, j - 1, id, domain);
      CounterGrows(db, ops, i, j - 1);
      assert ops[..j][..j - 1] == ops[..j - 1];
      NamesStep(Run(db, ops[..j - 1]), ops[j - 1], id, domain);
    }
  }

  /** Versioned, with the zones looked up by their domain. */
  ghost predicate VersionedByDomain(db: Db, db': Db, domain: string) {
    forall z, z' :: z in db.zones && z' in db'.zones && z.domain == domain && z'.domain == domain ==>
      z.serial <= z'.serial && (z.serial == z'.serial ==> RecordsOf(db, z.id) == RecordsOf(db', z'.id))
  }

  lemma SameDomainSameZone(zones: seq<Zone>, y: Zone, z: Zone)
    requires DistinctDomains(zones) && y in zones && z in zones && y.domain == z.domain
    ensures y == z
  {
    var i :| 0 <= i < |zones| && zones[i] == y;
    var j :| 0 <= j < |zones| && zones[j] == z;
    assert i == j;
  }

  /** Between two moments of any run with no successful drop of the domain between them its serial is a version. */
  lemma SerialIsVersionByDomain(db: Db, ops: seq<Op>, i: nat, j: nat, domain: string)
    requires Sound(db) && i <= j <= |ops|
    requires forall k :: i <= k < j ==> !Drops(Run(db, ops[..k]), ops[k], domain)
    ensures VersionedByDomain(Run(db, ops[..i]), Run(db, ops[..j]), domain)
  {
    hide Run, Drops, Valid, RecordsOf;
    var a, b := Run(db, ops[..i]), Run(db, ops[..j]);
    RunIsSound(db, ops, i);
    RunIsSound(db, ops, j);
    forall z, z' | z in a.zones && z' in b.zones && z.domain == domain && z'.domain == domain
      ensures z.serial <= z'.serial && (z.serial == z'.serial ==> RecordsOf(a, z.id) == RecordsOf(b, z'.id))
    {
      assert Names(a, z.id, domain);
      SameZoneUntilDropped(db, ops, i, j, z.id, domain);
      var y :| y in b.zones && y.id == z.id && y.domain == domain;
      SameDomainSameZone(b.zones, y, z');
      SerialIsVersion(db, ops, i, j, z.id);
      assert HasSerial(a, z.id, z.serial) && HasSerial(b, z.id, z'.serial);
    }
  }

  /** When a domain that had a zone is created anew later in a run, its zone was dropped in between, it has a new id,
      and its serial exceeds the old one exactly when the serial asked for, 1 by default, does. */
  lemma RecreatedZoneExceedsIff(db: Db, x: Zone, ops: seq<Op>, z: Zone, settings: Settings, io: Io)
    requires Sound(db) && x in db.zones && x.domain == Lower(Trim(z.domain))
    requires CreateZone(Run(db, ops), z, settings, io).1.Ok?
    ensures exists k :: 0 <= k < |ops| && Drops(Run(db, ops[..k]), ops[k], x.domain)
    ensures var after := Apply(Run(db, ops), NewZone(z, settings, io));
            && (exists y :: y in after.zones && y.domain == x.domain)
            && (forall y :: y in after.zones && y.domain == x.domain ==>
                  y.id != x.id && (y.serial > x.serial <==> WithDefaults(z).serial > x.serial))
  {
    hide Run, Drops, Valid, ValidateDomain, Lower, Trim;
    var n, b := |ops|, Run(db, ops);
    assert ops[..0] == [] && ops[..n] == ops;
    assert Run(db, []) == db by { RunOfNothing(db); }
    assert Names(db, x.id, x.domain);
    CounterGrows(db, ops, 0, n);
    SameZoneUntilDropped(db, ops, 0, n, x.id, x.domain);
    var after := Apply(b, NewZone(z, settings, io));
    var row := after.zones[|b.zones|];
    assert after.zones == b.zones + [row] && row in after.zones;
  }

  lemma RunOfNothing(db: Db)
    ensures Run(db, []) == db
  {
  }

  /** So it can fall: once a zone with a record is dropped and its domain created again with the default serial, it
      goes from 2 to 1. */
  lemma RecreatedZoneStartsOver(z: Zone, r: Record)
    requires Valid(z.domain) && z.serial == 0 && r.zoneID == 1
    ensures var io := Io(true, true, true, true, true);
            var create := NewZone(z, Settings("", "", ""), io);
            var before := Apply(Apply(Db([], [], 1, 1), create), Add(r, io));
            var after := Apply(Apply(before, DropZone(z.domain, io)), create);
            && |before.zones| == |after.zones| == 1
            && before.zones[0].domain == after.zones[0].domain == z.domain
            && before.zones[0].serial == 2 && after.zones[0].serial == 1
  {
    ValidFacts(z.domain);
    hide Valid, ValidateDomain, Trim, Lower;
    var io := Io(true, true, true, true, true);
    var create := NewZone(z, Settings("", "", ""), io);
    var created := Apply(Db([], [], 1, 1), create);
    assert created.zones == [WithDefaults(z).(id := 1)];
    var before := Apply(created, Add(r, io));
    assert before.zones == [created.zones[0].(serial := 2)] && before.zones[0] in before.zones;
    var dropped := Apply(before, DropZone(z.domain, io));
    WhereNone(before.zones, NotNamed(z.domain));
    assert dropped.zones == [];
  }
}
