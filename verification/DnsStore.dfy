/** internal/store/dns.go: the zone and record tables, and the transactions that change them. */
module DnsStore {
  import opened Wrappers
  import opened Strings
  import opened Domains
  import opened Rows
  import opened Sorting

  // ---- Rows ----

  datatype Zone = Zone(id: int, domain: string, ownerType: string, ownerID: int, userID: int,
                       serial: int, refresh: int, retry: int, expire: int, minimum: int)

  datatype Record = Record(id: int, zoneID: int, name: string, rtype: string, value: string, ttl: int, priority: int)

  datatype Settings = Settings(ns1: string, ns2: string, hostmaster: string)

  datatype Error = IoFailure | NotFound | AlreadyRegistered | InvalidDomain(why: Verdict)

  /** Whether each statement of one transaction succeeds; the environment decides. */
  datatype Io = Io(begin: bool, exec: bool, next: bool, last: bool, commit: bool)

  /** Outcome of the existence query and of the transaction of one attempt to change a record. */
  datatype Attempt = Attempt(query: bool, io: Io)

  /** The two tables with their AUTOINCREMENT counters. */
  datatype Db = Db(zones: seq<Zone>, records: seq<Record>, nextZone: int, nextRecord: int)

  // ---- Conditions and updates ----

  function OfZone(zoneID: int): Record -> bool {
    (r: Record) => r.zoneID == zoneID
  }

  function NotOfZones(ids: set<int>): Record -> bool {
    (r: Record) => r.zoneID !in ids
  }

  predicate IsRecord(r: Record, zoneID: int, id: int) {
    r.id == id && r.zoneID == zoneID
  }

  function OtherThan(zoneID: int, id: int): Record -> bool {
    (r: Record) => !IsRecord(r, zoneID, id)
  }

  predicate Same(r: Record, zoneID: int, name: string, rtype: string, value: string) {
    r.zoneID == zoneID && r.name == name && r.rtype == rtype && r.value == value
  }

  function Unlike(zoneID: int, name: string, rtype: string, value: string): Record -> bool {
    (r: Record) => !Same(r, zoneID, name, rtype, value)
  }

  function NotNamed(domain: string): Zone -> bool {
    (z: Zone) => z.domain != domain
  }

  function RecordsOf(db: Db, zoneID: int): seq<Record> {
    Where(db.records, OfZone(zoneID))
  }

  function Bump(zones: seq<Zone>, zoneID: int): seq<Zone> {
    seq(|zones|, i requires 0 <= i < |zones| =>
      if zones[i].id == zoneID then zones[i].(serial := zones[i].serial + 1) else zones[i])
  }

  function SetRow(records: seq<Record>, zoneID: int, id: int, value: string, ttl: int, priority: int): seq<Record> {
    seq(|records|, i requires 0 <= i < |records| =>
      if IsRecord(records[i], zoneID, id) then records[i].(value := value, ttl := ttl, priority := priority)
      else records[i])
  }

  function Canonical(r: Record): Record {
    r.(name := Lower(Trim(r.name)), rtype := Upper(Trim(r.rtype)))
  }

  // ---- What each operation does to the tables ----

  function AddRecord(db: Db, r: Record, io: Io): (Db, Result<int, Error>) {
    if !io.begin || !io.exec || !io.next || !io.commit then (db, Err(IoFailure))
    else
      var row := Canonical(r).(id := db.nextRecord);
      (db.(records := db.records + [row], zones := Bump(db.zones, row.zoneID), nextRecord := db.nextRecord + 1),
       Ok(row.id))
  }

  function UpdateRecord(db: Db, zoneID: int, id: int, value: string, ttl: int, priority: int,
                        io: Io): (Db, Option<Error>) {
    if !io.begin || !io.exec then (db, Some(IoFailure))
    else if !exists r :: r in db.records && IsRecord(r, zoneID, id) then (db, Some(NotFound))
    else if !io.next || !io.commit then (db, Some(IoFailure))
    else
      (db.(records := SetRow(db.records, zoneID, id, value, ttl, priority), zones := Bump(db.zones, zoneID)), None)
  }

  function DeleteRecord(db: Db, zoneID: int, id: int, io: Io): (Db, Option<Error>) {
    if !io.begin || !io.exec then (db, Some(IoFailure))
    else if !exists r :: r in db.records && IsRecord(r, zoneID, id) then (db, Some(NotFound))
    else if !io.next || !io.commit then (db, Some(IoFailure))
    else
      (db.(records := Where(db.records, OtherThan(zoneID, id)), zones := Bump(db.zones, zoneID)), None)
  }

  function DeleteMatching(db: Db, zoneID: int, name: string, rtype: string, value: string,
                          io: Io): (Db, Result<int, Error>) {
    var kept := Where(db.records, Unlike(zoneID, Lower(Trim(name)), Upper(Trim(rtype)), value));
    var n := |db.records| - |kept|;
    if !io.begin || !io.exec then (db, Err(IoFailure))
    else if n > 0 && !io.next then (db, Err(IoFailure))
    else if !io.commit then (db, Err(IoFailure))
    else if n > 0 then (db.(records := kept, zones := Bump(db.zones, zoneID)), Ok(n))
    else (db, Ok(0))
  }

  predicate Present(db: Db, r: Record) {
    exists x :: x in db.records && Same(x, r.zoneID, r.name, r.rtype, r.value)
  }

  function AddIfAbsent(db: Db, r: Record, query: bool, io: Io): (Db, bool, Option<Error>) {
    var c := Canonical(r);
    if !query then (db, false, Some(IoFailure))
    else if Present(db, c) then (db, false, None)
    else
      var (db', res) := AddRecord(db, c, io);
      (db', true, if res.Ok? then None else Some(res.error))
  }

  function WithDefaults(z: Zone): Zone {
    var z := z.(serial := if z.serial == 0 then 1 else z.serial, refresh := if z.refresh == 0 then 7200 else z.refresh,
                retry := if z.retry == 0 then 3600 else z.retry, expire := if z.expire == 0 then 1209600 else z.expire,
                minimum := if z.minimum == 0 then 3600 else z.minimum);
    if z.ownerType == "" then z.(ownerType := "user", ownerID := z.userID) else z
  }

  function Nameserver(db: Db, zoneID: int, ns: string): Db {
    if ns == "" then db
    else
      db.(records := db.records + [Record(db.nextRecord, zoneID, "@", "NS", ns, 3600, 0)],
          nextRecord := db.nextRecord + 1)
  }

  function CreateZone(db: Db, z: Zone, settings: Settings, io: Io): (Db, Result<int, Error>) {
    var domain := Lower(Trim(z.domain));
    if !Valid(domain) then (db, Err(InvalidDomain(ValidateDomain(domain))))
    else if !io.begin then (db, Err(IoFailure))
    else if exists x :: x in db.zones && x.domain == domain then (db, Err(AlreadyRegistered))
    else if !io.exec || (settings.ns1 != "" && !io.next) || (settings.ns2 != "" && !io.last) || !io.commit then
      (db, Err(IoFailure))
    else
      var row := WithDefaults(z.(domain := domain)).(id := db.nextZone);
      var withZone := db.(zones := db.zones + [row], nextZone := db.nextZone + 1);
      (Nameserver(Nameserver(withZone, row.id, settings.ns1), row.id, settings.ns2), Ok(row.id))
  }

  function IdsOf(zones: seq<Zone>, domain: string): set<int> {
    set z | z in zones && z.domain == domain :: z.id
  }

  function DeleteZone(db: Db, name: string, io: Io): (Db, Option<Error>) {
    var domain := Lower(Trim(name));
    if !io.begin || !io.exec || !io.next then (db, Some(IoFailure))
    else if !exists z :: z in db.zones && z.domain == domain then (db, Some(NotFound))
    else if !io.commit then (db, Some(IoFailure))
    else
      (db.(records := Where(db.records, NotOfZones(IdsOf(db.zones, domain))),
           zones := Where(db.zones, NotNamed(domain))), None)
  }

  // ---- The search for a domain's zone ----

  /** The longest apex among the zones that cover the domain; the first of them on a tie. */
  function ZoneFor(zones: seq<Zone>, domain: string): Option<Zone> {
    if zones == [] then None
    else
      var best, z := ZoneFor(zones[..|zones| - 1], domain), zones[|zones| - 1];
      if !Covers(z.domain, domain) then best
      else if best.None? || |z.domain| > |best.value.domain| then Some(z)
      else best
  }

  function LabelIn(apex: string, domain: string): string {
    if domain == apex then "@" else TrimSuffix(domain, "." + apex)
  }

  // ---- The store ----

  class Store {
    var zones: seq<Zone>
    var records: seq<Record>
    var nextZone: int
    var nextRecord: int

    constructor ()
      ensures Tables() == Db([], [], 1, 1)
    {
      zones, records, nextZone, nextRecord := [], [], 1, 1;
    }

    ghost function Tables(): Db
      reads this
    {
      Db(zones, records, nextZone, nextRecord)
    }

    method AddDNSRecord(r: Record, io: Io) returns (res: Result<int, Error>)
      modifies this
      ensures (Tables(), res) == AddRecord(old(Tables()), r, io)
    {
      var row := r.(name := Lower(Trim(r.name)), rtype := Upper(Trim(r.rtype)), id := nextRecord);
      if !io.begin { return Err(IoFailure); }
      var txRecords := records + [row];
      if !io.exec { return Err(IoFailure); }
      var txZones := Bump(zones, row.zoneID);
      if !io.next { return Err(IoFailure); }
      if !io.commit { return Err(IoFailure); }
      records, zones, nextRecord := txRecords, txZones, nextRecord + 1;
      return Ok(row.id);
    }

    method UpdateDNSRecord(zoneID: int, id: int, value: string, ttl: int, priority: int, io: Io)
        returns (err: Option<Error>)
      modifies this
      ensures (Tables(), err) == UpdateRecord(old(Tables()), zoneID, id, value, ttl, priority, io)
    {
      if !io.begin { return Some(IoFailure); }
      var affected := exists r :: r in records && IsRecord(r, zoneID, id);
      var txRecords := SetRow(records, zoneID, id, value, ttl, priority);
      if !io.exec { return Some(IoFailure); }
      if !affected { return Some(NotFound); }
      var txZones := Bump(zones, zoneID);
      if !io.next { return Some(IoFailure); }
      if !io.commit { return Some(IoFailure); }
      records, zones := txRecords, txZones;
      return None;
    }

    method DeleteDNSRecord(zoneID: int, id: int, io: Io) returns (err: Option<Error>)
      modifies this
      ensures (Tables(), err) == DeleteRecord(old(Tables()), zoneID, id, io)
    {
      if !io.begin { return Some(IoFailure); }
      var affected := exists r :: r in records && IsRecord(r, zoneID, id);
      var txRecords := Where(records, OtherThan(zoneID, id));
      if !io.exec { return Some(IoFailure); }
      if !affected { return Some(NotFound); }
      var txZones := Bump(zones, zoneID);
      if !io.next { return Some(IoFailure); }
      if !io.commit { return Some(IoFailure); }
      records, zones := txRecords, txZones;
      return None;
    }

    method DeleteDNSRecordsMatching(zoneID: int, name: string, rtype: string, value: string, io: Io)
        returns (res: Result<int, Error>)
      modifies this
      ensures (Tables(), res) == DeleteMatching(old(Tables()), zoneID, name, rtype, value, io)
    {
      if !io.begin { return Err(IoFailure); }
      var txRecords := Where(records, Unlike(zoneID, Lower(Trim(name)), Upper(Trim(rtype)), value));
      var txZones := zones;
      if !io.exec { return Err(IoFailure); }
      var n := |records| - |txRecords|;
      if n > 0 {
        txZones := Bump(zones, zoneID);
        if !io.next { return Err(IoFailure); }
      }
      if !io.commit { return Err(IoFailure); }
      NothingDeleted(records, Unlike(zoneID, Lower(Trim(name)), Upper(Trim(rtype)), value));
      records, zones := txRecords, txZones;
      return Ok(n);
    }

    method AddDNSRecordIfAbsent(r: Record, query: bool, io: Io) returns (added: bool, err: Option<Error>)
      modifies this
      ensures (Tables(), added, err) == AddIfAbsent(old(Tables()), r, query, io)
    {
      var c := r.(name := Lower(Trim(r.name)), rtype := Upper(Trim(r.rtype)));
      if !query { return false, Some(IoFailure); }
      if exists x :: x in records && Same(x, c.zoneID, c.name, c.rtype, c.value) {
        return false, None;
      }
      var res := AddDNSRecord(c, io);
      added, err := true, if res.Ok? then None else Some(res.error);
    }

    method CreateDNSZoneWithSettings(z: Zone, settings: Settings, io: Io) returns (res: Result<int, Error>)
      modifies this
      ensures (Tables(), res) == CreateZone(old(Tables()), z, settings, io)
    {
      var domain := Lower(Trim(z.domain));
      var verdict := ValidateDomain(domain);
      if verdict != Accepted { return Err(InvalidDomain(verdict)); }
      var row := WithDefaults(z.(domain := domain)).(id := nextZone);
      if !io.begin { return Err(IoFailure); }
      if exists x :: x in zones && x.domain == domain { return Err(AlreadyRegistered); }
      if !io.exec { return Err(IoFailure); }
      var txRecords, txNext := records, nextRecord;
      if settings.ns1 != "" {
        txRecords := txRecords + [Record(txNext, row.id, "@", "NS", settings.ns1, 3600, 0)];
        txNext := txNext + 1;
        if !io.next { return Err(IoFailure); }
      }
      if settings.ns2 != "" {
        txRecords := txRecords + [Record(txNext, row.id, "@", "NS", settings.ns2, 3600, 0)];
        txNext := txNext + 1;
        if !io.last { return Err(IoFailure); }
      }
      if !io.commit { return Err(IoFailure); }
      zones, nextZone := zones + [row], nextZone + 1;
      records, nextRecord := txRecords, txNext;
      return Ok(row.id);
    }

    method DeleteDNSZone(name: string, io: Io) returns (err: Option<Error>)
      modifies this
      ensures (Tables(), err) == DeleteZone(old(Tables()), name, io)
    {
      var domain := Lower(Trim(name));
      if !io.begin { return Some(IoFailure); }
      var txRecords := Where(records, NotOfZones(IdsOf(zones, domain)));
      if !io.exec { return Some(IoFailure); }
      var affected := exists z :: z in zones && z.domain == domain;
      var txZones := Where(zones, NotNamed(domain));
      if !io.next { return Some(IoFailure); }
      if !affected { return Some(NotFound); }
      if !io.commit { return Some(IoFailure); }
      records, zones := txRecords, txZones;
      return None;
    }

    /** The zone that manages a domain and the domain's label inside it. */
    method FindDNSZoneForDomain(name: string, listed: bool) returns (found: Option<(Zone, string)>)
      ensures var domain := Lower(Trim(name));
              found == if !listed || ZoneFor(zones, domain).None? then None
                       else Some((ZoneFor(zones, domain).value, LabelIn(ZoneFor(zones, domain).value.domain, domain)))
    {
      var domain := Lower(Trim(name));
      if !listed { return None; }
      var best: Option<Zone> := None;
      for i := 0 to |zones|
        invariant best == ZoneFor(zones[..i], domain)
      {
        assert zones[..i + 1][..i] == zones[..i];
        var apex := zones[i].domain;
        if domain != apex && !HasSuffix(domain, "." + apex) {
          continue;
        }
        if best.None? || |apex| > |best.value.domain| {
          best := Some(zones[i]);
        }
      }
      assert zones[..|zones|] == zones;
      if best.None? { return None; }
      var owner := "@";
      if domain != best.value.domain {
        owner := TrimSuffix(domain, "." + best.value.domain);
      }
      return Some((best.value, owner));
    }

    /** All zones by domain, all records grouped by zone and ordered by name and type, and the settings; None for
        settings that cannot be read. */
    method AllDNSData(settings: Option<Settings>, listed: bool, queried: bool) returns (data: Option<DnsData>)
      ensures data.Some? <==> listed && queried && settings.Some?
      ensures data.Some? ==>
                && data.value.zones == ZonesByDomain(zones)
                && GroupedByZone(data.value.recs, RowsInOrder(records))
                && settings == Some(data.value.settings)
    {
      if !listed || !queried { return None; }
      var recs := GroupByZone(RowsInOrder(records));
      if settings.None? { return None; }
      return Some(DnsData(ZonesByDomain(zones), recs, settings.value));
    }
  }

  datatype DnsData = DnsData(zones: seq<Zone>, recs: map<int, seq<Record>>, settings: Settings)

  method GroupByZone(rows: seq<Record>) returns (recs: map<int, seq<Record>>)
    ensures GroupedByZone(recs, rows)
  {
    recs := map[];
    for i := 0 to |rows|
      invariant GroupedByZone(recs, rows[..i])
    {
      var r := rows[i];
      assert rows[..i + 1] == rows[..i] + [r];
      GroupOneMore(recs, rows[..i], r);
      recs := recs[r.zoneID := (if r.zoneID in recs then recs[r.zoneID] else []) + [r]];
    }
    assert rows[..|rows|] == rows;
  }

  // ---- The order of the rows handed out ----

  function ApexOf(z: Zone): string { z.domain }

  function ZonesByDomain(zones: seq<Zone>): seq<Zone> {
    Sort(zones, ByText(ApexOf))
  }

  /** By zone, then name, then type. */
  function RowOrder(): (Record, Record) -> bool {
    (x: Record, y: Record) =>
      if x.zoneID != y.zoneID then x.zoneID < y.zoneID
      else if x.name != y.name then AtMost(x.name, y.name)
      else AtMost(x.rtype, y.rtype)
  }

  function RowsInOrder(records: seq<Record>): seq<Record> {
    Sort(records, RowOrder())
  }

  lemma RowOrderIsTotal()
    ensures TotalPreorder(RowOrder())
  {
    hide AtMost;
    var le := RowOrder();
    forall x, y ensures le(x, y) || le(y, x) {
      AtMostIsTotal(x.name, y.name);
      AtMostIsTotal(x.rtype, y.rtype);
    }
    forall x, y, z | le(x, y) && le(y, z) ensures le(x, z) {
      if AtMost(x.name, y.name) && AtMost(y.name, z.name) {
        AtMostIsTransitive(x.name, y.name, z.name);
        AtMostIsTotal(x.name, y.name);
      }
      if AtMost(x.rtype, y.rtype) && AtMost(y.rtype, z.rtype) { AtMostIsTransitive(x.rtype, y.rtype, z.rtype); }
    }
  }

  lemma {:induction false} WhereKeepsOrder<T(!new)>(s: seq<T>, p: T -> bool, le: (T, T) -> bool)
    requires Ordered(s, le)
    ensures Ordered(Where(s, p), le)
  {
    if s != [] {
      var t := s[..|s| - 1];
      WhereKeepsOrder(t, p, le);
      forall i | 0 <= i < |Where(t, p)| ensures le(Where(t, p)[i], s[|s| - 1]) {
        assert Where(t, p)[i] in t;
      }
    }
  }

  /** Each zone's rows are handed out by name and type, none lost and none twice. */
  lemma RowsOfZoneInOrder(records: seq<Record>, id: int)
    ensures var rows := Where(RowsInOrder(records), OfZone(id));
            && multiset(rows) == multiset(Where(records, OfZone(id)))
            && forall i, j :: 0 <= i < j < |rows| ==>
                 AtMost(rows[i].name, rows[j].name)
                   && (rows[i].name == rows[j].name ==> AtMost(rows[i].rtype, rows[j].rtype))
  {
    RowOrderIsTotal();
    SortOrders(records, RowOrder());
    SortPermutes(records, RowOrder());
    WhereKeepsOrder(RowsInOrder(records), OfZone(id), RowOrder());
    hide Where;
    var rows := Where(RowsInOrder(records), OfZone(id));
    forall x ensures multiset(rows)[x] == multiset(Where(records, OfZone(id)))[x] {
      WhereCounts(RowsInOrder(records), OfZone(id), x);
      WhereCounts(records, OfZone(id), x);
    }
    forall i, j | 0 <= i < j < |rows|
      ensures AtMost(rows[i].name, rows[j].name)
      ensures rows[i].name == rows[j].name ==> AtMost(rows[i].rtype, rows[j].rtype)
    {
      assert rows[i] in rows && rows[j] in rows && RowOrder()(rows[i], rows[j]);
    }
  }

  lemma ZonesInOrder(zones: seq<Zone>)
    ensures var sorted := ZonesByDomain(zones);
            && multiset(sorted) == multiset(zones)
            && forall i, j :: 0 <= i < j < |sorted| ==> AtMost(sorted[i].domain, sorted[j].domain)
  {
    ByTextIsTotal(ApexOf);
    SortOrders(zones, ByText(ApexOf));
    SortPermutes(zones, ByText(ApexOf));
    hide AtMost, Sort;
    var sorted := ZonesByDomain(zones);
    assert Ordered(sorted, ByText(ApexOf));
    forall i, j | 0 <= i < j < |sorted| ensures AtMost(sorted[i].domain, sorted[j].domain) {
      assert ByText(ApexOf)(sorted[i], sorted[j]) == AtMost(ApexOf(sorted[i]), ApexOf(sorted[j]));
    }
  }

  /** Sorting neither adds nor drops zones or rows. */
  lemma SameRows(zones: seq<Zone>, records: seq<Record>)
    ensures forall z :: z in ZonesByDomain(zones) <==> z in zones
    ensures forall r :: r in RowsInOrder(records) <==> r in records
  {
    SortPermutes(zones, ByText(ApexOf));
    SortPermutes(records, RowOrder());
  }

  ghost predicate GroupedByZone(recs: map<int, seq<Record>>, rows: seq<Record>) {
    && (forall id :: id in recs <==> Where(rows, OfZone(id)) != [])
    && (forall id :: id in recs ==> recs[id] == Where(rows, OfZone(id)))
  }

  lemma GroupOneMore(recs: map<int, seq<Record>>, rows: seq<Record>, r: Record)
    requires GroupedByZone(recs, rows)
    ensures GroupedByZone(recs[r.zoneID := (if r.zoneID in recs then recs[r.zoneID] else []) + [r]], rows + [r])
  {
    forall id ensures Where(rows + [r], OfZone(id)) ==
                      if r.zoneID == id then Where(rows, OfZone(id)) + [r] else Where(rows, OfZone(id)) {
      WhereAppend(rows, r, OfZone(id));
    }
    hide Where;
  }

  lemma {:induction false} NothingDeleted<T(!new)>(s: seq<T>, p: T -> bool)
    ensures |Where(s, p)| == |s| ==> Where(s, p) == s
  {
    if s != [] {
      NothingDeleted(s[..|s| - 1], p);
      assert s == s[..|s| - 1] + [s[|s| - 1]];
    }
  }

  // ---- The zone found is the unique longest match ----

  ghost predicate DistinctDomains(zones: seq<Zone>) {
    forall i, j :: 0 <= i < j < |zones| ==> zones[i].domain != zones[j].domain && zones[i].id != zones[j].id
  }

  /** `z` covers the domain and every other covering zone has a shorter apex. */
  ghost predicate IsLongestCover(zones: seq<Zone>, domain: string, z: Zone) {
    && z in zones && Covers(z.domain, domain)
    && forall x :: x in zones && Covers(x.domain, domain) && x != z ==> |x.domain| < |z.domain|
  }

  lemma CoverOfLength(apex: string, other: string, domain: string)
    requires Covers(apex, domain) && Covers(other, domain) && |apex| == |other|
    ensures apex == other
  {
    assert domain[|domain| - |apex|..] == apex by {
      if domain != apex { assert ("." + apex)[1..] == apex; }
    }
    assert domain[|domain| - |other|..] == other by {
      if domain != other { assert ("." + other)[1..] == other; }
    }
  }

  lemma {:induction false} ZoneForIsLongestCover(zones: seq<Zone>, domain: string)
    requires DistinctDomains(zones)
    ensures ZoneFor(zones, domain).None? <==> forall z :: z in zones ==> !Covers(z.domain, domain)
    ensures forall z :: ZoneFor(zones, domain) == Some(z) <==> IsLongestCover(zones, domain, z)
  {
    if zones != [] {
      var z, rest := zones[|zones| - 1], zones[..|zones| - 1];
      ZoneForIsLongestCover(rest, domain);
      assert zones == rest + [z];
      forall x | x in rest && Covers(x.domain, domain) && Covers(z.domain, domain)
        ensures |x.domain| != |z.domain|
      {
        if |x.domain| == |z.domain| { CoverOfLength(x.domain, z.domain, domain); }
      }
      var best := ZoneFor(zones, domain);
      if best.Some? {
        assert IsLongestCover(zones, domain, best.value);
      }
    }
  }
}
