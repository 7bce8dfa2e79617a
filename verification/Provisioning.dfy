/** internal/api/dns.go: adding A and AAAA records for a domain, and what the name server then answers. */
module Provisioning {
  import opened Wrappers
  import opened Strings
  import opened Domains
  import opened Rows
  import opened DnsStore
  import opened DnsSerial
  import opened DnsZones
  import opened DnsHandler

  function AddressRecord(zoneID: int, host: string, rtype: string, ip: string): Record {
    Record(0, zoneID, host, rtype, ip, 300, 0)
  }

  function FamilyOf(a: Address): string {
    if a.V4? then "A" else "AAAA"
  }

  /** One configured address: nothing for blanks and unparsable text, else an insert if absent. */
  function ProvisionOne(db: Db, codec: Codec, zoneID: int, host: string, raw: string, attempt: Attempt): (Db, bool) {
    var ip := Trim(raw);
    if ip == "" || codec.parseIP(ip).None? then (db, false)
    else
      var r := AddressRecord(zoneID, host, FamilyOf(codec.parseIP(ip).value), ip);
      var (db', added, err) := AddIfAbsent(db, r, attempt.query, attempt.io);
      (db', added && err.None?)
  }

  function ProvisionAll(db: Db, codec: Codec, zoneID: int, host: string, raws: seq<string>,
                        attempts: nat -> Attempt): (Db, bool) {
    if raws == [] then (db, false)
    else
      var n := |raws| - 1;
      var (before, any) := ProvisionAll(db, codec, zoneID, host, raws[..n], attempts);
      var (after, added) := ProvisionOne(before, codec, zoneID, host, raws[n], attempts(n));
      (after, any || added)
  }

  lemma NothingConfigured(db: Db, codec: Codec, zoneID: int, host: string, attempts: nat -> Attempt)
    ensures ProvisionAll(db, codec, zoneID, host, Split("", ','), attempts) == (db, false)
  {
    hide AddIfAbsent;
    var raws := Split("", ',');
    assert raws == [""] && raws[..0] == [] && Trim("") == "";
  }

  method ProvisionZoneRecords(store: Store, codec: Codec, publicIP: string, zone: Zone, host: string,
                              attempts: nat -> Attempt)
      returns (reload: bool)
    modifies store
    ensures (store.Tables(), reload) ==
            ProvisionAll(old(store.Tables()), codec, zone.id, host, Split(publicIP, ','), attempts)
  {
    hide AddIfAbsent, Trim;
    var raws := Split(publicIP, ',');
    if publicIP == "" {
      NothingConfigured(store.Tables(), codec, zone.id, host, attempts);
      return false;
    }
    hide Split;
    reload := false;
    for i := 0 to |raws|
      invariant (store.Tables(), reload) == ProvisionAll(old(store.Tables()), codec, zone.id, host, raws[..i], attempts)
    {
      assert raws[..i + 1][..i] == raws[..i];
      var ip := Trim(raws[i]);
      if ip == "" {
        continue;
      }
      var parsed := codec.parseIP(ip);
      if parsed.None? {
        continue;
      }
      var rtype := "AAAA";
      if parsed.value.V4? {
        rtype := "A";
      }
      var row := Record(0, zone.id, host, rtype, ip, 300, 0);
      var added, err := store.AddDNSRecordIfAbsent(row, attempts(i).query, attempts(i).io);
      if err.Some? {
        continue;
      }
      if added {
        reload := true;
      }
    }
    assert raws[..|raws|] == raws;
  }

  function AutoProvision(db: Db, codec: Codec, publicIP: string, mayAccess: Zone -> bool, name: string,
                         attempts: nat -> Attempt): (Db, bool) {
    var domain := Lower(Trim(name));
    match ZoneFor(db.zones, domain)
    case None => (db, false)
    case Some(z) =>
      if !mayAccess(z) then (db, false)
      else ProvisionAll(db, codec, z.id, LabelIn(z.domain, domain), Split(publicIP, ','), attempts)
  }

  method AutoProvisionDNS(store: Store, codec: Codec, publicIP: string, mayAccess: Zone -> bool, name: string,
                          listed: bool,
                          attempts: nat -> Attempt) returns (reload: bool)
    modifies store
    ensures (store.Tables(), reload) ==
            if listed then AutoProvision(old(store.Tables()), codec, publicIP, mayAccess, name, attempts)
              else (old(store.Tables()), false)
  {
    var found := store.FindDNSZoneForDomain(name, listed);
    if found.None? || !mayAccess(found.value.0) {
      return false;
    }
    reload := ProvisionZoneRecords(store, codec, publicIP, found.value.0, found.value.1, attempts);
  }

  // ---- What provisioning leaves alone ----

  /** The same zones under the same ids, serials aside; rows are only added. */
  ghost predicate Extends(db: Db, db': Db) {
    && |db.zones| == |db'.zones|
    && (forall i :: 0 <= i < |db.zones| ==>
       db'.zones[i].id == db.zones[i].id && db'.zones[i].domain == db.zones[i].domain)
    && db.records <= db'.records
  }

  lemma AddIfAbsentExtends(db: Db, r: Record, attempt: Attempt)
    requires DnsSerial.Sound(db)
    ensures var db' := AddIfAbsent(db, r, attempt.query, attempt.io).0; DnsSerial.Sound(db') && Extends(db, db')
  {
    hide Sound;
    ApplyKeepsSound(db, AddAbsent(r, attempt.query, attempt.io));
    BumpKeepsRows(db.zones, Canonical(Canonical(r)).zoneID);
  }

  lemma {:induction false} ProvisionExtends(db: Db, codec: Codec, zoneID: int, host: string, raws: seq<string>,
                                            attempts: nat -> Attempt)
    requires DnsSerial.Sound(db)
    ensures var db' := ProvisionAll(db, codec, zoneID, host, raws, attempts).0; DnsSerial.Sound(db') && Extends(db, db')
  {
    hide Sound, AddIfAbsent;
    if raws != [] {
      var n := |raws| - 1;
      var before := ProvisionAll(db, codec, zoneID, host, raws[..n], attempts).0;
      ProvisionExtends(db, codec, zoneID, host, raws[..n], attempts);
      var ip := Trim(raws[n]);
      if ip != "" && codec.parseIP(ip).Some? {
        AddIfAbsentExtends(before, AddressRecord(zoneID, host, FamilyOf(codec.parseIP(ip).value), ip), attempts(n));
      }
    }
  }

  lemma {:induction false} ZoneForSameDomains(zones: seq<Zone>, zones': seq<Zone>, domain: string)
    requires |zones| == |zones'|
    requires forall i :: 0 <= i < |zones| ==> zones'[i].id == zones[i].id && zones'[i].domain == zones[i].domain
    ensures ZoneFor(zones, domain).Some? <==> ZoneFor(zones', domain).Some?
    ensures ZoneFor(zones, domain).Some? ==>
              ZoneFor(zones', domain).value.id == ZoneFor(zones, domain).value.id &&
              ZoneFor(zones', domain).value.domain == ZoneFor(zones, domain).value.domain
  {
    hide Covers;
    if zones != [] {
      var n := |zones| - 1;
      ZoneForSameDomains(zones[..n], zones'[..n], domain);
    }
  }

  /** A reload is asked for exactly if records were added. */
  lemma {:induction false} ReloadIff(db: Db, codec: Codec, zoneID: int, host: string, raws: seq<string>,
                                     attempts: nat -> Attempt)
    ensures var (db', reload) := ProvisionAll(db, codec, zoneID, host, raws, attempts);
            |db'.records| >= |db.records| && (reload <==> |db'.records| > |db.records|)
    decreases |raws|
  {
    hide Lower, Upper, Trim;
    if raws != [] {
      ReloadIff(db, codec, zoneID, host, raws[..|raws| - 1], attempts);
    }
  }

  /** Nothing else is added: every new row is a configured address under the host, of the address's family, with a ttl
      of 300 seconds and no priority. */
  ghost predicate NewRow(codec: Codec, zoneID: int, host: string, raws: seq<string>, r: Record) {
    && r.zoneID == zoneID && r.name == Lower(Trim(host)) && r.ttl == 300 && r.priority == 0
    && codec.parseIP(r.value).Some?
    && r.rtype == (if codec.parseIP(r.value).value.V4? then "A" else "AAAA")
    && exists i :: 0 <= i < |raws| && r.value == Trim(raws[i])
  }

  lemma FamilyIsUpper(a: Address)
    ensures Upper(Trim(FamilyOf(a))) == if a.V4? then "A" else "AAAA"
  {
  }

  lemma NewRowStays(codec: Codec, zoneID: int, host: string, raws: seq<string>, r: Record)
    requires raws != [] && NewRow(codec, zoneID, host, raws[..|raws| - 1], r)
    ensures NewRow(codec, zoneID, host, raws, r)
  {
    hide Lower, Trim;
    var i :| 0 <= i < |raws| - 1 && r.value == Trim(raws[..|raws| - 1][i]);
    assert r.value == Trim(raws[i]);
  }

  lemma AddedIsNew(db: Db, codec: Codec, zoneID: int, host: string, raws: seq<string>, attempt: Attempt, r: Record)
    requires raws != []
    requires r in ProvisionOne(db, codec, zoneID, host, raws[|raws| - 1], attempt).0.records && r !in db.records
    ensures NewRow(codec, zoneID, host, raws, r)
  {
    hide Lower, Upper, Trim;
    var ip := Trim(raws[|raws| - 1]);
    FamilyIsUpper(codec.parseIP(ip).value);
    LowerTrim(host);
    UpperTrim(FamilyOf(codec.parseIP(ip).value));
  }

  lemma {:induction false} ProvisionAddsOnly(db: Db, codec: Codec, zoneID: int, host: string, raws: seq<string>,
                                             attempts: nat -> Attempt)
    ensures forall r :: r in ProvisionAll(db, codec, zoneID, host, raws, attempts).0.records ==>
              r in db.records || NewRow(codec, zoneID, host, raws, r)
    decreases |raws|
  {
    hide NewRow, ProvisionOne;
    if raws != [] {
      var n := |raws| - 1;
      var before := ProvisionAll(db, codec, zoneID, host, raws[..n], attempts).0;
      ProvisionAddsOnly(db, codec, zoneID, host, raws[..n], attempts);
      forall r | r in ProvisionAll(db, codec, zoneID, host, raws, attempts).0.records
        ensures r in db.records || NewRow(codec, zoneID, host, raws, r)
      {
        if r !in before.records {
          AddedIsNew(before, codec, zoneID, host, raws, attempts(n), r);
        } else if r !in db.records {
          NewRowStays(codec, zoneID, host, raws, r);
        }
      }
    }
  }

  // ---- Provisioned means stored ----

  predicate Stored(db: Db, zoneID: int, host: string, rtype: string, ip: string) {
    exists r :: r in db.records && Same(r, zoneID, host, rtype, ip)
  }

  lemma StoredStays(db: Db, db': Db, zoneID: int, host: string, rtype: string, ip: string)
    requires Extends(db, db') && Stored(db, zoneID, host, rtype, ip)
    ensures Stored(db', zoneID, host, rtype, ip)
  {
    var r :| r in db.records && Same(r, zoneID, host, rtype, ip);
    assert r in db'.records;
  }

  predicate Succeeds(attempt: Attempt) {
    attempt.query && attempt.io == Io(true, true, true, true, true)
  }

  /** A record that canonicalisation leaves as it is ends up in the table. */
  lemma AddedIsStored(db: Db, r: Record, attempt: Attempt)
    requires Succeeds(attempt) && Canonical(r) == r
    ensures Stored(AddIfAbsent(db, r, attempt.query, attempt.io).0, r.zoneID, r.name, r.rtype, r.value)
  {
    var db' := AddIfAbsent(db, r, attempt.query, attempt.io).0;
    if !Present(db, r) {
      var row := db'.records[|db.records|];
      assert row in db'.records && Same(row, r.zoneID, r.name, r.rtype, r.value);
    }
  }

  lemma CanonicalFamily(a: Address)
    ensures Upper(Trim(FamilyOf(a))) == FamilyOf(a)
  {
  }

  lemma {:induction false} ProvisionedIsStored(db: Db, codec: Codec, zoneID: int, host: string, raws: seq<string>,
                                               attempts: nat -> Attempt, i: nat, a: Address)
    requires DnsSerial.Sound(db) && Lower(Trim(host)) == host
    requires i < |raws| && Trim(raws[i]) != "" && codec.parseIP(Trim(raws[i])) == Some(a) && Succeeds(attempts(i))
    ensures Stored(ProvisionAll(db, codec, zoneID, host, raws, attempts).0, zoneID, host, FamilyOf(a), Trim(raws[i]))
    decreases |raws|
  {
    hide Sound, AddIfAbsent, Stored;
    var n := |raws| - 1;
    var before := ProvisionAll(db, codec, zoneID, host, raws[..n], attempts).0;
    var after := ProvisionAll(db, codec, zoneID, host, raws, attempts).0;
    ProvisionExtends(db, codec, zoneID, host, raws[..n], attempts);
    if i == n {
      CanonicalFamily(a);
      AddedIsStored(before, AddressRecord(zoneID, host, FamilyOf(a), Trim(raws[i])), attempts(i));
    } else {
      ProvisionedIsStored(db, codec, zoneID, host, raws[..n], attempts, i, a);
      var ip := Trim(raws[n]);
      if ip != "" && codec.parseIP(ip).Some? {
        AddIfAbsentExtends(before, AddressRecord(zoneID, host, FamilyOf(codec.parseIP(ip).value), ip), attempts(n));
        StoredStays(before, after, zoneID, host, FamilyOf(a), Trim(raws[i]));
      }
    }
  }

  // ---- Stored means served ----

  function TypeOf(a: Address): int {
    if a.V4? then TYPE_A else TYPE_AAAA
  }

  predicate AnswersWith(m: Msg, owner: string, a: Address) {
    m.rcode == NOERROR &&
    exists i :: 0 <= i < |m.answer| && m.answer[i] == RR(owner, TypeOf(a), m.answer[i].ttl, Addr(a))
  }

  /** A stored address row under a name is among the answers for that name and family. */
  lemma StoredIsAnswered(codec: Codec, z: Zone, rows: seq<Record>, settings: Settings, qname: string, edns: bool,
                         r: Record, a: Address)
    requires r in rows && OwnerName(r.name, z.domain) == qname
    requires r.rtype == FamilyOf(a) && codec.parseIP(r.value) == Some(a)
    ensures var m := ScanReply(codec, z, rows, settings, qname, TypeOf(a), edns);
            AnswersWith(m, qname, a)
  {
    var rr := RR(qname, TypeOf(a), Uint32(r.ttl), Addr(a));
    assert ToRR(codec, qname, r) == Some(rr);
    hide ToRR, OwnerName;
    assert r in Where(rows, OwnedBy(z.domain, qname));
    assert r in Scan(z, rows, qname);
    assert Renders(codec, qname, r, TypeOf(a));
    ScanAnswersIff(codec, z, rows, settings, qname, TypeOf(a), edns, rr);
    ScanAuthorityIffNegative(codec, z, rows, settings, qname, TypeOf(a), edns);
    var m := ScanReply(codec, z, rows, settings, qname, TypeOf(a), edns);
    var i :| 0 <= i < |m.answer| && m.answer[i] == rr;
  }

  /** The label of a valid domain is stored as it is. */
  lemma LabelIsCanonical(apex: string, domain: string)
    requires Valid(domain) && Covers(apex, domain)
    ensures Lower(Trim(LabelIn(apex, domain))) == LabelIn(apex, domain)
  {
    ValidFacts(domain);
    hide Valid;
    var host := LabelIn(apex, domain);
    if domain != apex {
      assert domain == host + ("." + apex);
      assert forall i :: 0 <= i < |host| ==> host[i] == domain[i];
      LowerIsIdentity(host);
    }
    assert NoSpaces(host) && IsLower(host);
  }

  /** After provisioning, the domain's zone is still found and holds a row for the address. */
  lemma ProvisionedRow(db: Db, codec: Codec, publicIP: string, mayAccess: Zone -> bool, domain: string,
                       attempts: nat -> Attempt,
                       i: nat, a: Address) returns (z: Zone, r: Record)
    requires DnsSerial.Sound(db) && Valid(domain)
    requires ZoneFor(db.zones, domain).Some? && mayAccess(ZoneFor(db.zones, domain).value)
    requires var raws := Split(publicIP, ',');
             i < |raws| && Trim(raws[i]) != "" && codec.parseIP(Trim(raws[i])) == Some(a) && Succeeds(attempts(i))
    ensures var db' := AutoProvision(db, codec, publicIP, mayAccess, domain, attempts).0;
            DnsSerial.Sound(db') && ZoneFor(db'.zones, domain) == Some(z) && r in db'.records && r.zoneID == z.id
    ensures Covers(z.domain, domain) && Valid(z.domain) && r.name == LabelIn(z.domain, domain)
    ensures r.rtype == FamilyOf(a) && codec.parseIP(r.value) == Some(a)
  {
    ValidFacts(domain);
    hide Valid, Split, Trim, Lower, ProvisionAll, Covers, LabelIn;
    var raws := Split(publicIP, ',');
    var before := ZoneFor(db.zones, domain).value;
    var host := LabelIn(before.domain, domain);
    var db' := ProvisionAll(db, codec, before.id, host, raws, attempts).0;
    ZoneForIsLongestCover(db.zones, domain);
    assert IsLongestCover(db.zones, domain, before);
    ProvisionExtends(db, codec, before.id, host, raws, attempts);
    LabelIsCanonical(before.domain, domain);
    ProvisionedIsStored(db, codec, before.id, host, raws, attempts, i, a);
    ZoneForSameDomains(db.zones, db'.zones, domain);
    z := ZoneFor(db'.zones, domain).value;
    r :| r in db'.records && Same(r, before.id, host, FamilyOf(a), Trim(raws[i]));
  }

  lemma RowIsGrouped(recs: map<int, seq<Record>>, rows: seq<Record>, r: Record)
    requires GroupedByZone(recs, rows) && r in rows
    ensures r in RowsOf(recs, r.zoneID)
  {
    assert r in Where(rows, OfZone(r.zoneID));
  }

  /** Scanning the domain's zone for the domain finds its row. */
  lemma RowIsScanned(db: Db, codec: Codec, domain: string, z: Zone, r: Record, a: Address,
                     recs: map<int, seq<Record>>, settings: Settings, edns: bool)
    requires Valid(domain) && Covers(z.domain, domain) && Valid(z.domain)
    requires r in db.records && r.zoneID == z.id && r.name == LabelIn(z.domain, domain)
    requires r.rtype == FamilyOf(a) && codec.parseIP(r.value) == Some(a)
    requires GroupedByZone(recs, RowsInOrder(db.records))
    ensures var m := ScanReply(codec, z, RowsOf(recs, z.id), settings, domain + ".", TypeOf(a), edns);
            AnswersWith(m, domain + ".", a)
  {
    ValidFacts(domain);
    ValidFacts(z.domain);
    hide Valid, ScanReply, Covers, LabelIn, OwnerName, AnswersWith;
    SameRows(db.zones, db.records);
    RowIsGrouped(recs, RowsInOrder(db.records), r);
    hide GroupedByZone;
    LabelRoundTrip(z.domain, domain);
    StoredIsAnswered(codec, z, RowsOf(recs, z.id), settings, domain + ".", edns, r, a);
  }

  lemma QuestionName(domain: string, qtype: int)
    requires Valid(domain)
    ensures QName([Question(domain, qtype, true)]) == domain + "." && Chop(domain + ".") == domain
  {
    ValidFacts(domain);
    hide Valid;
    LowerConcat(domain, ".");
    assert Lower(".") == ".";
  }

  /** A row for the domain in the domain's zone is served. */
  lemma RowIsServed(db: Db, codec: Codec, domain: string, z: Zone, r: Record, a: Address,
                    snap: Snapshot, recs: map<int, seq<Record>>, settings: Settings, edns: bool)
    requires ProperZones(db.zones) && Valid(domain) && ZoneFor(db.zones, domain) == Some(z)
    requires Covers(z.domain, domain) && Valid(z.domain)
    requires r in db.records && r.zoneID == z.id && r.name == LabelIn(z.domain, domain)
    requires r.rtype == FamilyOf(a) && codec.parseIP(r.value) == Some(a)
    requires GroupedByZone(recs, RowsInOrder(db.records)) && IsSnapshot(snap, db.zones, recs, settings)
    ensures var questions := [Question(domain, TypeOf(a), true)];
            Hosted(snap, questions) && AnswersWith(ReplyOver(codec, snap, questions, edns), domain + ".", a)
  {
    hide Valid, ZoneReply, ScanReply, IsSnapshot, GroupedByZone, Covers, LabelIn, ZoneFor, AnswersWith, QName, Hosted,
         FindIn,
         ProperZones, RowsOf, Chop;
    var questions := [Question(domain, TypeOf(a), true)];
    QuestionName(domain, TypeOf(a));
    RowIsScanned(db, codec, domain, z, r, a, recs, settings, edns);
    IndexAnswersLikeScan(codec, snap, db.zones, recs, settings, questions, edns);
  }

  /** After provisioning a valid domain in an accessible zone and rebuilding the index, a query for the domain
      that the limiter lets through is answered NOERROR with every configured address of the asked family whose
      insert did not fail. */
  lemma ProvisionedIsServed(db: Db, codec: Codec, publicIP: string, mayAccess: Zone -> bool, domain: string,
                            attempts: nat -> Attempt,
                            snap: Snapshot, recs: map<int, seq<Record>>, settings: Settings, edns: bool,
                            i: nat, a: Address)
    requires DnsSerial.Sound(db) && Valid(domain)
    requires ZoneFor(db.zones, domain).Some? && mayAccess(ZoneFor(db.zones, domain).value)
    requires var db' := AutoProvision(db, codec, publicIP, mayAccess, domain, attempts).0;
             GroupedByZone(recs, RowsInOrder(db'.records)) && IsSnapshot(snap, db'.zones, recs, settings)
    requires var raws := Split(publicIP, ',');
             i < |raws| && Trim(raws[i]) != "" && codec.parseIP(Trim(raws[i])) == Some(a) && Succeeds(attempts(i))
    ensures var questions := [Question(domain, TypeOf(a), true)];
            Hosted(snap, questions) && AnswersWith(ReplyOver(codec, snap, questions, edns), domain + ".", a)
  {
    hide Hosted, ReplyOver, AnswersWith, AutoProvision, IsSnapshot, GroupedByZone, Split, Trim, Covers, LabelIn, Valid;
    var db' := AutoProvision(db, codec, publicIP, mayAccess, domain, attempts).0;
    var z, r := ProvisionedRow(db, codec, publicIP, mayAccess, domain, attempts, i, a);
    RowIsServed(db', codec, domain, z, r, a, snap, recs, settings, edns);
  }
}
