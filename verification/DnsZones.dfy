/** internal/dns/zones.go: the in-memory index of the tables, and the search in it. */
module DnsZones {
  import opened Wrappers
  import opened Strings
  import opened Domains
  import opened Rows
  import opened DnsStore
  import Sorting

  // ---- Resource records ----

  const TYPE_A := 1
  const TYPE_NS := 2
  const TYPE_CNAME := 5
  const TYPE_SOA := 6
  const TYPE_HINFO := 13
  const TYPE_MX := 15
  const TYPE_TXT := 16
  const TYPE_AAAA := 28
  const TYPE_ANY := 255
  const TYPE_CAA := 257

  /** A parsed address; V4 also stands for the IPv4-mapped IPv6 forms. */
  datatype Address = V4(octets: seq<int>) | V6(octets: seq<int>)

  datatype CaaValue = CaaValue(flag: int, tag: string, value: string)

  /** The text parsers the source takes from libraries: any partial functions. */
  datatype Codec = Codec(parseIP: string -> Option<Address>, parseCAA: string -> Option<CaaValue>)

  datatype Data =
    | Addr(address: Address)
    | Host(name: string)
    | Exchange(preference: int, name: string)
    | Text(text: string)
    | Caa(caa: CaaValue)
    | Authority(ns: string, mbox: string, serial: int, refresh: int, retry: int, expire: int, minttl: int)
    | Info(cpu: string, os: string)

  datatype RR = RR(name: string, rrtype: int, ttl: int, data: Data)

  function Uint32(n: int): int { n % 0x1_0000_0000 }

  function Uint16(n: int): int { n % 0x1_0000 }

  function ToRR(codec: Codec, owner: string, r: Record): Option<RR> {
    var ttl := Uint32(r.ttl);
    if r.rtype == "A" then
      match codec.parseIP(r.value)
      case Some(V4(o)) => Some(RR(owner, TYPE_A, ttl, Addr(V4(o))))
      case _ => None
    else if r.rtype == "AAAA" then
      match codec.parseIP(r.value)
      case Some(V6(o)) => Some(RR(owner, TYPE_AAAA, ttl, Addr(V6(o))))
      case _ => None
    else if r.rtype == "CNAME" then Some(RR(owner, TYPE_CNAME, ttl, Host(Fqdn(r.value))))
    else if r.rtype == "MX" then Some(RR(owner, TYPE_MX, ttl, Exchange(Uint16(r.priority), Fqdn(r.value))))
    else if r.rtype == "TXT" then Some(RR(owner, TYPE_TXT, ttl, Text(r.value)))
    else if r.rtype == "NS" then Some(RR(owner, TYPE_NS, ttl, Host(Fqdn(r.value))))
    else if r.rtype == "CAA" then
      match codec.parseCAA(r.value)
      case Some(caa) => if 0 <= caa.flag <= 255 then Some(RR(owner, TYPE_CAA, ttl, Caa(caa))) else None
      case None => None
    else None
  }

  /** The records of one type, rendered with the owner name asked for. */
  function Typed(codec: Codec, owner: string, recs: seq<Record>, qtype: int): seq<RR> {
    if recs == [] then []
    else
      var rest := Typed(codec, owner, recs[..|recs| - 1], qtype);
      match ToRR(codec, owner, recs[|recs| - 1])
      case Some(rr) => if qtype == TYPE_ANY || rr.rrtype == qtype then rest + [rr] else rest
      case None => rest
  }

  // ---- A zone as it is served ----

  datatype ServedZone = ServedZone(apex: string, serial: int, refresh: int, retry: int, expire: int, minimum: int,
                                   settings: Settings, records: map<string, seq<Record>>)

  function OwnerName(name: string, apex: string): string {
    if name == "@" then Fqdn(apex)
    else if name == "*" then "*." + Fqdn(apex)
    else Fqdn(Lower(name) + "." + apex)
  }

  function OwnedBy(apex: string, owner: string): Record -> bool {
    (r: Record) => OwnerName(r.name, apex) == owner
  }

  function EscapeDots(s: string): string {
    if s == "" then ""
    else (if s[0] == '.' then ['\\', '.'] else [s[0]]) + EscapeDots(s[1..])
  }

  function Mailbox(hostmaster: string, apexFQDN: string): string {
    if hostmaster == "" then "hostmaster." + apexFQDN
    else
      var mbox := Fqdn(hostmaster);
      var at := Index(mbox, '@');
      if at >= 0 then EscapeDots(mbox[..at]) + "." + mbox[at + 1..] else mbox
  }

  lemma {:induction false} NothingToEscape(s: string)
    requires '.' !in s
    ensures EscapeDots(s) == s
  {
    if s != "" {
      NothingToEscape(s[1..]);
      assert s == [s[0]] + s[1..];
    }
  }

  lemma {:induction false} EscapeDotsIs(a: string, b: string)
    requires '.' !in a
    ensures EscapeDots(a + "." + b) == a + "\\." + EscapeDots(b)
    decreases |a|
  {
    var s := a + "." + b;
    if a == "" {
      assert s[1..] == b;
    } else {
      EscapeDotsIs(a[1..], b);
      assert s[1..] == a[1..] + "." + b && s[0] == a[0];
      assert [a[0]] + (a[1..] + "\\." + EscapeDots(b)) == a + "\\." + EscapeDots(b);
    }
  }

  lemma FqdnConcat(front: string, rest: string)
    requires ProperName(front)
    ensures Fqdn(front + rest) == front + Fqdn(rest)
  {
    var s := front + rest;
    assert s[|s| - 1..] == [s[|s| - 1]] && (rest != "" ==> rest[|rest| - 1..] == [rest[|rest| - 1]]);
    assert s + "." == front + (rest + ".");
  }

  lemma IndexAfter(front: string, c: char, rest: string)
    requires c !in front
    ensures Index(front + [c] + rest, c) == |front|
  {
    var s := front + [c] + rest;
    assert s[|front|] == c && forall i :: 0 <= i < |front| ==> s[i] == front[i];
  }

  /** Without a hostmaster it is a name under the apex, a name stays what it is, and an e-mail address becomes a name:
      the dots of its local part escaped, its `@` a dot. */
  lemma MailboxIs(local: string, rest: string, hostmaster: string, apexFQDN: string)
    requires '@' !in local && '@' !in hostmaster
    ensures Mailbox("", apexFQDN) == "hostmaster." + apexFQDN
    ensures hostmaster != "" ==> Mailbox(hostmaster, apexFQDN) == Fqdn(hostmaster)
    ensures Mailbox(local + "@" + rest, apexFQDN) == EscapeDots(local) + "." + Fqdn(rest)
  {
    assert '@' !in Fqdn(hostmaster);
    AddressMailbox(local, rest, apexFQDN);
    hide EscapeDots, Fqdn, Index;
  }

  lemma AddressMailbox(local: string, rest: string, apexFQDN: string)
    requires '@' !in local
    ensures Mailbox(local + "@" + rest, apexFQDN) == EscapeDots(local) + "." + Fqdn(rest)
  {
    FqdnConcat(local + "@", rest);
    IndexAfter(local, '@', Fqdn(rest));
    hide EscapeDots, Fqdn, Index;
    var mbox := local + "@" + Fqdn(rest);
    assert mbox[..|local|] == local && mbox[|local| + 1..] == Fqdn(rest);
  }

  function SoaOf(apex: string, settings: Settings, serial: int, refresh: int, retry: int, expire: int,
                 minimum: int): RR {
    RR(Fqdn(apex), TYPE_SOA, minimum,
       Authority(if settings.ns1 == "" then "." else Fqdn(settings.ns1), Mailbox(settings.hostmaster, Fqdn(apex)),
                 serial, refresh, retry, expire, minimum))
  }

  function SOA(z: ServedZone): RR {
    SoaOf(z.apex, z.settings, z.serial, z.refresh, z.retry, z.expire, z.minimum)
  }

  lemma OnlyNsRecordsRenderAsNs(codec: Codec, owner: string, r: Record)
    ensures ToRR(codec, owner, r).Some? && ToRR(codec, owner, r).value.rrtype == TYPE_NS <==> r.rtype == "NS"
    ensures r.rtype == "NS" ==> ToRR(codec, owner, r) == Some(RR(owner, TYPE_NS, Uint32(r.ttl), Host(Fqdn(r.value))))
  {
  }

  method NS(z: ServedZone, ghost codec: Codec) returns (out: seq<RR>)
    ensures out == if Fqdn(z.apex) in z.records then Typed(codec, Fqdn(z.apex), z.records[Fqdn(z.apex)], TYPE_NS)
            else []
  {
    hide ToRR;
    var apexFQDN := Fqdn(z.apex);
    var recs := if apexFQDN in z.records then z.records[apexFQDN] else [];
    out := [];
    for i := 0 to |recs|
      invariant out == Typed(codec, apexFQDN, recs[..i], TYPE_NS)
    {
      assert recs[..i + 1][..i] == recs[..i];
      var r := recs[i];
      OnlyNsRecordsRenderAsNs(codec, apexFQDN, r);
      if r.rtype != "NS" {
        continue;
      }
      out := out + [RR(apexFQDN, TYPE_NS, Uint32(r.ttl), Host(Fqdn(r.value)))];
    }
    assert recs[..|recs|] == recs;
  }

  method FilterByType(codec: Codec, owner: string, recs: seq<Record>, qtype: int) returns (out: seq<RR>)
    ensures out == Typed(codec, owner, recs, qtype)
  {
    out := [];
    for i := 0 to |recs|
      invariant out == Typed(codec, owner, recs[..i], qtype)
    {
      assert recs[..i + 1][..i] == recs[..i];
      var rr := ToRR(codec, owner, recs[i]);
      if rr.None? {
        continue;
      }
      if qtype == TYPE_ANY || rr.value.rrtype == qtype {
        out := out + [rr.value];
      }
    }
    assert recs[..|recs|] == recs;
  }

  /** The records that speak for a name: its own if it has any, else the apex wildcard's. */
  function Speaking(z: ServedZone, owner: string): Option<seq<Record>> {
    if owner in z.records then Some(z.records[owner])
    else if "*." + Fqdn(z.apex) in z.records then Some(z.records["*." + Fqdn(z.apex)])
    else None
  }

  method Match(codec: Codec, z: ServedZone, owner: string, qtype: int) returns (answers: seq<RR>, matchedName: bool)
    ensures matchedName <==> Speaking(z, owner).Some?
    ensures answers == if matchedName then Typed(codec, owner, Speaking(z, owner).value, qtype) else []
  {
    if owner in z.records {
      answers := FilterByType(codec, owner, z.records[owner], qtype);
      return answers, true;
    }
    var wildcard := "*." + Fqdn(z.apex);
    if wildcard in z.records {
      answers := FilterByType(codec, owner, z.records[wildcard], qtype);
      return answers, true;
    }
    return [], false;
  }

  // ---- Building the index ----

  type Snapshot = map<string, ServedZone>

  /** `records` lists under each owner name exactly the rows with that owner, in table order. */
  ghost predicate IsIndex(records: map<string, seq<Record>>, rows: seq<Record>, apex: string) {
    && (forall o :: o in records <==> Where(rows, OwnedBy(apex, o)) != [])
    && (forall o :: o in records ==> records[o] == Where(rows, OwnedBy(apex, o)))
  }

  /** `served` is the zone row `z` with its rows indexed. */
  ghost predicate Serves(served: ServedZone, z: Zone, rows: seq<Record>, settings: Settings) {
    && served.apex == Lower(z.domain)
    && SOA(served) == SoaOf(Lower(z.domain), settings, Uint32(z.serial), Uint32(z.refresh), Uint32(z.retry),
                            Uint32(z.expire), Uint32(z.minimum))
    && served.minimum == Uint32(z.minimum)
    && IsIndex(served.records, rows, Lower(z.domain))
  }

  function KeyOf(z: Zone): string {
    Fqdn(Lower(z.domain))
  }

  ghost predicate DistinctZoneKeys(zones: seq<Zone>) {
    Sorting.DistinctKeys(zones, KeyOf)
  }

  function RowsOf(recs: map<int, seq<Record>>, id: int): seq<Record> {
    if id in recs then recs[id] else []
  }

  ghost predicate IsSnapshot(snap: Snapshot, zones: seq<Zone>, recs: map<int, seq<Record>>, settings: Settings) {
    && (forall z :: z in zones ==> KeyOf(z) in snap && Serves(snap[KeyOf(z)], z, RowsOf(recs, z.id), settings))
    && (forall k :: k in snap ==> exists z :: z in zones && KeyOf(z) == k)
  }

  lemma OwnedOneMore(rows: seq<Record>, apex: string, r: Record, o: string)
    ensures Where(rows + [r], OwnedBy(apex, o)) ==
            Where(rows, OwnedBy(apex, o)) + if OwnerName(r.name, apex) == o then [r] else []
  {
    WhereAppend(rows, r, OwnedBy(apex, o));
  }

  lemma IndexOneMore(records: map<string, seq<Record>>, rows: seq<Record>, apex: string, r: Record)
    requires IsIndex(records, rows, apex)
    ensures var o := OwnerName(r.name, apex);
            IsIndex(records[o := (if o in records then records[o] else []) + [r]], rows + [r], apex)
  {
    hide OwnerName, Where, OwnedBy;
    var owner := OwnerName(r.name, apex);
    var next := records[owner := (if owner in records then records[owner] else []) + [r]];
    forall o
      ensures o in next <==> Where(rows + [r], OwnedBy(apex, o)) != []
      ensures o in next ==> next[o] == Where(rows + [r], OwnedBy(apex, o))
    {
      OwnedOneMore(rows, apex, r, o);
    }
  }

  lemma SnapshotOneMore(snap: Snapshot, zones: seq<Zone>, recs: map<int, seq<Record>>, settings: Settings,
                        z: Zone, served: ServedZone)
    requires IsSnapshot(snap, zones, recs, settings) && Serves(served, z, RowsOf(recs, z.id), settings)
    requires DistinctZoneKeys(zones + [z])
    ensures IsSnapshot(snap[KeyOf(z) := served], zones + [z], recs, settings)
  {
    hide Serves, KeyOf;
    var all := zones + [z];
    assert all[|zones|] == z;
    forall x | x in zones ensures KeyOf(x) != KeyOf(z) {
      var i :| 0 <= i < |zones| && zones[i] == x;
      assert all[i] == x;
    }
  }

  /** A zone row and the index of its rows make a served zone. */
  function Assemble(z: Zone, settings: Settings, records: map<string, seq<Record>>): ServedZone {
    ServedZone(Lower(z.domain), Uint32(z.serial), Uint32(z.refresh), Uint32(z.retry), Uint32(z.expire),
               Uint32(z.minimum), settings, records)
  }

  lemma AssembledServes(z: Zone, rows: seq<Record>, settings: Settings, records: map<string, seq<Record>>)
    requires IsIndex(records, rows, Lower(z.domain))
    ensures Serves(Assemble(z, settings, records), z, rows, settings)
  {
    hide IsIndex;
  }

  lemma EmptyIndex(apex: string)
    ensures IsIndex(map[], [], apex)
  {
  }

  method IndexRows(rows: seq<Record>, apex: string) returns (records: map<string, seq<Record>>)
    ensures IsIndex(records, rows, apex)
  {
    records := map[];
    EmptyIndex(apex);
    hide IsIndex;
    assert rows[..0] == [];
    for j := 0 to |rows|
      invariant IsIndex(records, rows[..j], apex)
    {
      var r := rows[j];
      var ownerFQDN := if r.name == "@" then Fqdn(apex)
                       else if r.name == "*" then "*." + Fqdn(apex)
                       else Fqdn(Lower(r.name) + "." + apex);
      assert ownerFQDN == OwnerName(r.name, apex);
      assert rows[..j + 1] == rows[..j] + [r];
      IndexOneMore(records, rows[..j], apex, r);
      records := records[ownerFQDN := (if ownerFQDN in records then records[ownerFQDN] else []) + [r]];
    }
    assert rows[..|rows|] == rows;
  }

  method CompileZones(zones: seq<Zone>, recs: map<int, seq<Record>>, settings: Settings) returns (snap: Snapshot)
    requires DistinctZoneKeys(zones)
    ensures IsSnapshot(snap, zones, recs, settings)
  {
    hide Serves, IsIndex, KeyOf;
    snap := map[];
    for i := 0 to |zones|
      invariant IsSnapshot(snap, zones[..i], recs, settings)
    {
      hide IsSnapshot;
      var z := zones[i];
      var rows := RowsOf(recs, z.id);
      var records := IndexRows(rows, Lower(z.domain));
      var zone := Assemble(z, settings, records);
      AssembledServes(z, rows, settings, records);
      assert zones[..i + 1] == zones[..i] + [z];
      SnapshotOneMore(snap, zones[..i], recs, settings, z, zone);
      snap := snap[KeyOf(z) := zone];
    }
    assert zones[..|zones|] == zones;
  }

  /** The snapshot of the store's tables, or None if they cannot be read. */
  method BuildSnapshot(store: Store, settings: Option<Settings>, listed: bool, queried: bool)
      returns (snap: Option<Snapshot>, ghost recs: map<int, seq<Record>>)
    requires DistinctZoneKeys(store.zones)
    ensures snap.Some? <==> listed && queried && settings.Some?
    ensures snap.Some? ==>
              GroupedByZone(recs, RowsInOrder(store.records))
                && IsSnapshot(snap.value, store.zones, recs, settings.value)
  {
    hide KeyOf, GroupedByZone, RowsInOrder, IsSnapshot;
    var data := store.AllDNSData(settings, listed, queried);
    if data.None? { return None, map[]; }
    Sorting.SortKeepsDistinct(store.zones, Sorting.ByText(ApexOf), KeyOf);
    var compiled := CompileZones(data.value.zones, data.value.recs, data.value.settings);
    recs := data.value.recs;
    SameRows(store.zones, store.records);
    SnapshotOfSame(compiled, data.value.zones, store.zones, recs, data.value.settings);
    return Some(compiled), recs;
  }

  lemma SnapshotOfSame(snap: Snapshot, zones: seq<Zone>, others: seq<Zone>, recs: map<int, seq<Record>>,
                       settings: Settings)
    requires IsSnapshot(snap, zones, recs, settings) && forall z :: z in zones <==> z in others
    ensures IsSnapshot(snap, others, recs, settings)
  {
    hide Serves, KeyOf;
  }

  // ---- Searching it ----

  /** The label-peeling search. */
  function FindIn(snap: Snapshot, name: string): Option<ServedZone>
    decreases |name|
  {
    if name in snap then Some(snap[name])
    else
      var idx := Index(name, '.');
      if idx < 0 || idx == |name| - 1 then None else FindIn(snap, name[idx + 1..])
  }

  class Zones {
    var snap: Snapshot

    constructor ()
      ensures snap == map[]
    {
      snap := map[];
    }

    method Swap(next: Snapshot)
      modifies this
      ensures snap == next
    {
      snap := next;
    }

    method Find(qname: string) returns (zone: Option<ServedZone>)
      ensures zone == FindIn(snap, qname)
    {
      var name := qname;
      while true
        invariant FindIn(snap, name) == FindIn(snap, qname)
        decreases |name|
      {
        if name in snap {
          return Some(snap[name]);
        }
        var idx := Index(name, '.');
        if idx < 0 || idx == |name| - 1 {
          return None;
        }
        name := name[idx + 1..];
      }
    }
  }

  /** `name[i..]` is a label-boundary suffix that is a key. */
  predicate HitAt(snap: Snapshot, name: string, i: int) {
    BoundaryAt(name, i) && name[i..] in snap
  }

  /** The first boundary, going from the left, whose suffix is a key. */
  ghost predicate FirstHit(snap: Snapshot, name: string, i: int) {
    0 <= i <= |name| && HitAt(snap, name, i) && forall j :: HitAt(snap, name, j) ==> i <= j
  }

  lemma BoundariesAfterFirst(name: string, n: int)
    requires Index(name, '.') == n - 1 && 1 <= n < |name|
    ensures forall i :: BoundaryAt(name, i) <==> i == 0 || BoundaryAt(name[n..], i - n)
  {
  }

  lemma HitsInRest(snap: Snapshot, name: string, n: int)
    requires Index(name, '.') == n - 1 && 1 <= n < |name| && name !in snap
    ensures forall i :: HitAt(snap, name, i) <==> HitAt(snap, name[n..], i - n)
  {
    BoundariesAfterFirst(name, n);
    assert name[0..] == name;
    forall i ensures HitAt(snap, name, i) <==> HitAt(snap, name[n..], i - n) {
      if n <= i < |name| { assert name[i..] == name[n..][i - n..]; }
    }
  }

  /** The search returns the zone of the longest label-boundary suffix that has one; `at` is where it starts. */
  lemma {:induction false} FindIsLongestSuffix(snap: Snapshot, name: string) returns (at: int)
    requires "" !in snap
    ensures FindIn(snap, name).None? ==> forall i :: !HitAt(snap, name, i)
    ensures FindIn(snap, name).Some? ==> FirstHit(snap, name, at) && FindIn(snap, name) == Some(snap[name[at..]])
    decreases |name|
  {
    assert name[0..] == name;
    var n := Index(name, '.') + 1;
    if name in snap {
      at := 0;
    } else if n == 0 || n == |name| {
      assert forall i :: BoundaryAt(name, i) ==> i == 0;
      at := 0;
    } else {
      var rest := name[n..];
      assert FindIn(snap, name) == FindIn(snap, rest);
      HitsInRest(snap, name, n);
      at := FindIsLongestSuffix(snap, rest);
      hide FindIn, HitAt;
      if FindIn(snap, rest).Some? {
        assert HitAt(snap, rest, at) && HitAt(snap, name, at + n);
        assert name[at + n..] == rest[at..];
      }
      at := at + n;
    }
  }

  // ---- The two searches agree ----

  /** What the store guarantees of its zone table. */
  ghost predicate ProperZones(zones: seq<Zone>) {
    DistinctDomains(zones) && forall z :: z in zones ==> Valid(z.domain)
  }

  lemma ProperZoneKeys(zones: seq<Zone>)
    requires ProperZones(zones)
    ensures DistinctZoneKeys(zones)
    ensures forall z :: z in zones ==> Lower(z.domain) == z.domain && KeyOf(z) == z.domain + "."
  {
    hide Valid;
    forall z | z in zones ensures Lower(z.domain) == z.domain && KeyOf(z) == z.domain + "." {
      ValidFacts(z.domain);
    }
    forall i, j | 0 <= i < j < |zones| ensures KeyOf(zones[i]) != KeyOf(zones[j]) {
      var a, b := zones[i].domain, zones[j].domain;
      assert zones[i] in zones && zones[j] in zones;
      assert (a + ".")[..|a + "."| - 1] == a && (b + ".")[..|b + "."| - 1] == b;
    }
  }

  /** A zone that covers the name is hit where its apex begins. */
  lemma CoverIsHit(snap: Snapshot, zones: seq<Zone>, recs: map<int, seq<Record>>, settings: Settings, domain: string,
                   z: Zone)
    requires ProperZones(zones) && IsSnapshot(snap, zones, recs, settings) && z in zones && Covers(z.domain, domain)
    ensures HitAt(snap, domain + ".", |domain| - |z.domain|) && (domain + ".")[|domain| - |z.domain|..] == KeyOf(z)
  {
    hide Valid, Serves, Covers;
    ProperZoneKeys(zones);
    CoversIffPeeled(z.domain, domain);
    var name := domain + ".";
    var i :| BoundaryAt(name, i) && name[i..] == z.domain + ".";
    assert i == |domain| - |z.domain|;
  }

  /** Every hit is the key of a zone that covers the name. */
  lemma HitIsCover(snap: Snapshot, zones: seq<Zone>, recs: map<int, seq<Record>>, settings: Settings, domain: string,
                   i: int)
      returns (z: Zone)
    requires ProperZones(zones) && IsSnapshot(snap, zones, recs, settings) && HitAt(snap, domain + ".", i)
    ensures z in zones && Covers(z.domain, domain) && (domain + ".")[i..] == KeyOf(z) && i == |domain| - |z.domain|
  {
    hide Valid, Serves, Covers;
    ProperZoneKeys(zones);
    var name := domain + ".";
    z :| z in zones && KeyOf(z) == name[i..];
    assert |name[i..]| == |z.domain| + 1;
    CoversIffPeeled(z.domain, domain);
  }

  /** Peeling labels over the index and scanning every zone for the longest apex pick the same zone. */
  lemma FindAgreesWithStore(snap: Snapshot, zones: seq<Zone>, recs: map<int, seq<Record>>, settings: Settings,
                            domain: string)
    requires ProperZones(zones) && IsSnapshot(snap, zones, recs, settings)
    ensures FindIn(snap, domain + ".").None? <==> ZoneFor(zones, domain).None?
    ensures forall z :: ZoneFor(zones, domain) == Some(z) ==>
              z in zones && FindIn(snap, domain + ".") == Some(snap[KeyOf(z)])
  {
    var name := domain + ".";
    NoEmptyKey(snap, zones, recs, settings);
    var i := FindIsLongestSuffix(snap, name);
    ZoneForIsLongestCover(zones, domain);
    hide Valid, Covers, IsSnapshot, FindIn, ZoneFor, HitAt, KeyOf;
    if ZoneFor(zones, domain).Some? {
      var z := ZoneFor(zones, domain).value;
      assert IsLongestCover(zones, domain, z);
      CoverIsHit(snap, zones, recs, settings, domain, z);
      var x := HitIsCover(snap, zones, recs, settings, domain, i);
      assert |x.domain| >= |z.domain|;
      assert x == z;
    } else if FindIn(snap, name).Some? {
      var _ := HitIsCover(snap, zones, recs, settings, domain, i);
    }
  }

  lemma NoEmptyKey(snap: Snapshot, zones: seq<Zone>, recs: map<int, seq<Record>>, settings: Settings)
    requires ProperZones(zones) && IsSnapshot(snap, zones, recs, settings)
    ensures "" !in snap
    ensures forall z :: z in zones ==> KeyOf(z) in snap
  {
    hide Valid, Serves;
    ProperZoneKeys(zones);
  }

  // ---- Owner names ----

  /** Different record names in a zone have different owner names. */
  lemma OwnerNameInjective(a: string, b: string, apex: string)
    requires ProperName(apex) && IsLower(a) && IsLower(b)
    ensures OwnerName(a, apex) == OwnerName(b, apex) <==> a == b
  {
    LowerIsIdentity(a);
    LowerIsIdentity(b);
    if a != "@" { OwnerNameForm(a, apex); }
    if b != "@" { OwnerNameForm(b, apex); }
  }

  lemma OwnerNameForm(a: string, apex: string)
    requires ProperName(apex) && IsLower(a) && a != "@"
    ensures OwnerName(a, apex) == a + "." + apex + "."
    ensures OwnerName(a, apex)[..|a|] == a && |OwnerName(a, apex)| == |a| + |apex| + 2
  {
    LowerIsIdentity(a);
    assert (a + "." + apex)[|a + "." + apex| - 1] == apex[|apex| - 1];
    if a == "*" { assert "*." + (apex + ".") == a + "." + apex + "."; }
  }

  lemma LabelSplits(apex: string, domain: string)
    requires Covers(apex, domain) && domain != apex
    ensures domain == LabelIn(apex, domain) + "." + apex
  {
    var a := LabelIn(apex, domain);
    assert domain == a + ("." + apex);
    assert a + ("." + apex) == a + "." + apex;
  }

  /** The label the store computes for a domain maps back to exactly that domain. */
  lemma LabelRoundTrip(apex: string, domain: string)
    requires ProperName(apex) && Covers(apex, domain) && IsLower(domain) && '@' !in domain
    ensures IsLower(LabelIn(apex, domain)) && OwnerName(LabelIn(apex, domain), apex) == domain + "."
  {
    if domain != apex {
      var a := LabelIn(apex, domain);
      LabelSplits(apex, domain);
      hide LabelIn, OwnerName, Covers;
      assert domain[..|a|] == a;
      assert forall i :: 0 <= i < |a| ==> a[i] == domain[i];
      assert IsLower(a) && '@' !in a;
      OwnerNameForm(a, apex);
    }
  }
}
