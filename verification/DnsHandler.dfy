/** internal/dns/handler.go, ServeDNS: the authoritative answer to one query. */
module DnsHandler {
  import opened Wrappers
  import opened Strings
  import opened Domains
  import opened Rows
  import opened DnsStore
  import opened DnsZones
  import RateLimit

  const NOERROR := 0
  const NXDOMAIN := 3
  const REFUSED := 5

  datatype Question = Question(name: string, qtype: int, inet: bool)

  datatype Msg = Msg(rcode: int, authoritative: bool, answer: seq<RR>, authority: seq<RR>, edns: bool)

  // ---- The answer over the index, branch by branch as the code has it ----

  function Hinfo(qname: string, minimum: int): RR {
    RR(qname, TYPE_HINFO, minimum, Info("RFC8482", ""))
  }

  function TypedIn(codec: Codec, z: ServedZone, qname: string, qtype: int): seq<RR> {
    match Speaking(z, qname)
    case Some(recs) => Typed(codec, qname, recs, qtype)
    case None => []
  }

  function ZoneReply(codec: Codec, z: ServedZone, qname: string, qtype: int, edns: bool): Msg {
    var reply := Msg(NOERROR, true, [], [], edns);
    if qtype == TYPE_ANY then reply.(answer := [Hinfo(qname, z.minimum)])
    else if qname == Fqdn(z.apex) && qtype == TYPE_SOA then reply.(answer := [SOA(z)])
    else if TypedIn(codec, z, qname, qtype) != [] then reply.(answer := TypedIn(codec, z, qname, qtype))
    else if qtype != TYPE_CNAME && TypedIn(codec, z, qname, TYPE_CNAME) != [] then
      reply.(answer := TypedIn(codec, z, qname, TYPE_CNAME))
    else
      reply.(authority := [SOA(z)], rcode := if Speaking(z, qname).None? then NXDOMAIN else NOERROR)
  }

  function QName(questions: seq<Question>): string
    requires |questions| == 1
  {
    Lower(Fqdn(questions[0].name))
  }

  /** The query gets past the checks made before rate limiting. */
  predicate Hosted(snap: Snapshot, questions: seq<Question>) {
    |questions| == 1 && questions[0].inet && FindIn(snap, QName(questions)).Some?
  }

  /** The reply to a query that gets past the limiter. */
  function ReplyOver(codec: Codec, snap: Snapshot, questions: seq<Question>, edns: bool): Msg
    requires Hosted(snap, questions)
  {
    ZoneReply(codec, FindIn(snap, QName(questions)).value, QName(questions), questions[0].qtype, edns)
  }

  class Handler {
    const zones: Zones
    const limiter: RateLimit.Limiter
    const codec: Codec

    constructor (zones: Zones, codec: Codec)
      ensures this.zones == zones && this.codec == codec && fresh(this.limiter)
      ensures limiter.buckets == map[]
    {
      this.zones := zones;
      this.codec := codec;
      this.limiter := new RateLimit.Limiter();
    }

    /** Unhosted names are refused outside the limiter; hosted ones are answered exactly when it allows them. */
    method ServeDNS(questions: seq<Question>, subnet: string, now: real, edns: bool) returns (reply: Option<Msg>)
      modifies limiter
      ensures !Hosted(zones.snap, questions) ==>
                limiter.buckets == old(limiter.buckets) && reply == Some(Msg(5, true, [], [], false))
      ensures Hosted(zones.snap, questions) ==>
                var (after, ok) := RateLimit.Step(old(limiter.buckets), subnet, now);
                && limiter.buckets == after
                && reply == if !ok then None else Some(ReplyOver(codec, zones.snap, questions, edns))
    {
      hide RateLimit.Step, Typed, FindIn;
      var m := Msg(NOERROR, true, [], [], false);
      if |questions| != 1 || !questions[0].inet {
        return Some(m.(rcode := REFUSED));
      }
      var q := questions[0];
      var qname := Lower(Fqdn(q.name));
      var found := zones.Find(qname);
      if found.None? {
        return Some(m.(rcode := REFUSED));
      }
      var zone := found.value;
      var ok := limiter.Allow(subnet, now);
      if !ok {
        return None;
      }
      if edns {
        m := m.(edns := true);
      }
      var apex := Fqdn(zone.apex);
      if q.qtype == TYPE_ANY {
        m := m.(answer := m.answer + [Hinfo(qname, zone.minimum)]);
        assert m.answer == [Hinfo(qname, zone.minimum)];
        return Some(m);
      }
      if qname == apex && q.qtype == TYPE_SOA {
        m := m.(answer := m.answer + [SOA(zone)]);
        assert m.answer == [SOA(zone)];
        return Some(m);
      }
      if qname == apex && q.qtype == TYPE_NS {
        var ns := NS(zone, codec);
        if |ns| > 0 {
          m := m.(answer := m.answer + ns);
          assert m.answer == ns;
          return Some(m);
        }
      }
      var ans, matchedName := Match(codec, zone, qname, q.qtype);
      if |ans| > 0 {
        return Some(m.(answer := ans));
      }
      if q.qtype != TYPE_CNAME {
        var cn, _ := Match(codec, zone, qname, TYPE_CNAME);
        if |cn| > 0 {
          return Some(m.(answer := cn));
        }
      }
      m := m.(authority := m.authority + [SOA(zone)]);
      assert m.authority == [SOA(zone)];
      if !matchedName {
        m := m.(rcode := NXDOMAIN);
      }
      return Some(m);
    }
  }

  // ---- The reference: a linear scan of the raw rows ----

  /** The rows whose owner name is the one asked for; failing that, the rows named `*` at the apex. */
  function Scan(z: Zone, rows: seq<Record>, qname: string): seq<Record> {
    var exact := Where(rows, OwnedBy(z.domain, qname));
    if exact != [] then exact else Where(rows, OwnedBy(z.domain, OwnerName("*", z.domain)))
  }

  function ZoneSOA(z: Zone, settings: Settings): RR {
    SoaOf(z.domain, settings, Uint32(z.serial), Uint32(z.refresh), Uint32(z.retry), Uint32(z.expire), Uint32(z.minimum))
  }

  function ScanReply(codec: Codec, z: Zone, rows: seq<Record>, settings: Settings, qname: string, qtype: int,
                     edns: bool): Msg {
    var typed := Typed(codec, qname, Scan(z, rows, qname), qtype);
    var alias := Typed(codec, qname, Scan(z, rows, qname), TYPE_CNAME);
    var answer :=
      if qtype == TYPE_ANY then [Hinfo(qname, Uint32(z.minimum))]
      else if qtype == TYPE_SOA && qname == z.domain + "." then [ZoneSOA(z, settings)]
      else if typed != [] then typed
      else alias;
    if answer != [] then Msg(NOERROR, true, answer, [], edns)
    else Msg(if Scan(z, rows, qname) == [] then NXDOMAIN else NOERROR, true, [], [ZoneSOA(z, settings)], edns)
  }

  lemma SpeakingIsScan(served: ServedZone, z: Zone, rows: seq<Record>, settings: Settings, qname: string)
    requires Valid(z.domain) && Serves(served, z, rows, settings)
    ensures Speaking(served, qname) == if Scan(z, rows, qname) == [] then None else Some(Scan(z, rows, qname))
  {
    ValidFacts(z.domain);
    hide Valid;
    assert OwnerName("*", z.domain) == "*." + Fqdn(z.domain);
  }

  lemma ZoneReplyIsScan(codec: Codec, served: ServedZone, z: Zone, rows: seq<Record>, settings: Settings,
                        qname: string, qtype: int, edns: bool)
    requires Valid(z.domain) && Serves(served, z, rows, settings)
    ensures ZoneReply(codec, served, qname, qtype, edns) == ScanReply(codec, z, rows, settings, qname, qtype, edns)
  {
    ValidFacts(z.domain);
    SpeakingIsScan(served, z, rows, settings, qname);
    EmptyTyped(codec, qname, qtype);
    EmptyTyped(codec, qname, TYPE_CNAME);
    assert SOA(served) == ZoneSOA(z, settings) && Fqdn(served.apex) == z.domain + ".";
    var speaking := Scan(z, rows, qname);
    hide Valid, Speaking, Scan, Typed, IsIndex, SOA, ZoneSOA, SoaOf, Hinfo, Fqdn;
    var typed := Typed(codec, qname, speaking, qtype);
    var alias := Typed(codec, qname, speaking, TYPE_CNAME);
    assert TypedIn(codec, served, qname, qtype) == typed && TypedIn(codec, served, qname, TYPE_CNAME) == alias;
    hide TypedIn;
    if qtype == TYPE_ANY {
    } else if qtype == TYPE_SOA && qname == z.domain + "." {
    } else if typed != [] {
    } else if alias != [] {
    } else {
    }
  }

  lemma EmptyTyped(codec: Codec, owner: string, qtype: int)
    ensures Typed(codec, owner, [], qtype) == []
  {
  }

  /** The name without its trailing dot, as the tables spell domains. */
  function Chop(qname: string): string
    requires qname != ""
  {
    qname[..|qname| - 1]
  }

  /** Serving from the index gives what scanning the tables gives: the store's own choice of zone, the same
      refusals and the same reply. */
  lemma IndexAnswersLikeScan(codec: Codec, snap: Snapshot, zones: seq<Zone>, recs: map<int, seq<Record>>,
                             settings: Settings, questions: seq<Question>, edns: bool)
    requires ProperZones(zones) && IsSnapshot(snap, zones, recs, settings)
    requires |questions| == 1 && questions[0].inet
    ensures var qname := QName(questions);
            && qname != ""
            && (Hosted(snap, questions) <==> ZoneFor(zones, Chop(qname)).Some?)
            && (Hosted(snap, questions) ==>
                  var z := ZoneFor(zones, Chop(qname)).value;
                  ReplyOver(codec, snap, questions, edns) ==
                  ScanReply(codec, z, RowsOf(recs, z.id), settings, qname, questions[0].qtype, edns))
  {
    hide Valid, FindIn, ZoneReply, ScanReply;
    var qname := QName(questions);
    var name := Fqdn(questions[0].name);
    assert name[|name| - 1] == '.' && qname[|name| - 1] == '.';
    assert qname == Chop(qname) + ".";
    FindAgreesWithStore(snap, zones, recs, settings, Chop(qname));
    if Hosted(snap, questions) {
      var z := ZoneFor(zones, Chop(qname)).value;
      ZoneReplyIsScan(codec, snap[KeyOf(z)], z, RowsOf(recs, z.id), settings, qname, questions[0].qtype, edns);
    }
  }

  // ---- What the reply of the scan means ----

  predicate Ordinary(z: Zone, qname: string, qtype: int) {
    qtype != TYPE_ANY && !(qtype == TYPE_SOA && qname == z.domain + ".")
  }

  lemma ScanAuthorityIffNegative(codec: Codec, z: Zone, rows: seq<Record>, settings: Settings, qname: string,
                                 qtype: int, edns: bool)
    ensures var m := ScanReply(codec, z, rows, settings, qname, qtype, edns);
            && m.authoritative && m.edns == edns
            && (m.answer != [] <==> m.authority == [])
            && (m.answer == [] ==> m.authority == [ZoneSOA(z, settings)])
            && (m.rcode == NXDOMAIN ==> m.answer == [])
            && (m.rcode == NOERROR || m.rcode == NXDOMAIN)
            && (Ordinary(z, qname, qtype) ==> (m.rcode == NXDOMAIN <==> Scan(z, rows, qname) == []))
  {
    hide Scan, Typed;
    EmptyTyped(codec, qname, qtype);
    EmptyTyped(codec, qname, TYPE_CNAME);
  }

  /** Each rendered record of the type comes from a scanned row and the other way round. */
  lemma {:induction false} TypedIff(codec: Codec, owner: string, recs: seq<Record>, qtype: int, rr: RR)
    requires qtype != TYPE_ANY
    ensures rr in Typed(codec, owner, recs, qtype) <==>
            exists r :: r in recs && ToRR(codec, owner, r) == Some(rr) && rr.rrtype == qtype
  {
    hide ToRR;
    if recs != [] {
      TypedIff(codec, owner, recs[..|recs| - 1], qtype, rr);
      assert recs == recs[..|recs| - 1] + [recs[|recs| - 1]];
    }
  }

  predicate Renders(codec: Codec, owner: string, r: Record, qtype: int) {
    ToRR(codec, owner, r).Some? && ToRR(codec, owner, r).value.rrtype == qtype
  }

  lemma ScanAnswersIff(codec: Codec, z: Zone, rows: seq<Record>, settings: Settings, qname: string, qtype: int,
                       edns: bool, rr: RR)
    requires Ordinary(z, qname, qtype)
    ensures var answer, scanned := ScanReply(codec, z, rows, settings, qname, qtype, edns).answer, Scan(z, rows, qname);
            var shown := if exists r :: r in scanned && Renders(codec, qname, r, qtype) then qtype else TYPE_CNAME;
            rr in answer <==> exists r :: r in scanned && ToRR(codec, qname, r) == Some(rr) && rr.rrtype == shown
  {
    hide Scan, ToRR;
    var scanned := Scan(z, rows, qname);
    var typed := Typed(codec, qname, scanned, qtype);
    TypedIff(codec, qname, scanned, qtype, rr);
    TypedIff(codec, qname, scanned, TYPE_CNAME, rr);
    if r :| r in scanned && Renders(codec, qname, r, qtype) {
      TypedIff(codec, qname, scanned, qtype, ToRR(codec, qname, r).value);
      assert typed != [];
    } else if typed != [] {
      TypedIff(codec, qname, scanned, qtype, typed[0]);
    }
  }

  // ---- What the served reply means, in terms of record names ----

  /** The record name, relative to the apex, stands for the domain. */
  predicate Spells(name: string, apex: string, domain: string) {
    if name == "@" then domain == apex else Lower(name) + "." + apex == domain
  }

  lemma SameInLowerCase(name: string, apex: string)
    ensures OwnerName(Lower(name), apex) == OwnerName(name, apex)
  {
    LowerIsLower(name);
    LowerIsIdentity(Lower(name));
    assert |Lower(name)| == |name|;
    assert name != "" ==> Lower(name)[0] == LowerChar(name[0]);
    assert Lower(name) == "@" <==> name == "@";
    assert Lower(name) == "*" <==> name == "*";
  }

  lemma OwnerIffSpells(name: string, apex: string, domain: string)
    requires ProperName(apex)
    ensures OwnerName(name, apex) == domain + "." <==> Spells(name, apex, domain)
    ensures OwnerName(name, apex) == OwnerName("*", apex) <==> name == "*"
  {
    SameInLowerCase(name, apex);
    LowerIsLower(name);
    OwnerNameInjective(Lower(name), "*", apex);
    assert name != "" ==> Lower(name)[0] == LowerChar(name[0]);
    if name == "@" {
      assert (apex + ".")[..|apex|] == apex && (domain + ".")[..|domain|] == domain;
    } else {
      OwnerNameForm(Lower(name), apex);
      var full := Lower(name) + "." + apex;
      assert (full + ".")[..|full|] == full && (domain + ".")[..|domain|] == domain;
    }
  }

  /** The rows that speak for a domain: those that spell it or, if there are none, those named `*`. */
  predicate Speaks(rows: seq<Record>, r: Record, apex: string, domain: string) {
    r in rows && (Spells(r.name, apex, domain)
      || (r.name == "*" && !exists x :: x in rows && Spells(x.name, apex, domain)))
  }

  lemma ScanIsSpeaking(z: Zone, rows: seq<Record>, domain: string)
    requires ProperName(z.domain)
    ensures forall r :: r in Scan(z, rows, domain + ".") <==> Speaks(rows, r, z.domain, domain)
    ensures Scan(z, rows, domain + ".") == [] <==>
            forall r :: r in rows ==> !Spells(r.name, z.domain, domain) && r.name != "*"
  {
    var exact := Where(rows, OwnedBy(z.domain, domain + "."));
    var wild := Where(rows, OwnedBy(z.domain, OwnerName("*", z.domain)));
    forall r | r in rows
      ensures r in exact <==> Spells(r.name, z.domain, domain)
      ensures r in wild <==> r.name == "*"
    {
      OwnerIffSpells(r.name, z.domain, domain);
    }
    hide Where, OwnedBy, OwnerName, Spells;
    assert Scan(z, rows, domain + ".") == if exact != [] then exact else wild;
    assert exact != [] ==> exact[0] in exact;
    assert wild != [] ==> wild[0] in wild;
  }

  /** The snapshot holds the tables and the query is for one of their zones, `z`. */
  ghost predicate Asks(snap: Snapshot, zones: seq<Zone>, recs: map<int, seq<Record>>, settings: Settings,
                       questions: seq<Question>, z: Zone) {
    && ProperZones(zones) && IsSnapshot(snap, zones, recs, settings)
    && Hosted(snap, questions) && QName(questions) != "" && ZoneFor(zones, Chop(QName(questions))) == Some(z)
  }

  /** The served reply is the scan's, and the scanned rows are those that speak for the name. */
  lemma ServedIsScan(codec: Codec, snap: Snapshot, zones: seq<Zone>, recs: map<int, seq<Record>>, settings: Settings,
                     questions: seq<Question>, edns: bool, z: Zone)
    requires Asks(snap, zones, recs, settings, questions, z)
    ensures |questions| == 1
    ensures var qname, rows := QName(questions), RowsOf(recs, z.id);
            && ReplyOver(codec, snap, questions, edns) ==
               ScanReply(codec, z, rows, settings, qname, questions[0].qtype, edns)
            && (forall r :: r in Scan(z, rows, qname) <==> Speaks(rows, r, z.domain, Chop(qname)))
            && (Scan(z, rows, qname) == [] <==>
                forall r :: r in rows ==> !Spells(r.name, z.domain, Chop(qname)) && r.name != "*")
  {
    hide Valid, FindIn, ReplyOver, ScanReply, Scan, Speaks, Spells, IsSnapshot;
    var qname := QName(questions);
    IndexAnswersLikeScan(codec, snap, zones, recs, settings, questions, edns);
    ZoneForIsLongestCover(zones, Chop(qname));
    assert IsLongestCover(zones, Chop(qname), z);
    ValidFacts(z.domain);
    assert qname == Chop(qname) + "." by {
      var name := Fqdn(questions[0].name);
      assert name[|name| - 1] == '.' && qname[|name| - 1] == '.';
    }
    ScanIsSpeaking(z, RowsOf(recs, z.id), Chop(qname));
  }

  // ---- What a record and a zone say in a reply ----

  /** `rr` is what the record has to say about the owner: its type, its ttl and its value, type by type. */
  ghost predicate Says(codec: Codec, r: Record, owner: string, rr: RR) {
    && rr.name == owner && rr.ttl == r.ttl % 0x1_0000_0000
    && (|| (r.rtype == "A" && rr.rrtype == 1
            && rr.data.Addr? && rr.data.address.V4? && codec.parseIP(r.value) == Some(rr.data.address))
        || (r.rtype == "AAAA" && rr.rrtype == 28
            && rr.data.Addr? && rr.data.address.V6? && codec.parseIP(r.value) == Some(rr.data.address))
        || (r.rtype == "NS" && rr.rrtype == 2 && rr.data == Host(Fqdn(r.value)))
        || (r.rtype == "CNAME" && rr.rrtype == 5 && rr.data == Host(Fqdn(r.value)))
        || (r.rtype == "MX" && rr.rrtype == 15 && rr.data == Exchange(r.priority % 0x1_0000, Fqdn(r.value)))
        || (r.rtype == "TXT" && rr.rrtype == 16 && rr.data == Text(r.value))
        || (r.rtype == "CAA" && rr.rrtype == 257
            && rr.data.Caa? && codec.parseCAA(r.value) == Some(rr.data.caa) && 0 <= rr.data.caa.flag <= 255))
  }

  /** The record has something to say of that type. */
  ghost predicate HasType(codec: Codec, r: Record, owner: string, qtype: int) {
    exists rr :: Says(codec, r, owner, rr) && rr.rrtype == qtype
  }

  lemma SaysIff(codec: Codec, r: Record, owner: string, rr: RR)
    ensures ToRR(codec, owner, r) == Some(rr) <==> Says(codec, r, owner, rr)
  {
  }

  lemma HasTypeIff(codec: Codec, r: Record, owner: string, qtype: int)
    ensures HasType(codec, r, owner, qtype) <==> Renders(codec, owner, r, qtype)
  {
    if Renders(codec, owner, r, qtype) {
      SaysIff(codec, r, owner, ToRR(codec, owner, r).value);
    }
    forall rr ensures ToRR(codec, owner, r) == Some(rr) <==> Says(codec, r, owner, rr) { SaysIff(codec, r, owner, rr); }
    hide Says, ToRR;
  }

  ghost function OfType(codec: Codec, owner: string, qtype: int): Record -> bool {
    (r: Record) => HasType(codec, r, owner, qtype)
  }

  /** The answers of one type, record by record and in the records' order. */
  ghost predicate SaidBy(codec: Codec, owner: string, from: seq<Record>, answer: seq<RR>, qtype: int) {
    |answer| == |from| && forall k :: 0 <= k < |from| ==>
      Says(codec, from[k], owner, answer[k]) && answer[k].rrtype == qtype
  }

  lemma SaidByOneMore(codec: Codec, owner: string, from: seq<Record>, answer: seq<RR>, qtype: int, r: Record, rr: RR)
    requires SaidBy(codec, owner, from, answer, qtype) && Says(codec, r, owner, rr) && rr.rrtype == qtype
    ensures SaidBy(codec, owner, from + [r], answer + [rr], qtype)
  {
    hide Says;
  }

  lemma {:induction false} TypedAligned(codec: Codec, owner: string, recs: seq<Record>, qtype: int)
    requires qtype != TYPE_ANY
    ensures SaidBy(codec, owner, Where(recs, OfType(codec, owner, qtype)), Typed(codec, owner, recs, qtype), qtype)
  {
    if recs != [] {
      var n := |recs| - 1;
      var from, answer := Where(recs[..n], OfType(codec, owner, qtype)), Typed(codec, owner, recs[..n], qtype);
      TypedAligned(codec, owner, recs[..n], qtype);
      HasTypeIff(codec, recs[n], owner, qtype);
      hide Says, HasType, SaidBy;
      if Renders(codec, owner, recs[n], qtype) {
        var rr := ToRR(codec, owner, recs[n]).value;
        SaysIff(codec, recs[n], owner, rr);
        hide ToRR;
        SaidByOneMore(codec, owner, from, answer, qtype, recs[n], rr);
      } else {
        hide ToRR;
      }
    }
  }

  /** The zone's SOA: the row's serial and timers, the configured nameserver and mailbox. */
  predicate IsSoa(rr: RR, z: Zone, settings: Settings) {
    && rr.name == z.domain + "." && rr.rrtype == 6 && rr.ttl == z.minimum % 0x1_0000_0000
    && rr.data.Authority?
    && rr.data.serial == z.serial % 0x1_0000_0000
    && rr.data.refresh == z.refresh % 0x1_0000_0000
    && rr.data.retry == z.retry % 0x1_0000_0000
    && rr.data.expire == z.expire % 0x1_0000_0000
    && rr.data.minttl == z.minimum % 0x1_0000_0000
    && rr.data.ns == (if settings.ns1 == "" then "." else Fqdn(settings.ns1))
    && rr.data.mbox == Mailbox(settings.hostmaster, z.domain + ".")
  }

  lemma ZoneSoaIs(z: Zone, settings: Settings)
    requires ProperName(z.domain)
    ensures IsSoa(ZoneSOA(z, settings), z, settings)
  {
    hide Mailbox;
  }

  // ---- What the served reply means ----

  lemma AskedZone(snap: Snapshot, zones: seq<Zone>, recs: map<int, seq<Record>>, settings: Settings,
                  questions: seq<Question>, z: Zone)
    requires Asks(snap, zones, recs, settings, questions, z)
    ensures z in zones && Valid(z.domain) && ProperName(z.domain)
    ensures Covers(z.domain, Chop(QName(questions))) && QName(questions) == Chop(QName(questions)) + "."
  {
    hide Valid, IsSnapshot, FindIn, ZoneFor, Covers;
    ZoneForIsLongestCover(zones, Chop(QName(questions)));
    assert IsLongestCover(zones, Chop(QName(questions)), z);
    ValidFacts(z.domain);
    var name := Fqdn(questions[0].name);
    assert name[|name| - 1] == '.' && QName(questions)[|name| - 1] == '.';
  }

  /** Away from ANY and the apex SOA the served reply says that the name does not exist exactly when no record of its
      zone spells it and none is named `*`. */
  lemma NxdomainIff(codec: Codec, snap: Snapshot, zones: seq<Zone>, recs: map<int, seq<Record>>, settings: Settings,
                    questions: seq<Question>, edns: bool, z: Zone)
    requires Asks(snap, zones, recs, settings, questions, z) && Ordinary(z, QName(questions), questions[0].qtype)
    ensures ReplyOver(codec, snap, questions, edns).rcode == 3 <==>
            forall r :: r in RowsOf(recs, z.id) ==> !Spells(r.name, z.domain, Chop(QName(questions))) && r.name != "*"
  {
    hide Asks, ReplyOver, ScanReply, Scan, Speaks, Spells;
    ServedIsScan(codec, snap, zones, recs, settings, questions, edns, z);
    ScanAuthorityIffNegative(codec, z, RowsOf(recs, z.id), settings, QName(questions), questions[0].qtype, edns);
  }

  /** A served reply with answers carries no authority; a negative one carries its zone's SOA and nothing else
      (sections 2.1 and 2.2 of RFC 2308). */
  lemma AuthorityIffNegative(codec: Codec, snap: Snapshot, zones: seq<Zone>, recs: map<int, seq<Record>>,
                             settings: Settings, questions: seq<Question>, edns: bool, z: Zone)
    requires Asks(snap, zones, recs, settings, questions, z)
    ensures var m := ReplyOver(codec, snap, questions, edns);
            && m.authoritative && m.edns == edns
            && (m.answer != [] <==> m.authority == [])
            && (m.answer == [] ==> |m.authority| == 1 && IsSoa(m.authority[0], z, settings))
            && (m.rcode == 3 ==> m.answer == [])
            && (m.rcode == 0 || m.rcode == 3)
  {
    AskedZone(snap, zones, recs, settings, questions, z);
    ZoneSoaIs(z, settings);
    hide Asks, ReplyOver, ScanReply, Scan, Speaks, Spells, IsSoa;
    ServedIsScan(codec, snap, zones, recs, settings, questions, edns, z);
    ScanAuthorityIffNegative(codec, z, RowsOf(recs, z.id), settings, QName(questions), questions[0].qtype, edns);
  }

  /** The apex SOA query is answered with the zone's SOA, whatever the records are. */
  lemma ApexSoaIsServed(codec: Codec, snap: Snapshot, zones: seq<Zone>, recs: map<int, seq<Record>>,
                        settings: Settings, questions: seq<Question>, edns: bool, z: Zone)
    requires Asks(snap, zones, recs, settings, questions, z)
    requires questions[0].qtype == 6 && Chop(QName(questions)) == z.domain
    ensures var m := ReplyOver(codec, snap, questions, edns);
            m.rcode == 0 && |m.answer| == 1 && IsSoa(m.answer[0], z, settings) && m.authority == []
  {
    AskedZone(snap, zones, recs, settings, questions, z);
    ZoneSoaIs(z, settings);
    hide Asks, ReplyOver, Scan, Speaks, Spells, IsSoa, Typed, ZoneSOA;
    ServedIsScan(codec, snap, zones, recs, settings, questions, edns, z);
  }

  /** The rows that speak for the name and have something to say of the type. */
  ghost function SpeakingOfType(codec: Codec, rows: seq<Record>, apex: string, qname: string,
                                qtype: int): Record -> bool
    requires qname != ""
  {
    (r: Record) => Speaks(rows, r, apex, Chop(qname)) && HasType(codec, r, qname, qtype)
  }

  ghost function SpeaksFor(rows: seq<Record>, apex: string, domain: string): Record -> bool {
    (r: Record) => Speaks(rows, r, apex, domain)
  }

  lemma ScanIsWhere(z: Zone, rows: seq<Record>, domain: string)
    requires ProperName(z.domain)
    ensures Scan(z, rows, domain + ".") == Where(rows, SpeaksFor(rows, z.domain, domain))
  {
    var exact, wild := OwnedBy(z.domain, domain + "."), OwnedBy(z.domain, OwnerName("*", z.domain));
    forall r | r in rows
      ensures exact(r) <==> Spells(r.name, z.domain, domain)
      ensures wild(r) <==> r.name == "*"
    {
      OwnerIffSpells(r.name, z.domain, domain);
    }
    hide Where, OwnerName, Spells, OwnedBy;
    if Where(rows, exact) != [] {
      assert Where(rows, exact)[0] in Where(rows, exact);
      WhereCongruent(rows, exact, SpeaksFor(rows, z.domain, domain));
    } else {
      assert forall r :: r in rows ==> !exact(r) by {
        forall r | r in rows ensures !exact(r) { assert r !in Where(rows, exact); }
      }
      WhereCongruent(rows, wild, SpeaksFor(rows, z.domain, domain));
    }
  }

  lemma ScanAnswersAligned(codec: Codec, z: Zone, rows: seq<Record>, settings: Settings, domain: string, qtype: int,
                           edns: bool)
    requires ProperName(z.domain) && Ordinary(z, domain + ".", qtype)
    ensures var qname := domain + ".";
            var shown := if exists r :: Speaks(rows, r, z.domain, domain) && HasType(codec, r, qname, qtype)
                         then qtype else 5;
            SaidBy(codec, qname, Where(rows, SpeakingOfType(codec, rows, z.domain, qname, shown)),
                   ScanReply(codec, z, rows, settings, qname, qtype, edns).answer, shown)
  {
    var qname := domain + ".";
    var scanned := Scan(z, rows, qname);
    assert Chop(qname) == domain;
    ScanIsWhere(z, rows, domain);
    TypedAligned(codec, qname, scanned, qtype);
    TypedAligned(codec, qname, scanned, TYPE_CNAME);
    hide Scan, Says, HasType, Speaks, Typed;
    forall t ensures Where(scanned, OfType(codec, qname, t)) ==
      Where(rows, SpeakingOfType(codec, rows, z.domain, qname, t)) {
      WhereWhere(rows, SpeaksFor(rows, z.domain, domain), OfType(codec, qname, t),
                 SpeakingOfType(codec, rows, z.domain, qname, t));
    }
    SomethingSaid(codec, rows, z.domain, domain, qtype);
    hide Where, SpeakingOfType, SpeaksFor, OfType;
  }

  lemma SomethingSaid(codec: Codec, rows: seq<Record>, apex: string, domain: string, qtype: int)
    ensures Where(rows, SpeakingOfType(codec, rows, apex, domain + ".", qtype)) != [] <==>
            exists r :: Speaks(rows, r, apex, domain) && HasType(codec, r, domain + ".", qtype)
  {
    hide Where, HasType;
    var p := SpeakingOfType(codec, rows, apex, domain + ".", qtype);
    assert Chop(domain + ".") == domain;
    if Where(rows, p) != [] {
      assert Where(rows, p)[0] in Where(rows, p);
    }
    if r :| Speaks(rows, r, apex, domain) && HasType(codec, r, domain + ".", qtype) {
      assert r in Where(rows, p);
    }
  }

  /** The served answers to an ordinary query are, one for one and in order, what the rows say that speak for the name
      and have something to say of the asked type or, if there is none, of type CNAME. */
  lemma AnswersAre(codec: Codec, snap: Snapshot, zones: seq<Zone>, recs: map<int, seq<Record>>, settings: Settings,
                   questions: seq<Question>, edns: bool, z: Zone)
    requires Asks(snap, zones, recs, settings, questions, z) && Ordinary(z, QName(questions), questions[0].qtype)
    ensures var qname, qtype, rows := QName(questions), questions[0].qtype, RowsOf(recs, z.id);
            var shown := if exists r :: Speaks(rows, r, z.domain, Chop(qname)) && HasType(codec, r, qname, qtype)
                         then qtype else 5;
            SaidBy(codec, qname, Where(rows, SpeakingOfType(codec, rows, z.domain, qname, shown)),
                   ReplyOver(codec, snap, questions, edns).answer, shown)
  {
    AskedZone(snap, zones, recs, settings, questions, z);
    hide Asks, ReplyOver, ScanReply, Scan, Speaks, Spells, HasType, SaidBy, Where, SpeakingOfType;
    ServedIsScan(codec, snap, zones, recs, settings, questions, edns, z);
    ScanAnswersAligned(codec, z, RowsOf(recs, z.id), settings, Chop(QName(questions)), questions[0].qtype, edns);
  }

  /** An answer is served exactly if a row that speaks for the name says it and it has the asked type or, if no such row
      has anything of that type to say, is a CNAME. */
  lemma AnswersIff(codec: Codec, snap: Snapshot, zones: seq<Zone>, recs: map<int, seq<Record>>, settings: Settings,
                   questions: seq<Question>, edns: bool, z: Zone, rr: RR)
    requires Asks(snap, zones, recs, settings, questions, z) && Ordinary(z, QName(questions), questions[0].qtype)
    ensures var qname, qtype, rows := QName(questions), questions[0].qtype, RowsOf(recs, z.id);
            var shown := if exists r :: Speaks(rows, r, z.domain, Chop(qname)) && HasType(codec, r, qname, qtype)
                         then qtype else 5;
            rr in ReplyOver(codec, snap, questions, edns).answer <==>
            exists r :: Speaks(rows, r, z.domain, Chop(qname)) && Says(codec, r, qname, rr) && rr.rrtype == shown
  {
    hide Asks, ReplyOver, ScanReply, Scan, Speaks, Spells, Renders, ToRR;
    ServedIsScan(codec, snap, zones, recs, settings, questions, edns, z);
    var qname, qtype := QName(questions), questions[0].qtype;
    ScanAnswersIff(codec, z, RowsOf(recs, z.id), settings, qname, qtype, edns, rr);
    forall r ensures HasType(codec, r, qname, qtype) <==> Renders(codec, qname, r, qtype) {
      HasTypeIff(codec, r, qname, qtype);
    }
    forall r ensures ToRR(codec, qname, r) == Some(rr) <==> Says(codec, r, qname, rr) { SaysIff(codec, r, qname, rr); }
    hide Says, HasType;
  }

  /** ANY is answered with one synthesised HINFO, the same whatever the zone's records are (section 4.2 of RFC 8482). */
  lemma AnyIsMinimal(codec: Codec, snap: Snapshot, other: Snapshot, zones: seq<Zone>, recs: map<int, seq<Record>>,
                     others: map<int, seq<Record>>, settings: Settings, questions: seq<Question>, edns: bool, z: Zone)
    requires Asks(snap, zones, recs, settings, questions, z) && questions[0].qtype == 255
    requires IsSnapshot(other, zones, others, settings)
    ensures Hosted(other, questions)
    ensures var m := ReplyOver(codec, snap, questions, edns);
            && m == ReplyOver(codec, other, questions, edns)
            && m.rcode == 0 && m.authority == []
            && m.answer == [RR(QName(questions), 13, z.minimum % 0x1_0000_0000, Info("RFC8482", ""))]
  {
    hide FindIn, ReplyOver, IsSnapshot, ProperZones, QName, ZoneFor;
    IndexAnswersLikeScan(codec, other, zones, others, settings, questions, edns);
    IndexAnswersLikeScan(codec, snap, zones, recs, settings, questions, edns);
  }

  /** The name asked for, with or without its trailing dot and in any letter case. */
  lemma QNameIs(name: string, qtype: int, inet: bool)
    requires !HasSuffix(name, ".")
    ensures QName([Question(name, qtype, inet)]) == QName([Question(name + ".", qtype, inet)]) == Lower(name) + "."
  {
    LowerConcat(name, ".");
    assert Lower(".") == ".";
    assert (name + ".")[|name + "."| - 1..] == ".";
  }
}
