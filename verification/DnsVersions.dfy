/** The serial in a served SOA as a version number: internal/store/dns.go meets internal/dns/zones.go. */
module DnsVersions {
  import opened Wrappers
  import opened Strings
  import opened Domains
  import opened Rows
  import opened DnsStore
  import opened DnsSerial
  import opened DnsZones
  import opened DnsHandler

  /** One operation raises a serial by at most one. */
  lemma StepRaisesByOne(db: Db, op: Op, id: int, s: int, s': int)
    requires Sound(db) && HasSerial(db, id, s) && HasSerial(Apply(db, op), id, s')
    ensures s' <= s + 1
  {
    hide Valid, ValidateDomain;
    var db' := Apply(db, op);
    if db'.zones == db.zones {
      SerialIsUnique(db, id, s, s');
    } else {
      match op
      case NewZone(z, settings, io) =>
        var row := db'.zones[|db.zones|];
        assert db'.zones == db.zones + [row] && row.id == db.nextZone;
        assert HasSerial(db, id, s');
        SerialIsUnique(db, id, s, s');
      case DropZone(domain, io) =>
        assert HasSerial(db, id, s');
        SerialIsUnique(db, id, s, s');
      case _ =>
        assert db'.zones == Bump(db.zones, TargetZone(op));
        BumpedSerial(db, TargetZone(op), id, s, s');
    }
  }

  /** Along a run a zone's serial rises by at most the number of operations. */
  lemma {:induction false} RunRaisesByLength(db: Db, ops: seq<Op>, i: nat, j: nat, id: int, s: int, s': int)
    requires Sound(db) && i <= j <= |ops|
    requires HasSerial(Run(db, ops[..i]), id, s) && HasSerial(Run(db, ops[..j]), id, s')
    ensures s' <= s + j - i
    decreases j - i
  {
    hide Apply, Sound;
    RunIsSound(db, ops, i);
    if i == j {
      hide Run, HasSerial;
      assert DistinctDomains(Run(db, ops[..i]).zones) by { SoundIsDistinct(Run(db, ops[..i])); }
      SerialIsUnique(Run(db, ops[..i]), id, s, s');
    } else {
      assert ops[..j][..j - 1] == ops[..j - 1];
      RunIsSound(db, ops, j - 1);
      StillLive(db, ops, i, j - 1, id);
      var z :| z in Run(db, ops[..j - 1]).zones && z.id == id;
      assert HasSerial(Run(db, ops[..j - 1]), id, z.serial);
      RunRaisesByLength(db, ops, i, j - 1, id, s, z.serial);
      StepRaisesByOne(Run(db, ops[..j - 1]), ops[j - 1], id, z.serial, s');
    }
  }

  lemma SoundIsDistinct(db: Db)
    requires Sound(db)
    ensures DistinctDomains(db.zones)
  {
  }

  /** Two SOAs of the same zone, of two moments of a run fewer than 2^32 operations apart: what their serials differ by,
      modulo 2^32, is what the zone's serial has risen by; and if they are equal, so are the zone's records. */
  lemma ServedSerialIsVersion(db: Db, ops: seq<Op>, i: nat, j: nat, z: Zone, z': Zone, settings: Settings,
                              settings': Settings, soa: RR, soa': RR)
    requires Sound(db) && i <= j <= |ops| && j - i < 0x1_0000_0000
    requires z in Run(db, ops[..i]).zones && z' in Run(db, ops[..j]).zones && z.id == z'.id
    requires IsSoa(soa, z, settings) && IsSoa(soa', z', settings')
    ensures (soa'.data.serial - soa.data.serial) % 0x1_0000_0000 == z'.serial - z.serial
    ensures soa.data.serial == soa'.data.serial ==>
              RecordsOf(Run(db, ops[..i]), z.id) == RecordsOf(Run(db, ops[..j]), z.id)
  {
    hide Run, Sound, RecordsOf, Mailbox, Fqdn;
    var a, b := Run(db, ops[..i]), Run(db, ops[..j]);
    assert HasSerial(a, z.id, z.serial) && HasSerial(b, z.id, z'.serial);
    SerialIsVersion(db, ops, i, j, z.id);
    RunRaisesByLength(db, ops, i, j, z.id, z.serial, z'.serial);
    ModularDifference(z.serial, z'.serial);
  }

  lemma ModularDifference(s: int, s': int)
    requires 0 <= s' - s < 0x1_0000_0000
    ensures (s' % 0x1_0000_0000 - s % 0x1_0000_0000) % 0x1_0000_0000 == s' - s
    ensures s % 0x1_0000_0000 == s' % 0x1_0000_0000 ==> s == s'
  {
  }

  /** A snapshot of the tables of moment `k` of a run is asked for the SOA of one of their zones. */
  ghost predicate AsksSoa(db: Db, ops: seq<Op>, k: nat, snap: Snapshot, recs: map<int, seq<Record>>, settings: Settings,
                          questions: seq<Question>, z: Zone) {
    && k <= |ops| && Asks(snap, Run(db, ops[..k]).zones, recs, settings, questions, z)
    && questions[0].qtype == 6 && Chop(QName(questions)) == z.domain
  }

  lemma SoaAt(codec: Codec, db: Db, ops: seq<Op>, k: nat, snap: Snapshot, recs: map<int, seq<Record>>,
              settings: Settings, questions: seq<Question>, edns: bool, z: Zone)
      returns (soa: RR)
    requires AsksSoa(db, ops, k, snap, recs, settings, questions, z)
    ensures k <= |ops| && z in Run(db, ops[..k]).zones && Hosted(snap, questions)
    ensures ReplyOver(codec, snap, questions, edns).answer == [soa] && IsSoa(soa, z, settings)
    ensures soa.data.Authority?
  {
    hide Run, Valid, Covers, IsSnapshot, FindIn, ReplyOver;
    var zones := Run(db, ops[..k]).zones;
    AskedZone(snap, zones, recs, settings, questions, z);
    ApexSoaIsServed(codec, snap, zones, recs, settings, questions, edns, z);
    soa := ReplyOver(codec, snap, questions, edns).answer[0];
  }

  /** What a secondary relies on: of the same zone at two moments of a run, fewer than 2^32 operations apart, equal
      served serials mean equal records, and else they tell how far the zone's serial has risen. */
  lemma ApexSerialIsVersion(codec: Codec, db: Db, ops: seq<Op>, i: nat, j: nat, snap: Snapshot, snap': Snapshot,
                            recs: map<int, seq<Record>>, recs': map<int, seq<Record>>, settings: Settings,
                            settings': Settings, questions: seq<Question>, questions': seq<Question>, edns: bool,
                            z: Zone, z': Zone)
    requires Sound(db) && i <= j && j - i < 0x1_0000_0000 && z.id == z'.id
    requires AsksSoa(db, ops, i, snap, recs, settings, questions, z)
    requires AsksSoa(db, ops, j, snap', recs', settings', questions', z')
    ensures var m, m' := ReplyOver(codec, snap, questions, edns), ReplyOver(codec, snap', questions', edns);
            && |m.answer| == |m'.answer| == 1 && m.answer[0].data.Authority? && m'.answer[0].data.Authority?
            && var s, s' := m.answer[0].data.serial, m'.answer[0].data.serial;
               && (s' - s) % 0x1_0000_0000 == z'.serial - z.serial
               && (s == s' ==> RecordsOf(Run(db, ops[..i]), z.id) == RecordsOf(Run(db, ops[..j]), z.id))
  {
    hide *;
    var soa := SoaAt(codec, db, ops, i, snap, recs, settings, questions, edns, z);
    var soa' := SoaAt(codec, db, ops, j, snap', recs', settings', questions', edns, z');
    ServedSerialIsVersion(db, ops, i, j, z, z', settings, settings', soa, soa');
  }
}
