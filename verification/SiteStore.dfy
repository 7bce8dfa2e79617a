/** internal/store/store.go and site_domains.go: which site a domain belongs to. */
module SiteStore {
  import opened Wrappers
  import opened Strings
  import opened Domains
  import opened Rows
  import opened Sorting

  /** `config` stands for everything a site's handler is built from. */
  datatype Site = Site(id: int, domain: string, status: string, userID: int, ownerType: string, ownerID: int,
                       config: string)

  datatype Alias = Alias(siteID: int, domain: string)

  datatype Error = IoFailure | NotFound | AlreadyRegistered | InvalidDomain(why: Verdict)

  datatype Db = Db(sites: seq<Site>, aliases: seq<Alias>, nextSite: int)

  // ---- Conditions ----

  predicate HasSite(sites: seq<Site>, domain: string) {
    exists s :: s in sites && s.domain == domain
  }

  predicate HasAlias(aliases: seq<Alias>, domain: string) {
    exists a :: a in aliases && a.domain == domain
  }

  function NotSite(domain: string): Site -> bool {
    (s: Site) => s.domain != domain
  }

  function SiteIds(sites: seq<Site>, domain: string): set<int> {
    set s | s in sites && s.domain == domain :: s.id
  }

  function NotAliasOf(ids: set<int>): Alias -> bool {
    (a: Alias) => a.siteID !in ids
  }

  function OtherAlias(siteID: int, domain: string): Alias -> bool {
    (a: Alias) => !(a.siteID == siteID && a.domain == domain)
  }

  // ---- What each operation does ----

  function Defaulted(s: Site): Site {
    var s := s.(status := if s.status == "" then "active" else s.status);
    if s.ownerType == "" then s.(ownerType := "user", ownerID := s.userID) else s
  }

  function Create(db: Db, site: Site, query: bool, insert: bool): (Db, Result<int, Error>) {
    if !Valid(site.domain) then (db, Err(InvalidDomain(ValidateDomain(site.domain))))
    else if !query then (db, Err(IoFailure))
    else if HasAlias(db.aliases, site.domain) || HasSite(db.sites, site.domain) then (db, Err(AlreadyRegistered))
    else if !insert then (db, Err(IoFailure))
    else (db.(sites := db.sites + [Defaulted(site).(id := db.nextSite)], nextSite := db.nextSite + 1), Ok(db.nextSite))
  }

  function AddDomain(db: Db, siteID: int, name: string, query: bool, insert: bool): (Db, Option<Error>) {
    var domain := Lower(Trim(name));
    if !Valid(domain) then (db, Some(InvalidDomain(ValidateDomain(domain))))
    else if !query then (db, Some(IoFailure))
    else if HasSite(db.sites, domain) || HasAlias(db.aliases, domain) then (db, Some(AlreadyRegistered))
    else if !insert then (db, Some(IoFailure))
    else (db.(aliases := db.aliases + [Alias(siteID, domain)]), None)
  }

  function Delete(db: Db, domain: string, tx: bool, commit: bool): (Db, Option<Error>) {
    if !tx then (db, Some(IoFailure))
    else if !HasSite(db.sites, domain) then (db, Some(NotFound))
    else if !commit then (db, Some(IoFailure))
    else
      (db.(aliases := Where(db.aliases, NotAliasOf(SiteIds(db.sites, domain))),
           sites := Where(db.sites, NotSite(domain))), None)
  }

  function DeleteDomain(db: Db, siteID: int, name: string, exec: bool): (Db, Option<Error>) {
    if !exec then (db, Some(IoFailure))
    else (db.(aliases := Where(db.aliases, OtherAlias(siteID, Lower(Trim(name))))), None)
  }

  function SetFields(sites: seq<Site>, domain: string, status: string, config: string): seq<Site> {
    seq(|sites|, i requires 0 <= i < |sites| =>
      if sites[i].domain == domain then sites[i].(status := status, config := config) else sites[i])
  }

  class Store {
    var sites: seq<Site>
    var aliases: seq<Alias>
    var nextSite: int

    constructor ()
      ensures Tables() == Db([], [], 1)
    {
      sites, aliases, nextSite := [], [], 1;
    }

    ghost function Tables(): Db
      reads this
    {
      Db(sites, aliases, nextSite)
    }

    method CreateSite(site: Site, query: bool, insert: bool) returns (res: Result<int, Error>)
      modifies this
      ensures (Tables(), res) == Create(old(Tables()), site, query, insert)
    {
      var verdict := ValidateDomain(site.domain);
      if verdict != Accepted { return Err(InvalidDomain(verdict)); }
      if !query { return Err(IoFailure); }
      if exists a :: a in aliases && a.domain == site.domain { return Err(AlreadyRegistered); }
      var row := Defaulted(site).(id := nextSite);
      if exists s :: s in sites && s.domain == row.domain { return Err(AlreadyRegistered); }
      if !insert { return Err(IoFailure); }
      sites, nextSite := sites + [row], nextSite + 1;
      return Ok(row.id);
    }

    method AddSiteDomain(siteID: int, name: string, query: bool, insert: bool) returns (err: Option<Error>)
      modifies this
      ensures (Tables(), err) == AddDomain(old(Tables()), siteID, name, query, insert)
    {
      var domain := Lower(Trim(name));
      var verdict := ValidateDomain(domain);
      if verdict != Accepted { return Some(InvalidDomain(verdict)); }
      if !query { return Some(IoFailure); }
      if (exists s :: s in sites && s.domain == domain) || (exists a :: a in aliases && a.domain == domain) {
        return Some(AlreadyRegistered);
      }
      if !insert { return Some(IoFailure); }
      aliases := aliases + [Alias(siteID, domain)];
      return None;
    }

    method DeleteSite(domain: string, tx: bool, commit: bool) returns (err: Option<Error>)
      modifies this
      ensures (Tables(), err) == Delete(old(Tables()), domain, tx, commit)
    {
      var txAliases := Where(aliases, NotAliasOf(SiteIds(sites, domain)));
      if !tx { return Some(IoFailure); }
      var affected := exists s :: s in sites && s.domain == domain;
      var txSites := Where(sites, NotSite(domain));
      if !affected { return Some(NotFound); }
      if !commit { return Some(IoFailure); }
      aliases, sites := txAliases, txSites;
      return None;
    }

    method DeleteSiteDomain(siteID: int, name: string, exec: bool) returns (err: Option<Error>)
      modifies this
      ensures (Tables(), err) == DeleteDomain(old(Tables()), siteID, name, exec)
    {
      if !exec { return Some(IoFailure); }
      aliases := Where(aliases, OtherAlias(siteID, Lower(Trim(name))));
      return None;
    }

    /** Aliases grouped by site, each list in ascending order. */
    method AllSiteDomains() returns (out: map<int, seq<string>>)
      ensures IsGrouping(out, aliases)
      ensures forall id :: id in out ==> Ordered(out[id], ByText(Itself))
    {
      var rows := Sort(aliases, ByText(DomainOf));
      var grouped := GroupBySite(rows);
      SortPermutes(aliases, ByText(DomainOf));
      out := SortEach(grouped);
      SortedGrouping(grouped, out, aliases);
    }
  }

  method GroupBySite(rows: seq<Alias>) returns (out: map<int, seq<string>>)
    ensures IsGrouping(out, rows)
  {
    out := map[];
    for i := 0 to |rows|
      invariant IsGrouping(out, rows[..i])
    {
      hide IsGrouping;
      var a := rows[i];
      assert rows[..i + 1] == rows[..i] + [a];
      GroupOneMore(out, rows[..i], a);
      out := out[a.siteID := (if a.siteID in out then out[a.siteID] else []) + [a.domain]];
    }
    assert rows[..|rows|] == rows;
  }

  method SortEach(grouped: map<int, seq<string>>) returns (out: map<int, seq<string>>)
    ensures out.Keys == grouped.Keys && forall id :: id in grouped ==> out[id] == SortedText(grouped[id])
  {
    out := grouped;
    var pending := out.Keys;
    while exists k :: k in pending
      invariant pending <= out.Keys && out.Keys == grouped.Keys
      invariant forall id :: id in pending ==> out[id] == grouped[id]
      invariant forall id :: id in grouped && id !in pending ==> out[id] == SortedText(grouped[id])
      decreases pending
    {
      var k :| k in pending;
      out, pending := out[k := SortedText(out[k])], pending - {k};
    }
  }

  function DomainOf(a: Alias): string { a.domain }

  /** Each site's list holds each of its aliases as often as the table does. */
  ghost predicate IsGrouping(out: map<int, seq<string>>, rows: seq<Alias>) {
    && (forall id :: id in out ==> out[id] != [])
    && forall id, d :: multiset(if id in out then out[id] else [])[d] == multiset(rows)[Alias(id, d)]
  }

  lemma GroupOneMore(out: map<int, seq<string>>, rows: seq<Alias>, a: Alias)
    requires IsGrouping(out, rows)
    ensures IsGrouping(out[a.siteID := (if a.siteID in out then out[a.siteID] else []) + [a.domain]], rows + [a])
  {
  }

  lemma SortedGrouping(grouped: map<int, seq<string>>, out: map<int, seq<string>>, rows: seq<Alias>)
    requires IsGrouping(grouped, Sort(rows, ByText(DomainOf))) && out.Keys == grouped.Keys
    requires forall id :: id in grouped ==> out[id] == SortedText(grouped[id])
    ensures IsGrouping(out, rows) && forall id :: id in out ==> Ordered(out[id], ByText(Itself))
  {
    SortPermutes(rows, ByText(DomainOf));
    hide SortedText, Sort, ByText, Ordered;
    forall id | id in out
      ensures multiset(out[id]) == multiset(grouped[id]) && |out[id]| == |grouped[id]|
              && Ordered(out[id], ByText(Itself))
    {
      SortedTextIs(grouped[id]);
      assert |multiset(out[id])| == |multiset(grouped[id])|;
    }
  }

  /** A domain is listed under a site exactly if the alias row exists. */
  lemma GroupingLists(out: map<int, seq<string>>, rows: seq<Alias>, id: int, d: string)
    requires IsGrouping(out, rows)
    ensures id in out && d in out[id] <==> Alias(id, d) in rows
  {
    assert Alias(id, d) in rows <==> Alias(id, d) in multiset(rows);
    assert id in out ==> (d in out[id] <==> d in multiset(out[id]));
  }

  // ---- One owner per domain ----

  ghost predicate DistinctSites(s: seq<Site>) {
    forall i, j :: 0 <= i < j < |s| ==> s[i].id != s[j].id && s[i].domain != s[j].domain
  }

  ghost predicate DistinctAliases(s: seq<Alias>) {
    forall i, j :: 0 <= i < j < |s| ==> s[i].domain != s[j].domain
  }

  ghost predicate Sound(db: Db) {
    && DistinctSites(db.sites)
    && (forall s :: s in db.sites ==> s.id < db.nextSite && Valid(s.domain))
    && DistinctAliases(db.aliases)
    && (forall a :: a in db.aliases ==> Valid(a.domain) && !HasSite(db.sites, a.domain))
  }

  predicate SiteExists(sites: seq<Site>, id: int) {
    exists s :: s in sites && s.id == id
  }

  ghost predicate AliasesHaveSites(db: Db) {
    forall a :: a in db.aliases ==> SiteExists(db.sites, a.siteID)
  }

  /** The site has the domain as its primary one or as an alias. */
  ghost predicate Owns(db: Db, siteID: int, domain: string) {
    (exists s :: s in db.sites && s.id == siteID && s.domain == domain) || Alias(siteID, domain) in db.aliases
  }

  lemma OneOwner(db: Db, a: int, b: int, domain: string)
    requires Sound(db) && Owns(db, a, domain) && Owns(db, b, domain)
    ensures a == b
  {
    hide Valid;
    if Alias(a, domain) in db.aliases && Alias(b, domain) in db.aliases {
      var i :| 0 <= i < |db.aliases| && db.aliases[i] == Alias(a, domain);
      var j :| 0 <= j < |db.aliases| && db.aliases[j] == Alias(b, domain);
      assert i == j;
    } else if Alias(a, domain) !in db.aliases && Alias(b, domain) !in db.aliases {
      var s :| s in db.sites && s.id == a && s.domain == domain;
      var t :| t in db.sites && t.id == b && t.domain == domain;
      var i :| 0 <= i < |db.sites| && db.sites[i] == s;
      var j :| 0 <= j < |db.sites| && db.sites[j] == t;
      assert i == j;
    }
  }

  datatype Op =
    | CreateOp(site: Site, query: bool, insert: bool)
    | AddDomainOp(siteID: int, name: string, query: bool, insert: bool)
    | DeleteOp(domain: string, tx: bool, commit: bool)
    | DeleteDomainOp(siteID: int, name: string, exec: bool)
    | SetOp(domain: string, status: string, config: string)

  function Apply(db: Db, op: Op): Db {
    match op
    case CreateOp(site, query, insert) => Create(db, site, query, insert).0
    case AddDomainOp(siteID, name, query, insert) => AddDomain(db, siteID, name, query, insert).0
    case DeleteOp(domain, tx, commit) => Delete(db, domain, tx, commit).0
    case DeleteDomainOp(siteID, name, exec) => DeleteDomain(db, siteID, name, exec).0
    case SetOp(domain, status, config) => db.(sites := SetFields(db.sites, domain, status, config))
  }

  function Run(db: Db, ops: seq<Op>): Db {
    if ops == [] then db else Apply(Run(db, ops[..|ops| - 1]), ops[|ops| - 1])
  }

  lemma {:induction false} WhereKeepsSites(s: seq<Site>, p: Site -> bool)
    requires DistinctSites(s)
    ensures DistinctSites(Where(s, p))
  {
    if s != [] {
      var t, x := s[..|s| - 1], s[|s| - 1];
      WhereKeepsSites(t, p);
      forall i | 0 <= i < |Where(t, p)| ensures Where(t, p)[i].id != x.id && Where(t, p)[i].domain != x.domain {
        assert Where(t, p)[i] in t;
      }
    }
  }

  lemma {:induction false} WhereKeepsAliases(s: seq<Alias>, p: Alias -> bool)
    requires DistinctAliases(s)
    ensures DistinctAliases(Where(s, p))
  {
    if s != [] {
      var t, x := s[..|s| - 1], s[|s| - 1];
      WhereKeepsAliases(t, p);
      forall i | 0 <= i < |Where(t, p)| ensures Where(t, p)[i].domain != x.domain {
        assert Where(t, p)[i] in t;
      }
    }
  }

  lemma SetFieldsKeepsKeys(sites: seq<Site>, domain: string, status: string, config: string)
    ensures var t := SetFields(sites, domain, status, config);
            |t| == |sites| && forall i :: 0 <= i < |t| ==> t[i].id == sites[i].id && t[i].domain == sites[i].domain
  {
  }

  lemma SetFieldsIsSound(db: Db, domain: string, status: string, config: string)
    requires Sound(db)
    ensures Sound(db.(sites := SetFields(db.sites, domain, status, config)))
  {
    SetFieldsKeepsKeys(db.sites, domain, status, config);
    var t := SetFields(db.sites, domain, status, config);
    hide SetFields, Valid;
    forall s | s in t ensures s.id < db.nextSite && Valid(s.domain) && HasSite(db.sites, s.domain) {
      var i :| 0 <= i < |t| && t[i] == s;
      assert db.sites[i] in db.sites;
    }
  }

  lemma SetFieldsKeepsAliases(db: Db, domain: string, status: string, config: string)
    ensures AliasesHaveSites(db) <==> AliasesHaveSites(db.(sites := SetFields(db.sites, domain, status, config)))
  {
    SetFieldsKeepsKeys(db.sites, domain, status, config);
    var t := SetFields(db.sites, domain, status, config);
    hide SetFields;
    forall id ensures SiteExists(t, id) <==> SiteExists(db.sites, id) {
      if s :| s in t && s.id == id {
        var i :| 0 <= i < |t| && t[i] == s;
        assert db.sites[i] in db.sites;
      }
      if s :| s in db.sites && s.id == id {
        var i :| 0 <= i < |t| && db.sites[i] == s;
        assert t[i] in t;
      }
    }
  }

  lemma DeleteIsSound(db: Db, domain: string)
    requires Sound(db)
    ensures Sound(db.(aliases := Where(db.aliases, NotAliasOf(SiteIds(db.sites, domain))),
                      sites := Where(db.sites, NotSite(domain))))
  {
    hide Valid, Where, NotSite, NotAliasOf, SiteIds, DistinctSites, DistinctAliases;
    var sites, aliases := Where(db.sites, NotSite(domain)), Where(db.aliases, NotAliasOf(SiteIds(db.sites, domain)));
    WhereKeepsSites(db.sites, NotSite(domain));
    WhereKeepsAliases(db.aliases, NotAliasOf(SiteIds(db.sites, domain)));
    assert forall s :: s in sites ==> s in db.sites;
    forall a | a in aliases ensures Valid(a.domain) && !HasSite(sites, a.domain) {
      assert a in db.aliases && !HasSite(db.sites, a.domain);
    }
  }

  lemma DeleteDomainIsSound(db: Db, p: Alias -> bool)
    requires Sound(db)
    ensures Sound(db.(aliases := Where(db.aliases, p)))
  {
    WhereKeepsAliases(db.aliases, p);
    hide Valid;
  }

  lemma ApplyKeepsSound(db: Db, op: Op)
    requires Sound(db)
    ensures Sound(Apply(db, op))
  {
    hide Valid, ValidateDomain;
    match op
    case CreateOp(_, _, _) =>
    case AddDomainOp(_, _, _, _) =>
    case DeleteOp(domain, _, _) =>
      if Apply(db, op) != db { DeleteIsSound(db, domain); }
    case DeleteDomainOp(siteID, name, _) =>
      DeleteDomainIsSound(db, OtherAlias(siteID, Lower(Trim(name))));
    case SetOp(domain, status, config) =>
      SetFieldsIsSound(db, domain, status, config);
  }

  lemma {:induction false} RunIsSound(db: Db, ops: seq<Op>)
    requires Sound(db)
    ensures Sound(Run(db, ops))
  {
    hide Apply, Sound;
    if ops != [] {
      RunIsSound(db, ops[..|ops| - 1]);
      ApplyKeepsSound(Run(db, ops[..|ops| - 1]), ops[|ops| - 1]);
    }
  }

  /** In every reachable state a domain belongs to at most one site, as primary domain or alias. */
  lemma OneOwnerAlways(ops: seq<Op>, a: int, b: int, domain: string)
    requires Owns(Run(Db([], [], 1), ops), a, domain) && Owns(Run(Db([], [], 1), ops), b, domain)
    ensures a == b
  {
    RunIsSound(Db([], [], 1), ops);
    OneOwner(Run(Db([], [], 1), ops), a, b, domain);
  }

  // ---- Every alias has a site ----

  /** An alias goes to an existing site, or is not added: it is invalid, taken, or a statement fails. */
  predicate AddsToExistingSite(db: Db, op: Op) {
    op.AddDomainOp? ==>
      var domain := Lower(Trim(op.name));
      || SiteExists(db.sites, op.siteID)
      || !Valid(domain) || HasSite(db.sites, domain) || HasAlias(db.aliases, domain)
      || !op.query || !op.insert
  }

  /** Adding an alias to a missing site is the one way to break it: the source does not check the site. */
  lemma ApplyKeepsAliasesIff(db: Db, op: Op)
    requires Sound(db) && AliasesHaveSites(db)
    ensures AliasesHaveSites(Apply(db, op)) <==> AddsToExistingSite(db, op)
  {
    hide Valid, ValidateDomain;
    match op
    case CreateOp(site, query, insert) =>
      forall a | a in db.aliases ensures SiteExists(Apply(db, op).sites, a.siteID) {
        var s :| s in db.sites && s.id == a.siteID;
        assert s in Apply(db, op).sites;
      }
    case AddDomainOp(siteID, name, query, insert) =>
      var db' := Apply(db, op);
      if AddDomain(db, siteID, name, query, insert).1.None? {
        assert db'.aliases[|db.aliases|] in db'.aliases;
      }
    case DeleteOp(domain, tx, commit) =>
      var db' := Apply(db, op);
      if db' != db {
        forall a | a in db'.aliases ensures SiteExists(db'.sites, a.siteID) {
          var s :| s in db.sites && s.id == a.siteID;
          assert s in db'.sites;
        }
      }
    case DeleteDomainOp(siteID, name, exec) =>
    case SetOp(domain, status, config) =>
      SetFieldsKeepsAliases(db, domain, status, config);
  }

  lemma {:induction false} AliasesHold(db: Db, ops: seq<Op>, n: nat)
    requires Sound(db) && AliasesHaveSites(db) && n <= |ops|
    requires forall k :: 0 <= k < n ==> AddsToExistingSite(Run(db, ops[..k]), ops[k])
    ensures AliasesHaveSites(Run(db, ops[..n]))
  {
    hide Apply, AliasesHaveSites, AddsToExistingSite, Sound;
    if n > 0 {
      AliasesHold(db, ops, n - 1);
      RunIsSound(db, ops[..n - 1]);
      assert ops[..n][..n - 1] == ops[..n - 1];
      ApplyKeepsAliasesIff(Run(db, ops[..n - 1]), ops[n - 1]);
    }
  }

  /** Along any run every alias has a site at every moment exactly when every added alias goes to an existing site. */
  lemma RunKeepsAliasesIff(db: Db, ops: seq<Op>)
    requires Sound(db) && AliasesHaveSites(db)
    ensures (forall k :: 0 <= k <= |ops| ==> AliasesHaveSites(Run(db, ops[..k]))) <==>
            (forall k :: 0 <= k < |ops| ==> AddsToExistingSite(Run(db, ops[..k]), ops[k]))
  {
    hide Apply, AliasesHaveSites, AddsToExistingSite, Sound;
    if forall k :: 0 <= k < |ops| ==> AddsToExistingSite(Run(db, ops[..k]), ops[k]) {
      forall k | 0 <= k <= |ops| ensures AliasesHaveSites(Run(db, ops[..k])) {
        AliasesHold(db, ops, k);
      }
    }
    if forall k :: 0 <= k <= |ops| ==> AliasesHaveSites(Run(db, ops[..k])) {
      forall k | 0 <= k < |ops| ensures AddsToExistingSite(Run(db, ops[..k]), ops[k]) {
        RunIsSound(db, ops[..k]);
        assert ops[..k + 1][..k] == ops[..k];
        assert AliasesHaveSites(Run(db, ops[..k])) && AliasesHaveSites(Run(db, ops[..k + 1]));
        ApplyKeepsAliasesIff(Run(db, ops[..k]), ops[k]);
      }
    }
  }

  // ---- What each write leaves in the tables, row by row and column by column ----

  /** What the caller left out is filled in; what it gave is kept. */
  ghost predicate FilledIn(row: Site, site: Site) {
    && row.domain == site.domain && row.userID == site.userID && row.config == site.config
    && row.status == (if site.status == "" then "active" else site.status)
    && (if site.ownerType == "" then row.ownerType == "user" && row.ownerID == site.userID
        else row.ownerType == site.ownerType && row.ownerID == site.ownerID)
  }

  /** Some site or alias has the domain. */
  ghost predicate Taken(db: Db, domain: string) {
    (exists s :: s in db.sites && s.domain == domain) || (exists a :: a in db.aliases && a.domain == domain)
  }

  lemma CreateWrites(db: Db, site: Site, query: bool, insert: bool)
    ensures var (db', res) := Create(db, site, query, insert);
            && (res.Ok? <==> Valid(site.domain) && query && !Taken(db, site.domain) && insert)
            && (!Valid(site.domain) ==> res == Err(InvalidDomain(ValidateDomain(site.domain))))
            && (Valid(site.domain) && query && Taken(db, site.domain) ==> res == Err(AlreadyRegistered))
            && (res.Err? ==> db' == db)
            && (res.Ok? ==>
                  && res.value == db.nextSite && db'.nextSite == db.nextSite + 1 && db'.aliases == db.aliases
                  && |db'.sites| == |db.sites| + 1 && db'.sites[..|db.sites|] == db.sites
                  && db'.sites[|db.sites|].id == db.nextSite && FilledIn(db'.sites[|db.sites|], site))
  {
    hide ValidateDomain;
  }

  lemma AddDomainWrites(db: Db, siteID: int, name: string, query: bool, insert: bool)
    ensures var (db', err) := AddDomain(db, siteID, name, query, insert);
            var domain := Lower(Trim(name));
            && (err == None <==> Valid(domain) && query && !Taken(db, domain) && insert)
            && (!Valid(domain) ==> err == Some(InvalidDomain(ValidateDomain(domain))))
            && (Valid(domain) && query && Taken(db, domain) ==> err == Some(AlreadyRegistered))
            && (err != None ==> db' == db)
            && (err == None ==>
                  && db'.sites == db.sites && db'.nextSite == db.nextSite
                  && |db'.aliases| == |db.aliases| + 1 && db'.aliases[..|db.aliases|] == db.aliases
                  && db'.aliases[|db.aliases|].siteID == siteID && db'.aliases[|db.aliases|].domain == domain)
  {
    hide ValidateDomain, Lower, Trim;
  }

  /** The site goes with its aliases; every other site and alias stays. */
  lemma DeleteWrites(db: Db, domain: string, tx: bool, commit: bool)
    ensures var (db', err) := Delete(db, domain, tx, commit);
            var known := exists s :: s in db.sites && s.domain == domain;
            && (err == None <==> tx && known && commit)
            && (err == Some(NotFound) <==> tx && !known)
            && (err != None ==> db' == db)
            && (err == None ==>
                  && (forall s :: multiset(db'.sites)[s] == if s.domain == domain then 0 else multiset(db.sites)[s])
                  && (forall a :: multiset(db'.aliases)[a] ==
                        if exists s :: s in db.sites && s.domain == domain && s.id == a.siteID then 0
                        else multiset(db.aliases)[a])
                  && db'.nextSite == db.nextSite)
  {
    hide Where;
    forall s ensures multiset(Where(db.sites, NotSite(domain)))[s] ==
                     if s.domain == domain then 0 else multiset(db.sites)[s]
    {
      WhereCounts(db.sites, NotSite(domain), s);
    }
    var gone := SiteIds(db.sites, domain);
    forall a ensures multiset(Where(db.aliases, NotAliasOf(gone)))[a] ==
                     if exists s :: s in db.sites && s.domain == domain && s.id == a.siteID then 0
                     else multiset(db.aliases)[a]
    {
      WhereCounts(db.aliases, NotAliasOf(gone), a);
      assert a.siteID in gone <==> exists s :: s in db.sites && s.domain == domain && s.id == a.siteID;
    }
  }

  /** Exactly that alias of that site goes; every other alias, the site's own included, stays. */
  lemma DeleteDomainWrites(db: Db, siteID: int, name: string, exec: bool)
    ensures var (db', err) := DeleteDomain(db, siteID, name, exec);
            && (err == None <==> exec)
            && db'.sites == db.sites && db'.nextSite == db.nextSite
            && (forall a :: multiset(db'.aliases)[a] ==
                  if exec && a.siteID == siteID && a.domain == Lower(Trim(name)) then 0 else multiset(db.aliases)[a])
  {
    hide Where, Lower, Trim;
    forall a ensures multiset(Where(db.aliases, OtherAlias(siteID, Lower(Trim(name)))))[a] ==
                     if a.siteID == siteID && a.domain == Lower(Trim(name)) then 0 else multiset(db.aliases)[a]
    {
      WhereCounts(db.aliases, OtherAlias(siteID, Lower(Trim(name))), a);
    }
  }

  /** The site's status and configuration are the given ones; nothing else changes. */
  lemma SetWrites(db: Db, domain: string, status: string, config: string)
    ensures var sites := Apply(db, SetOp(domain, status, config)).sites;
            && Apply(db, SetOp(domain, status, config)) == Db(sites, db.aliases, db.nextSite)
            && |sites| == |db.sites|
            && forall i :: 0 <= i < |sites| ==>
                 var was, row := db.sites[i], sites[i];
                 if was.domain != domain then row == was
                 else
                   && row.status == status && row.config == config
                   && row.id == was.id && row.domain == domain && row.userID == was.userID
                   && row.ownerType == was.ownerType && row.ownerID == was.ownerID
  {
  }
}
