/** internal/server/server.go and internal/vhost/table.go: from the site tables to the host routing table. */
module Routing {
  import opened Wrappers
  import opened Strings
  import opened Domains
  import opened Sorting
  import opened SiteStore

  // ---- Host header to key ----

  function LastIndex(s: string, c: char): (i: int)
    ensures -1 <= i < |s|
    ensures i >= 0 ==> s[i] == c
    ensures forall j :: i < j < |s| ==> s[j] != c
  {
    if s == "" then -1 else if s[|s| - 1] == c then |s| - 1 else LastIndex(s[..|s| - 1], c)
  }

  /** The host part of Go's net.SplitHostPort, or None where that reports an error. */
  function HostPart(hostport: string): Option<string> {
    var i := LastIndex(hostport, ':');
    if i < 0 then None
    else if hostport[0] == '[' then
      var end := Index(hostport, ']');
      if end < 0 || end + 1 != i then None
      else if '[' in hostport[1..] || ']' in hostport[end + 1..] then None
      else Some(hostport[1..end])
    else if ':' in hostport[..i] || '[' in hostport || ']' in hostport then None
    else Some(hostport[..i])
  }

  function Normalize(host: string): string {
    var h := match HostPart(host) case Some(h) => h case None => host;
    Lower(TrimSuffix(h, "."))
  }

  /** A Host header names a valid domain in any letter case, with or without a trailing dot or a port. */
  lemma NormalizeHostHeader(d: string, spelled: string, dot: string, port: string)
    requires Valid(d) && Lower(spelled) == d
    requires dot == "" || dot == "."
    requires port == "" || (port[0] == ':' && forall i :: 1 <= i < |port| ==>
             port[i] != ':' && port[i] != '[' && port[i] != ']')
    ensures Normalize(spelled + dot + port) == d
  {
    ValidFacts(d);
    hide Valid;
    var h := spelled + dot;
    forall i | 0 <= i < |h| ensures h[i] != ':' && h[i] != '[' && h[i] != ']' {
      if i < |spelled| { assert d[i] == LowerChar(spelled[i]) && d[i] in d; }
    }
    assert LowerChar(spelled[|spelled| - 1]) == d[|d| - 1];
    var host := h + port;
    if port == "" {
      assert host == h && HostPart(host) == None;
    } else {
      assert host[|h|] == ':';
      assert LastIndex(host, ':') == |h|;
      assert host[..|h|] == h;
      assert host[0] == h[0];
      forall i | 0 <= i < |host| ensures host[i] != '[' && host[i] != ']' {
        if i > |h| { assert host[i] == port[i - |h|]; }
      }
      assert HostPart(host) == Some(h);
    }
    if dot == "." {
      assert HasSuffix(h, ".") && h[..|h| - 1] == spelled;
    } else {
      assert h == spelled && !HasSuffix(h, ".");
    }
  }

  lemma NormalizeValid(d: string)
    requires Valid(d)
    ensures Normalize(d) == d
  {
    ValidFacts(d);
    NormalizeHostHeader(d, d, "", "");
    assert d + "" + "" == d;
  }

  // ---- The table ----

  datatype Route<H> = Route(domain: string, handler: H)

  class Table<H> {
    var routes: map<string, Route<H>>

    constructor ()
      ensures routes == map[]
    {
      routes := map[];
    }

    method Get(host: string) returns (route: Option<Route<H>>)
      ensures route == if host != "" && Normalize(host) in routes then Some(routes[Normalize(host)]) else None
    {
      if host == "" { return None; }
      var key := Normalize(host);
      return if key in routes then Some(routes[key]) else None;
    }

    method Upsert(r: Route<H>)
      modifies this
      ensures routes == old(routes)[Normalize(r.domain) := r]
    {
      routes := routes[Normalize(r.domain) := r];
    }

    method Remove(domain: string)
      modifies this
      ensures routes == old(routes) - {Normalize(domain)}
    {
      routes := routes - {Normalize(domain)};
    }

    method Domains() returns (out: seq<string>)
      ensures forall d :: d in out <==> d in routes
      ensures Ascending(out)
    {
      out := [];
      var pending := routes.Keys;
      while pending != {}
        invariant pending <= routes.Keys
        invariant forall d :: d in out <==> d in routes && d !in pending
        invariant DistinctKeys(out, Itself)
        decreases pending
      {
        var d :| d in pending;
        out, pending := out + [d], pending - {d};
      }
      SortedTextIs(out);
      out := SortedText(out);
    }
  }

  // ---- Building it ----

  /** The site is active and its handler can be built. */
  predicate Buildable<H>(s: Site, build: Site -> Option<H>) {
    s.status == "active" && build(s).Some?
  }

  /** The domains a site is routed under, given the aliases that could be loaded. */
  predicate Claims(s: Site, aliases: map<int, seq<string>>, d: string) {
    d == s.domain || (s.id in aliases && d in aliases[s.id])
  }

  /** No two listed sites claim the same domain, and all claims are valid domains. */
  ghost predicate Unambiguous(sites: seq<Site>, aliases: map<int, seq<string>>) {
    && (forall s, d :: s in sites && Claims(s, aliases, d) ==> Valid(d))
    && (forall s, t, d :: s in sites && t in sites && Claims(s, aliases, d) && Claims(t, aliases, d) ==> s == t)
  }

  /** `routes` holds exactly the claims of the buildable sites, each with its own site's handler. */
  ghost predicate RoutesAre<H(!new)>(routes: map<string, Route<H>>, sites: seq<Site>, aliases: map<int, seq<string>>,
                                     build: Site -> Option<H>) {
    && (forall d :: d in routes ==> exists s :: s in sites && Buildable(s, build) && Claims(s, aliases, d))
    && (forall s, d :: s in sites && Buildable(s, build) && Claims(s, aliases, d) ==>
          d in routes && routes[d] == Route(d, build(s).value))
  }

  /** Every alias of one site goes to the site's handler. */
  method UpsertAliases<H>(table: Table<H>, extra: seq<string>, h: H)
    requires forall d :: d in extra ==> Valid(d)
    modifies table
    ensures forall d :: d in table.routes <==> d in old(table.routes) || d in extra
    ensures forall d :: d in table.routes ==>
            table.routes[d] == if d in extra then Route(d, h) else old(table.routes)[d]
  {
    hide Valid;
    for j := 0 to |extra|
      invariant forall d :: d in table.routes <==> d in old(table.routes) || d in extra[..j]
      invariant forall d :: d in table.routes ==>
        table.routes[d] == if d in extra[..j] then Route(d, h) else old(table.routes)[d]
    {
      assert extra[..j + 1] == extra[..j] + [extra[j]];
      NormalizeValid(extra[j]);
      table.Upsert(Route(extra[j], h));
    }
    assert extra[..|extra|] == extra;
  }

  /** One turn of the loop: a site that is inactive or cannot be built is skipped. */
  method RouteSite<H(!new)>(table: Table<H>, s: Site, aliases: map<int, seq<string>>, build: Site -> Option<H>,
                             ghost earlier: seq<Site>)
    requires RoutesAre(table.routes, earlier, aliases, build)
    requires forall d :: Claims(s, aliases, d) ==> Valid(d)
    requires forall x, d :: x in earlier && Claims(x, aliases, d) && Claims(s, aliases, d) ==> x == s
    modifies table
    ensures RoutesAre(table.routes, earlier + [s], aliases, build)
  {
    hide Valid;
    ghost var before := table.routes;
    if s.status != "active" || build(s).None? {
      SiteSkipped(before, earlier, s, aliases, build);
      return;
    }
    hide RoutesAre;
    var h := build(s).value;
    assert Claims(s, aliases, s.domain);
    NormalizeValid(s.domain);
    table.Upsert(Route(s.domain, h));
    var extra := if s.id in aliases then aliases[s.id] else [];
    assert forall d :: d in extra ==> Claims(s, aliases, d);
    UpsertAliases(table, extra, h);
    SiteAdded(before, table.routes, earlier, s, aliases, build);
  }

  method BuildTable<H(!new)>(sites: seq<Site>, aliases: map<int, seq<string>>, build: Site -> Option<H>)
      returns (table: Table<H>)
    requires Unambiguous(sites, aliases)
    ensures fresh(table) && RoutesAre(table.routes, sites, aliases, build)
  {
    table := new Table();
    for i := 0 to |sites|
      invariant fresh(table) && RoutesAre(table.routes, sites[..i], aliases, build)
    {
      hide RoutesAre, Valid, Claims;
      assert sites[i] in sites && forall x :: x in sites[..i] ==> x in sites;
      RouteSite(table, sites[i], aliases, build, sites[..i]);
      assert sites[..i + 1] == sites[..i] + [sites[i]];
    }
    assert sites[..|sites|] == sites;
  }

  lemma SiteSkipped<H(!new)>(routes: map<string, Route<H>>, sites: seq<Site>, s: Site,
                             aliases: map<int, seq<string>>, build: Site -> Option<H>)
    requires !Buildable(s, build) && RoutesAre(routes, sites, aliases, build)
    ensures RoutesAre(routes, sites + [s], aliases, build)
  {
    hide Claims, Buildable;
    var all := sites + [s];
    assert forall x :: x in sites ==> x in all;
  }

  lemma SiteAdded<H(!new)>(before: map<string, Route<H>>, after: map<string, Route<H>>, sites: seq<Site>, s: Site,
                           aliases: map<int, seq<string>>, build: Site -> Option<H>)
    requires Buildable(s, build) && RoutesAre(before, sites, aliases, build)
    requires forall x, d :: x in sites && Claims(x, aliases, d) && Claims(s, aliases, d) ==> x == s
    requires var extra := if s.id in aliases then aliases[s.id] else [];
             && (forall d :: d in after <==> d in before || d == s.domain || d in extra)
             && (forall d :: d in after ==>
                   after[d] == if d == s.domain || d in extra then Route(d, build(s).value) else before[d])
    ensures RoutesAre(after, sites + [s], aliases, build)
  {
    assert forall d :: Claims(s, aliases, d) <==> d == s.domain || (s.id in aliases && d in aliases[s.id]);
    hide Claims, Buildable;
    var all := sites + [s];
    forall d | d in after ensures exists x :: x in all && Buildable(x, build) && Claims(x, aliases, d) {
      if Claims(s, aliases, d) {
        assert s in all;
      } else {
        var x :| x in sites && Buildable(x, build) && Claims(x, aliases, d);
        assert x in all;
      }
    }
  }

  // ---- From the tables to the answer ----

  /** Aliases as AllSiteDomains delivers them. */
  ghost predicate Grouped(aliases: map<int, seq<string>>, rows: seq<Alias>) {
    forall id, d :: id in aliases && d in aliases[id] <==> Alias(id, d) in rows
  }

  lemma GroupingIsGrouped(aliases: map<int, seq<string>>, rows: seq<Alias>)
    requires IsGrouping(aliases, rows)
    ensures Grouped(aliases, rows)
  {
    hide IsGrouping;
    forall id, d ensures id in aliases && d in aliases[id] <==> Alias(id, d) in rows {
      GroupingLists(aliases, rows, id, d);
    }
  }

  lemma SoundIsUnambiguous(db: Db, aliases: map<int, seq<string>>)
    requires SiteStore.Sound(db) && (Grouped(aliases, db.aliases) || aliases == map[])
    ensures Unambiguous(db.sites, aliases)
  {
    hide Valid;
    forall s, d | s in db.sites && Claims(s, aliases, d) ensures Valid(d) && Owns(db, s.id, d) {
      if d != s.domain { assert Alias(s.id, d) in db.aliases; }
    }
    forall s, t, d | s in db.sites && t in db.sites && Claims(s, aliases, d) && Claims(t, aliases, d) ensures s == t {
      OneOwner(db, s.id, t.id, d);
      var i :| 0 <= i < |db.sites| && db.sites[i] == s;
      var j :| 0 <= j < |db.sites| && db.sites[j] == t;
      assert i == j;
    }
  }

  /** The site is routed under the domain: it owns it, and if only the sites could be read it is the primary one. */
  ghost predicate RoutedFor(db: Db, s: Site, d: string, read: bool) {
    Owns(db, s.id, d) && (read || s.domain == d)
  }

  /** The aliases, or none if they cannot be read. */
  method LoadAliases(store: Store, read: bool) returns (aliases: map<int, seq<string>>)
    ensures if read then Grouped(aliases, store.aliases) else aliases == map[]
  {
    hide IsGrouping, Grouped;
    if !read { return map[]; }
    aliases := store.AllSiteDomains();
    GroupingIsGrouped(aliases, store.aliases);
  }

  /** What a table built from the sites and their claims holds for one domain. */
  lemma RoutesAnswer<H(!new)>(routes: map<string, Route<H>>, db: Db, aliases: map<int, seq<string>>,
                              build: Site -> Option<H>, d: string, read: bool)
    requires SiteStore.Sound(db) && (if read then Grouped(aliases, db.aliases) else aliases == map[])
    requires RoutesAre(routes, db.sites, aliases, build)
    ensures d in routes <==> exists s :: s in db.sites && Buildable(s, build) && RoutedFor(db, s, d, read)
    ensures forall s :: s in db.sites && Buildable(s, build) && RoutedFor(db, s, d, read) ==>
              d in routes && routes[d] == Route(d, build(s).value)
  {
    RoutedIffClaims(db, aliases, d, read);
    hide RoutedFor, Claims, Sound, Grouped, Buildable;
  }

  /** In every reachable state of the tables, building and looking up a domain, however the Host header spells it,
      gives the handler of the one active buildable site that owns the domain, or nothing when there is none. When the
      aliases cannot be read only primary domains are routed, still to their own sites. */
  method RouteRequest<H(!new)>(store: Store, ghost ops: seq<Op>, read: bool, build: Site -> Option<H>, ghost d: string,
                               host: string)
      returns (route: Option<Route<H>>)
    requires store.Tables() == Run(Db([], [], 1), ops)
    requires Valid(d) && Normalize(host) == d
    ensures route.Some? <==>
            exists s :: s in store.sites && s.status == "active" && build(s).Some?
              && RoutedFor(store.Tables(), s, d, read)
    ensures forall s :: s in store.sites && s.status == "active" && build(s).Some?
                        && RoutedFor(store.Tables(), s, d, read) ==>
              route == Some(Route(d, build(s).value))
  {
    RunIsSound(Db([], [], 1), ops);
    ValidFacts(d);
    assert host != "" by { assert Normalize("") == ""; }
    hide RoutedFor, Run, Sound, Valid, RoutesAre, Grouped, Unambiguous, Normalize;
    var aliases := LoadAliases(store, read);
    SoundIsUnambiguous(store.Tables(), aliases);
    var table := BuildTable(store.sites, aliases, build);
    RoutesAnswer(table.routes, store.Tables(), aliases, build, d, read);
    route := table.Get(host);
  }

  lemma RoutedIffClaims(db: Db, aliases: map<int, seq<string>>, d: string, read: bool)
    requires SiteStore.Sound(db) && (if read then Grouped(aliases, db.aliases) else aliases == map[])
    ensures forall s :: s in db.sites ==> (RoutedFor(db, s, d, read) <==> Claims(s, aliases, d))
  {
    hide Valid;
    forall s | s in db.sites && Owns(db, s.id, d) && Alias(s.id, d) !in db.aliases ensures s.domain == d {
      var t :| t in db.sites && t.id == s.id && t.domain == d;
      var i :| 0 <= i < |db.sites| && db.sites[i] == s;
      var j :| 0 <= j < |db.sites| && db.sites[j] == t;
      assert i == j;
    }
  }
}
