# Lamund: a verified model of the hosting daemon's core

Lamund is a single-binary hosting daemon. This project models, in Dafny, the parts of it that carry algorithms,
state machines and invariants across components, and proves what they are for:

- **Authoritative DNS** (`Domains`, `DnsStore`, `DnsEffects`, `DnsSerial`, `DnsZones`, `RateLimit`, `DnsHandler`,
  `DnsVersions`, `Provisioning`, `AcmeProvider`, `CertDomains`): the zone and record tables with their transactions, the index compiled from them,
  the search in it, the answer to a query, the per-subnet token bucket, the provisioning of addresses, ACME
  challenges, and the names certificates are requested for.
- **User search** (`EditDistance`, `UserRanking`): edit distance and the ranked top matches, sorted by `Sorting`.
- **App runtime** (`Supervisor`, `BlueGreen`): restart accounting and the blue-green swap.
- **Caches and limiters** (`RespCache`, `SlidingWindow`).
- **Domain ownership and routing** (`SiteStore`, `Routing`).
- **Schema migration** (`Migration`): many processes racing to migrate one database.

Code that changes state is a class or a method with the source's own fields and loops. Its contract ties the new state
to a function on values, and the lemmas beside it say what that function is worth. Tables are sequences in insertion
order; a transaction works on copies and assigns them at commit. Every statement of a transaction may fail: an `Io`,
`Attempt` or `Luck` value says which ones do. Clock readings are parameters of type `real`, and "nondecreasing clock"
is stated where it is needed.

`hide` statements only keep definitions out of the solver's sight; they add no assumption.

## What does not hold as one might expect

- A zone's serial is a version number of its records per zone id, and per domain only as long as no drop of the
  domain's zone succeeds (`DnsSerial.SerialIsVersionByDomain`). A zone created for the domain afterwards has a larger
  serial than the old one exactly when the serial asked for, 1 by default, is larger
  (`DnsSerial.RecreatedZoneExceedsIff`; `DnsSerial.RecreatedZoneStartsOver` goes from 2 to 1).
- The tables do not force every record to have a zone, nor every alias a site. Along a run they all have one at every
  moment exactly when every insert names an existing one (`DnsSerial.RunKeepsReferencesIff`,
  `SiteStore.RunKeepsAliasesIff`).
- Appending and then deleting ACME challenges restores the records exactly when none of the rows was there before
  (`AcmeProvider.AppendThenDeleteRestoresIff`).
- The blue-green swap ignores the errors of the start and of the two store writes, its probe takes whoever listens on
  the new port for the new instance, and it stops the old instance anyway. `BlueGreen.AlwaysServedIff` and
  `BlueGreen.SuccessfulSwapAgreesIff` say exactly when that matters.
- The swap computes the new port from the app row read when the deploy was requested. A deploy requested while another
  swap is still probing and run after it starts on the port in use, whose instance answers the probe and is then
  stopped (`BlueGreen.StaleSwapFails`).
- Nobody keeps the new port free. A new app gets the largest port plus one, which can be it
  (`BlueGreen.NewAppTakesPairedPort`); so can an instance of a swap rolled back before, if its stop request was lost or
  not yet obeyed (`BlueGreen.RolledBackInstanceMustBeGone`).
- The response cache records the last status a handler writes and the headers it leaves behind; the connection sends
  the first final status and the headers as they were then, and no body after 204 or 304. `RespCache.ReplayIff` says
  exactly when status, headers and body of a stored reply are those that were sent, `RespCache.LateStatusIsStored` has
  a 500 stored as a 200.
- The check that keeps private headers out of the cache looks only when a status is recorded. Headers made private
  later, or by a handler that never writes, are stored (`RespCache.PrivateHeadersStoredIff`,
  `RespCache.LateHeaderIsStored`, `RespCache.UnwrittenReplyIsStored`).
- The comment on `Cache` (internal/site/middleware.go:113-115) promises `X-Lamund-Cache: HIT` or `MISS`; the code sets
  it on hits only.
- The login limiter's window is half-open. A closed window of the same length can hold twice `maxHits` allowed
  attempts and no more (`SlidingWindow.ClosedWindowBound`, `SlidingWindow.ClosedWindowBoundIsTight`); closed windows
  obey the limit exactly when they are shorter (`SlidingWindow.ClosedWindowObeysLimitIff`).
- A stop request that arrives between a decision to spawn and the spawn is lost, at no other time
  (`Supervisor.StopIsFinalIff`).
- The comment on `Find` (internal/dns/zones.go:73) lists the root `.` among the names tried; the loop stops before it.
- `altPort` is its own inverse exactly on 40000 to 59999 (`BlueGreen.AltPortInvolutionIff`).

## Model

| member | source | states |
|---|---|---|
| EditDistance.Levenshtein | internal/api/usersearch.go:88-113 | the row-by-row loops over `prev` and `cur` return the distance of the two strings, whose meaning the next rows give |
| EditDistance.DistanceIsShortestScript | internal/api/usersearch.go:86-113 | the distance is the length of a shortest script of single insertions, deletions and substitutions anywhere in the string: one of that length exists and none is shorter |
| EditDistance.DistanceIsMetric | internal/api/usersearch.go:86-113 | zero exactly on equal strings, symmetric, triangle inequality |
| UserRanking.RankUserMatches | internal/api/usersearch.go:43-84 | the scoring loop, sort and truncation return the first `limit` users of the sorted matches |
| UserRanking.ScoreIs | internal/api/usersearch.go:50-65 | a candidate is scored exactly if its lower-case username is the query, starts with it, contains it or is at most 2 edits from it, or its name contains it; rank and tie are the first of these that holds and its length, position or number of edits |
| UserRanking.OccursIff | internal/api/usersearch.go:54-55 | the query occurs at a position exactly if the string is something of that length, the query and something else |
| UserRanking.BestIsSorted | internal/api/usersearch.go:34-42 | the result holds at most `limit` users, all of them matching, each before the next: exact, then prefix, shorter first, then inner occurrence, earlier first, then typo, fewer edits first, then name; among equals by username |
| UserRanking.OmittedComeAfter | internal/api/usersearch.go:42-78 | a match that is not returned comes, in that order, after every returned one, and then exactly `limit` are returned |
| UserRanking.ExactMatchIsFirst | internal/api/usersearch.go:11-13 | if some username is the query, the first result is such a user |
| UserRanking.SortedIsUnique | internal/api/usersearch.go:67-75 | two sorted arrangements of the same rows are equal, so any sort gives this result |
| UserRanking.BestIgnoresInputOrder | internal/api/usersearch.go:43-84 | candidates in another order give the same result |
| Domains.ValidateDomainIff | internal/store/domain.go:11-36 | a string is accepted exactly when it is at most 253 characters, has a dot, every character fits its place and no 64 characters in a row are free of dots |
| Domains.VerdictIs | internal/store/domain.go:11-21 | length, wildcard and missing dot are reported exactly when they are the first thing wrong with the whole name |
| Domains.LabelVerdict | internal/store/domain.go:22-36 | the first bad label decides, with its length, then its ends, then its characters |
| Domains.CoversIffPeeled | internal/dns/zones.go:70-87 | peeling labels off a name reaches an apex exactly when the apex equals the name or is a suffix of it at a label boundary |
| RateLimit.Limiter.EvictIdle | internal/dns/handler.go:117-126 | the deletion loop leaves exactly the buckets seen within the last 5 seconds |
| RateLimit.Limiter.Allow | internal/dns/handler.go:78-115 | one query: eviction when a new subnet meets a full table, refill, cap, and one token taken if there is one |
| RateLimit.EvictionIsUnobservable | internal/dns/handler.go:90-126 | over every run whose steps follow their clock readings, or lag behind them by at most 3 seconds, the decisions equal those of a limiter that never evicts |
| RateLimit.RateBound | internal/dns/handler.go:38-42 | in any run and any interval [s, t] one subnet gets at most 40 + 20(t - s) allowed queries |
| RateLimit.TokensStayInRange | internal/dns/handler.go:100-114 | after any run every bucket holds between 0 and 40 tokens |
| RateLimit.SpacedQueriesNeverDropped | internal/dns/handler.go:100-114 | a subnet whose queries are at least 1/20 s apart is never dropped, whatever the others do |
| RateLimit.BurstIsExact | internal/dns/handler.go:96-114 | of simultaneous queries from one subnet with `used` tokens gone exactly the first 40 - `used` pass, so the bound is reached |
| RateLimit.TableIsContained | internal/dns/handler.go:85-97 | after every run the table holds at most 4096 buckets, or none of its buckets had been idle for 5 seconds when the last one was made |
| RateLimit.EvictsOnlyIdleWhenFull | internal/dns/handler.go:91-97 | a bucket goes only when a new subnet meets a table of 4096 and the bucket has been idle for 5 seconds |
| DnsStore.Store.AddDNSRecord | internal/store/dns.go:262-291 | canonical row under a fresh id and one serial increment if every statement succeeds, else nothing changes |
| DnsStore.Store.UpdateDNSRecord | internal/store/dns.go:294-319 | the row's value, ttl and priority and the serial change together, or an error and nothing changes; DnsEffects.UpdateWrites says what is written |
| DnsStore.Store.DeleteDNSRecord | internal/store/dns.go:322-344 | the row goes and the serial is bumped, or an error and nothing changes |
| DnsStore.Store.DeleteDNSRecordsMatching | internal/store/dns.go:384-419 | all rows equal on zone, name, type and value go; the serial is bumped exactly if there were any |
| DnsStore.Store.AddDNSRecordIfAbsent | internal/store/dns.go:426-443 | inserts only when no row agrees on zone, name, type and value |
| DnsStore.Store.CreateDNSZoneWithSettings | internal/store/dns.go:82-154 | validated, defaulted zone under a fresh id with its NS rows, or an error and nothing changes |
| DnsStore.Store.DeleteDNSZone | internal/store/dns.go:211-237 | the zone goes with all its records, or an error and nothing changes |
| DnsEffects.AddWrites | internal/store/dns.go:262-291 | the row added has exactly the given value, ttl and priority, its name trimmed in lower and its type in upper case, and one serial is one higher; nothing else changes |
| DnsEffects.UpdateWrites | internal/store/dns.go:294-319 | success exactly if every statement succeeds and the row exists; then it has exactly the given value, ttl and priority and its old id, zone, name and type, and every other row is as it was |
| DnsEffects.DeleteWrites | internal/store/dns.go:322-344 | success exactly if every statement succeeds and the row exists; then exactly that row goes and the others keep their order |
| DnsEffects.DeleteMatchingWrites | internal/store/dns.go:384-419 | exactly the rows equal in zone, canonical name and type, and value go, all others stay, and their number is reported |
| DnsEffects.AddIfAbsentWrites | internal/store/dns.go:426-443 | reports and inserts exactly if no row is equal in zone, canonical name and type, and value |
| DnsEffects.CreateZoneWrites | internal/store/dns.go:82-154 | when a zone is created, with which columns and defaults and which NS rows, and with which error it is refused |
| DnsEffects.DeleteZoneWrites | internal/store/dns.go:211-237 | the domain's zone and its records go, and no other zone or record does |
| DnsStore.Store.FindDNSZoneForDomain | internal/store/dns.go:353-378 | the scan's best zone and the label, whose meaning ZoneForIsLongestCover and LabelRoundTrip give |
| DnsStore.Store.AllDNSData | internal/store/dns.go:447-479 | all zones by domain, each zone id mapped to exactly its records, and the settings, or an error |
| DnsStore.RowsOfZoneInOrder | internal/store/dns.go:453-468 | each zone's records come ordered by name and type, none lost and none twice |
| DnsStore.ZonesInOrder | internal/store/dns.go:173-180 | the zones come by domain, none lost and none twice |
| DnsStore.ZoneForIsLongestCover | internal/store/dns.go:346-352 | a zone is found exactly when some zone covers the domain, and it is the one covering zone with the longest apex |
| DnsSerial.FailedOpChangesNothing | internal/store/dns.go:211-443 | an operation that reports an error leaves both tables as they were |
| DnsSerial.SerialIsVersion | internal/store/dns.go:59-63 | between any two moments of any run at which a zone exists its serial does not fall, and equal serials mean equal records |
| DnsSerial.SameZoneUntilDropped | internal/store/dns.go:211-237 | a zone id is still the domain's later in a run exactly when no drop of the domain succeeded in between |
| DnsSerial.SerialIsVersionByDomain | internal/store/dns.go:59-63 | the same for the domain's serial, between two moments with no successful drop of the domain between them |
| DnsSerial.RecreatedZoneExceedsIff | internal/store/dns.go:82-154 | a domain created anew later in a run was dropped in between and has a new zone id, and its serial exceeds the old one exactly when the serial asked for does |
| DnsSerial.ApplyKeepsSound | internal/store/dns.go:82-443 | every operation keeps ids unique and zone domains valid and distinct |
| DnsSerial.ApplyKeepsReferencesIff | internal/store/dns.go:209-443 | an operation keeps every record's zone existing exactly when an insert names an existing zone, finds the record present, or has a failing statement |
| DnsSerial.RunKeepsReferencesIff | internal/store/dns.go:209-443 | along any run every record's zone exists at every moment exactly when every insert of the run is of that kind |
| DnsSerial.RecreatedZoneStartsOver | internal/store/dns.go:82-154 | the witness: create, add, drop, create takes a domain's serial from 2 back to 1 |
| DnsZones.FilterByType | internal/dns/zones.go:234-246 | the loop yields the renderable records of the type, in order |
| DnsZones.NS | internal/dns/zones.go:176-195 | the loop yields just what a type-NS lookup at the apex yields |
| DnsZones.Match | internal/dns/zones.go:202-230 | exact owner first, else the apex wildcard, else unknown |
| DnsZones.BuildSnapshot | internal/dns/zones.go:90-132 | from the store's tables: for every zone the index lists under each owner name exactly the zone's rows with that owner in order, and holds nothing else; None if a table cannot be read |
| DnsZones.Zones.Find | internal/dns/zones.go:70-87 | the label-peeling loop, whose meaning FindIsLongestSuffix gives |
| DnsZones.FindIsLongestSuffix | internal/dns/zones.go:67-69 | the search returns the zone of the longest label-boundary suffix that is a key, and nothing exactly when there is none |
| DnsZones.FindAgreesWithStore | internal/dns/zones.go:70-87 | for every domain, peeling labels over the index and scanning all zones for the longest apex pick the same zone, or both none |
| DnsZones.OwnerNameInjective | internal/dns/zones.go:115-125 | two canonical record names of a zone have the same owner name only if they are equal |
| DnsZones.LabelRoundTrip | internal/store/dns.go:373-377 | the label computed for a domain has exactly that domain as its owner name |
| DnsZones.MailboxIs | internal/dns/zones.go:145-156 | the SOA mailbox: a name under the apex by default, a name as it is, an e-mail address with the dots of its local part escaped and a dot for the `@` |
| DnsHandler.Handler.ServeDNS | internal/dns/handler.go:140-243 | refusals leave the limiter alone; a hosted query is dropped exactly when the limiter says so, else gets the zone's reply |
| DnsHandler.IndexAnswersLikeScan | internal/dns/handler.go:140-243 | serving from the index gives the same refusals and the same reply as scanning the tables' rows in the store's own choice of zone |
| DnsHandler.NxdomainIff | internal/dns/handler.go:235-240 | away from ANY and the apex SOA the served reply is NXDOMAIN exactly when no record of the zone spells the name and none is named `*` |
| DnsHandler.AuthorityIffNegative | internal/dns/handler.go:235-238 | served answers come without authority, served negative replies with exactly one SOA, which carries the zone row's serial and timers, the configured nameserver and mailbox (sections 2.1 and 2.2 of RFC 2308) |
| DnsHandler.ApexSoaIsServed | internal/dns/handler.go:198-203 | the apex SOA query is answered with that SOA, whatever the records are |
| DnsHandler.AnswersIff | internal/dns/handler.go:217-233 | an answer is served exactly if it says what a record speaking for the name says, type, ttl and value, and has the asked type or, if no such record has anything of that type to say, is a CNAME |
| DnsHandler.AnswersAre | internal/dns/zones.go:234-246 | one answer for each such record, in the records' order |
| DnsHandler.QNameIs | internal/dns/handler.go:148-152 | a query name counts the same with and without trailing dot and in any letter case |
| DnsVersions.ApexSerialIsVersion | internal/dns/zones.go:158-172 | of the same zone at two moments of a run fewer than 2^32 operations apart, equal served serials mean equal records, and else their difference modulo 2^32 is what the zone's serial has risen by |
| DnsVersions.RunRaisesByLength | internal/store/dns.go:59-63 | along a run a serial rises by at most the number of operations |
| DnsHandler.AnyIsMinimal | internal/dns/handler.go:180-196 | two snapshots of the same zones with any records serve the same reply to ANY, one HINFO with the zone's minimum as ttl (section 4.2 of RFC 8482) |
| Provisioning.ProvisionZoneRecords | internal/api/dns.go:68-100 | the loop over the configured addresses: blanks and unparsable ones skipped, failures skipped, reload asked for exactly if something was added |
| Provisioning.AutoProvisionDNS | internal/api/dns.go:58-64 | provisions the domain's label in its zone if the caller may access it |
| Provisioning.ProvisionedIsServed | internal/api/dns.go:56-100 | after provisioning a valid domain and rebuilding the index, the query for it that passes the limiter is answered NOERROR with every configured address of that family whose insert did not fail |
| Provisioning.ProvisionAddsOnly | internal/api/dns.go:68-100 | every row added is a configured address under the host, of the address's family, with ttl 300 and no priority |
| Provisioning.ReloadIff | internal/api/dns.go:84-100 | a reload is asked for exactly if records were added |
| AcmeProvider.AppendRecords | internal/dns/acmeprovider.go:34-67 | an unmanaged zone is an error and changes nothing; else the TXT challenges are added one by one up to the first failure, with a reload exactly if one was new |
| AcmeProvider.DeleteRecords | internal/dns/acmeprovider.go:73-100 | an unmanaged zone is an error and changes nothing; else the TXT challenges' rows are deleted one by one up to the first failure |
| AcmeProvider.AppendIsIdempotent | internal/dns/acmeprovider.go:34-67 | appending the same challenges again changes neither table and asks for no reload |
| AcmeProvider.AppendedColumns | internal/dns/acmeprovider.go:44-56 | every row added has ttl 60 and no priority |
| AcmeProvider.ChangedIff | internal/dns/acmeprovider.go:40-100 | a reload is called for exactly if records were added, or deleted |
| AcmeProvider.AppendThenDeleteRestoresIff | internal/dns/acmeprovider.go:34-100 | append then delete restores exactly the original records if and only if none of the listed rows was there before, duplicates and letter case included; the serial strictly advances if and only if a TXT challenge was listed, by more than the number of rows added |
| CertDomains.CertNames | cmd/lamund/serve.go:196-222 | the first occurrences of all the names asked for, domain by domain, each with its own listing of the zones |
| CertDomains.CertNamesAre | cmd/lamund/serve.go:192-199 | no duplicates, exactly the names called for by the listed domains, in the order in which the list first asks for them |
| CertDomains.EveryDomainCertified | cmd/lamund/serve.go:192-222 | every valid listed domain is covered by a requested name, itself or a wildcard for exactly one label (section 6.4.3 of RFC 6125), nested zones included |
| CertDomains.ManagedZoneRequested | cmd/lamund/serve.go:207-209 | for every listed domain in a managed zone both the zone's apex and its wildcard are requested |
| CertDomains.OnlyCalledFor | cmd/lamund/serve.go:204-219 | a requested name is the apex or wildcard of the longest zone covering a listed domain, or a listed domain that no managed zone covers or that is neither its apex nor a name its wildcard stands for |
| Supervisor.Process.Spawn | internal/runner/supervisor.go:156-199 | running from `now` with the stop request cleared, or crashed for good |
| Supervisor.Process.Exited | internal/runner/supervisor.go:201-225 | stopped if asked to; else the count is reset after a stable uptime, incremented, and compared with the limit |
| Supervisor.Process.Awoken | internal/runner/supervisor.go:227-236 | respawns exactly if no stop was asked for meanwhile |
| Supervisor.RestartsCountRecentCrashes | internal/runner/supervisor.go:212-215 | over every life of a record, `restarts` is the number of crashes since and including the last one after an uptime over `stable`; crashes and uptimes are read off the life's events alone |
| Supervisor.FieldsTellEvents | internal/runner/supervisor.go:190-196 | while the process is up its start time is that of the last start, and a stop is pending exactly if one was asked for since |
| Supervisor.CrashRestartsIff | internal/runner/supervisor.go:201-236 | a crash is followed by another start exactly if no stop is pending and the count is within the limit |
| Supervisor.FailedIffTooMany | internal/runner/supervisor.go:217-222 | the record is failed exactly when those crashes exceed the limit, and nothing is then running or waiting |
| Supervisor.NeverAfterFailing | internal/runner/supervisor.go:217-235 | a failed record stays failed and is never spawned again |
| Supervisor.SpawnBound | internal/runner/supervisor.go:83 | without a stable uptime the command is started at most maxRestarts + 1 times |
| Supervisor.StopIsFinalIff | internal/runner/supervisor.go:190-236 | after a stop request the command is never started again exactly when the request did not fall between a decision to spawn and the spawn; else the record can end up running with no stop pending |
| Supervisor.Supervisor.StartApp | internal/runner/supervisor.go:139-154 | idempotent while running; else a new record replaces the name's old one, or a log error changes nothing |
| Supervisor.Supervisor.StopApp | internal/runner/supervisor.go:239-255 | the name's record is asked to stop, the table stays |
| Supervisor.Supervisor.RenameApp | internal/runner/supervisor.go:270-280 | the same record moves to the new name |
| Supervisor.Supervisor.DeleteApp | internal/runner/supervisor.go:283-287 | the name is forgotten, records are not touched |
| Supervisor.StartLeaves | internal/runner/supervisor.go:139-154 | a start gives its name a fresh record and leaves all other names, records and stop requests alone |
| Supervisor.RenameMoves | internal/runner/supervisor.go:270-280 | renaming moves the record and leaves all others alone |
| Supervisor.StopAndDeleteLeave | internal/runner/supervisor.go:239-287 | stopping marks the name's record only, deleting forgets the name only |
| BlueGreen.AltPortInvolutionIff | internal/api/apps.go:474-479 | the paired port of the paired port is the port itself exactly on 40000 to 59999 |
| BlueGreen.ZeroDowntimeSwap | internal/api/apps.go:498-523 | with the port of the app row captured by the request, the live objects pass through exactly the states of the swap and end in its last one |
| BlueGreen.AlwaysServedIff | internal/api/apps.go:495-523 | for every captured port: at every state of the swap an instance of the app itself, not asked to stop and alone on its port, serves the configured port, if and only if the old one was alone on it, the new one is not started on it, and a successful probe implies that the new one was started, on a port with no live instance, and the route was written |
| BlueGreen.FreshPortIsOther | internal/api/apps.go:498-503 | if the captured port is the stored one and the route agrees with it, the new port is never the one in use |
| BlueGreen.StaleSwapFails | internal/api/apps.go:45-55 | after a swap that went well a second one with the same captured port does not keep its app served, unless it neither starts its instance nor finds the port answering |
| BlueGreen.RolledBackInstanceMustBeGone | internal/api/apps.go:509-515 | after a rolled back swap the next one, all else well, keeps the app served exactly if the rolled back instance is not up; its record is never started again unless the stop request fell between a decision to spawn and the spawn, and then it can be up with no stop pending |
| BlueGreen.NewAppTakesPairedPort | internal/store/apps.go:55-62 | the paired port does get taken: with one app swapped away from p - 1 and another on p the next new app gets the port paired with p, and then no swap from p whose probe succeeds keeps its app served |
| BlueGreen.FailedSwapRestores | internal/api/apps.go:509-515 | after a failed probe every name stands for the record it stood for, route and stored port are unchanged, nobody but the new instance was asked to stop and it is all that was added |
| BlueGreen.SuccessfulSwapAgreesIff | internal/api/apps.go:516-522 | after a successful probe, whether or not there was an old instance, no `#old` entry remains and the old instance was asked to stop; instance, route and stored port agree on the new port exactly when the record was created and each write succeeded or was not needed |
| BlueGreen.RouteBeforePort | internal/api/apps.go:516-522 | the route is switched before the stored port, and the old instance keeps a name until the route is switched |
| BlueGreen.AlwaysServed | internal/api/apps.go:495-523 | along any history of swaps with any captured ports, with other apps starting, stopping and going and instances dying and coming back in between, the app is served in every state if and only if every swap was covered as in AlwaysServedIff, nobody else came up on the configured port and the app's instance did not die by itself |
| BlueGreen.PortTellsParity | internal/api/apps.go:474-520 | while swaps work with the stored port as it is and their writes succeed, route and stored port agree and tell the parity of the successful swaps |
| SiteStore.Store.CreateSite | internal/store/store.go:116-150 | a new site only for a valid domain that is neither a site nor an alias |
| SiteStore.Store.DeleteSite | internal/store/store.go:236-259 | the site goes with its aliases, or an error and nothing changes |
| SiteStore.Store.AddSiteDomain | internal/store/site_domains.go:15-45 | a new alias only for a valid domain that is neither a site nor an alias |
| SiteStore.Store.DeleteSiteDomain | internal/store/site_domains.go:71-78 | exactly that alias of that site goes, silently if there is none |
| SiteStore.Store.AllSiteDomains | internal/store/site_domains.go:82-106 | each site's list holds each of its aliases as often as the table does, in ascending order |
| SiteStore.CreateWrites | internal/store/store.go:116-150 | when a site is created and with which columns and defaults, and with which error it is refused |
| SiteStore.AddDomainWrites | internal/store/site_domains.go:15-45 | when an alias is added and which row, and with which error it is refused |
| SiteStore.DeleteWrites | internal/store/store.go:236-259 | the site goes with its aliases, and every other site and alias stays |
| SiteStore.DeleteDomainWrites | internal/store/site_domains.go:71-78 | exactly that alias goes; every other one, the site's own included, stays |
| SiteStore.OneOwnerAlways | internal/store/store.go:120-129 | in every reachable state a domain belongs to at most one site, as primary domain or alias |
| SiteStore.ApplyKeepsAliasesIff | internal/store/site_domains.go:10-45 | an operation keeps every alias's site existing exactly when an added alias goes to an existing site, is invalid or taken, or a statement fails |
| SiteStore.RunKeepsAliasesIff | internal/store/site_domains.go:10-45 | along any run every alias has a site at every moment exactly when every added alias of the run is of that kind |
| Routing.NormalizeHostHeader | internal/vhost/table.go:27-32 | a valid domain in any letter case, with or without trailing dot and port, normalises to the domain |
| Routing.Table.Get | internal/vhost/table.go:34-41 | the route under the normalised host, nothing for the empty host |
| Routing.Table.Domains | internal/vhost/table.go:63-72 | every key once, in ascending order |
| Routing.BuildTable | internal/server/server.go:19-50 | the table holds exactly the domains of the active buildable sites, each with its own site's handler |
| Routing.RouteRequest | internal/server/server.go:71-79 | in every reachable state a request for a valid domain, however spelled, gets the handler of the one active buildable site that owns it, or nothing if there is none; when the aliases cannot be read, only primary domains get their own site's handler and the others nothing |
| Migration.Database.ApplyMigrations | internal/store/migrate.go:346-360 | succeeds exactly if the version can be read and no statement of the pending migrations fails; then every migration from the stored version on took effect and the version is the list's length, or the version was already as high |
| Migration.Database.MigrateOnce | internal/store/migrate.go:323-339 | succeeds exactly if connecting, BEGIN, those statements and COMMIT do; else the error is busy exactly if the attempt reads as busy, and the committed content is as it was |
| Migration.Database.Migrate | internal/store/migrate.go:306-321 | the first attempt that succeeds, or fails other than busy, or is the last decides the result; returning nil leaves the version at least the list's length, an error changes nothing |
| Migration.ConcurrentMigrationIsSafe | internal/store/migrate.go:301-360 | for any number of processes with any binary versions and any interleaving, the committed schema is that of the first `user_version` migrations, each committed once and in order, and whoever returned nil left the version at least its list's length |
| Migration.MutualExclusion | internal/store/migrate.go:301-305 | at most one process is inside a transaction, and once all have returned the lock is free; a failed COMMIT or ROLLBACK keeps it until the connection goes |
| Migration.LatecomerSkips | internal/store/migrate.go:301-305 | a process that finds the version high enough runs no migration and commits what it found |
| Migration.UndisturbedRunIsMigrated | internal/store/migrate.go:323-360 | the state machine run by one process does what the sequential code does |
| RespCache.CacheRecorder.WriteHeader | internal/site/middleware.go:192-204 | remembers this status, and for good that the reply is private |
| RespCache.CacheRecorder.Write | internal/site/middleware.go:206-212 | implies status 200 if none was written, and buffers what it hands on |
| RespCache.RecordingIsTransparent | internal/site/middleware.go:184-212 | for every handler the client sees what it would see without the recorder, and the buffer is all that the handler wrote |
| RespCache.Cache.Get | internal/site/middleware.go:160-171 | a live entry, or nothing and an expired entry removed |
| RespCache.Cache.Set | internal/site/middleware.go:173-182 | a full cache takes no new key |
| RespCache.Cache.Wrap | internal/site/middleware.go:121-158 | non-GET and authenticated requests bypass the cache untouched; a hit replays the entry with the marker header; a miss shows the handler's own reply and stores it if storable |
| RespCache.KeyIsInjective | internal/site/middleware.go:134-140 | the joined key determines encoding class, host and URI |
| RespCache.CacheIsBounded | internal/site/middleware.go:176-180 | over every interleaving of lookups and completions the cache never holds more than `max` entries |
| RespCache.HitReplaysEarlier | internal/site/middleware.go:141-156 | every hit replays an earlier storable, unexpired reply for the same encoding class, host and URI: all that its handler wrote under the headers it left behind; status, headers and body each agree with what was sent exactly under the conditions of ReplayIff |
| RespCache.HitIff | internal/site/middleware.go:160-182 | a lookup is a hit exactly if some completion stored a reply under its key that has not expired, was not replaced since and was not found expired in between |
| RespCache.CacheIsTransparentIff | internal/site/middleware.go:113-158 | if the handler's reply depends only on that triple, a hit is that reply exactly when the recorded handler sent 200 first and left the headers alone afterwards, and has its body exactly when that status allows one or nothing was written |
| RespCache.ReplayIff | internal/site/middleware.go:148-156 | a stored reply repeats the status exactly when the first final status was 200, the header lines exactly when no edit after it left other lines, the body exactly when that status allows one or nothing was written |
| RespCache.SeenIs | internal/site/middleware.go:192-212 | what the client gets, read off the handler's calls: the first final status, the headers as of then, everything written |
| RespCache.StorableIff | internal/site/middleware.go:150 | a reply is stored exactly when the last status recorded is 200 and no look at the headers found them private |
| RespCache.PrivateHeadersStoredIff | internal/site/middleware.go:192-204 | private headers are stored exactly when the handler leaves them behind, the last status is 200, and they were not private at any WriteHeader or first Write |
| RespCache.LateStatusIsStored | internal/site/middleware.go:192-204 | the witness: 500 followed by a late 200 is stored as a 200 |
| RespCache.LateHeaderIsStored | internal/site/middleware.go:148-154 | the witness: a private header set after the status is not sent, but stored |
| RespCache.UnwrittenReplyIsStored | internal/site/middleware.go:148-154 | the witness: a handler that sets a private header and writes nothing is stored with it |
| SlidingWindow.Limiter.Compact | internal/api/middleware.go:122-128 | the in-place loop leaves exactly the times after the cutoff, in order |
| SlidingWindow.Limiter.Allow | internal/api/middleware.go:119-132 | keeps the key's recent times plus this one, leaves the other keys' times alone although slices reuse their arrays, and compares the count with the limit |
| SlidingWindow.AllowedIff | internal/api/middleware.go:117-132 | an attempt is allowed exactly when the key's attempts in the window up to it, denied ones included, number at most `maxHits` |
| SlidingWindow.WindowBound | internal/api/middleware.go:103-132 | any half-open window of that length contains at most `maxHits` allowed attempts per key |
| SlidingWindow.StoredTimesSorted | internal/api/middleware.go:122-130 | the stored times stay sorted |
| SlidingWindow.ClosedWindowBound | internal/api/middleware.go:122-132 | in any run a closed window of the limiter's length contains at most 2 * `maxHits` allowed attempts per key |
| SlidingWindow.ClosedWindowBoundIsTight | internal/api/middleware.go:125 | for every limit and window, `maxHits` attempts at 0 and as many one window later are all allowed |
| SlidingWindow.ClosedWindowObeysLimitIff | internal/api/middleware.go:125 | closed intervals of a length contain at most `maxHits` allowed attempts in all runs if and only if they are shorter than the window |

## Left out

- HTTP handlers, JSON, authorisation, MFA, invites, SSRF checks and path containment: plumbing or not part of these algorithms.
- SQL text, drivers and file permissions; rows that an ORDER BY does not tell apart keep their insertion order.
- Unicode: letter case, blanks and string length are ASCII, so the tie of a prefix match is a count of characters, not bytes.
- Text parsers (`net.ParseIP`, the CAA value) are arbitrary partial functions; all results hold for every choice of them.
- DNS wire format, EDNS options, backslash escapes in names, TXT chunking and the UDP and TCP servers.
- `rrlSubnetKey`: the subnet key of a query is a parameter.
- Floating-point rounding: bucket levels and times are real numbers, and the clock is assumed not to run backwards.
- The DNS limiter reads the clock before it takes its lock, so steps can be out of order; `EvictionIsUnobservable` allows for that, the rate bounds of `RateLimit` assume steps in the order of their readings.
- 64-bit overflow of serials and ids; the narrowing to 32 and 16 bits when a record is rendered is modelled.
- Go's HTTP server beyond status, headers and body: trailers, declared lengths, hijacking and panics.
- Process spawning, signals, cgroups, log files and sleeps: each is an event or an outcome chosen by the environment.
- `Restart`, `StopAll` and `waitState` of the supervisor: combinations of the modelled operations with polling.
- The delay between a stored route and the data plane's reload of it: the swap speaks of the stored route.
- Building site handlers, app name resolution and gzip: a site's handler is a partial function of its row.
- Analytics, quotas, certificate bookkeeping, log tailing, slugs, backups, the panel and the installer: no algorithm or invariant across components.
- UserRanking.RankUserMatches: models `sort.Slice` by an insertion sort on values instead of a sort in place; `SortedIsUnique` shows that the choice is unobservable.
- Processes outside the supervisor that hold an app's port: `BlueGreen` knows only supervised instances.
- Two swaps of one app at the same time, and its start or stop during a swap.
- Header names: handlers use the canonical spelling, as `Header.Set` and `Header.Add` leave it.
