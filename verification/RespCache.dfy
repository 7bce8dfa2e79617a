/** internal/site/middleware.go: the in-memory response cache and the recorder that fills it. */
module RespCache {
  import opened Wrappers

  type Bytes = seq<bv8>

  type Headers = map<string, seq<string>>

  // ---- What a handler does and what the client sees ----

  /** One action of a handler; `Edit` stands for any change of the response headers. */
  datatype Call = Edit(header: Headers) | WriteHeader(code: int) | Write(data: Bytes)

  /** The server's connection: the header map, what was sent as status line and headers, and the body so far. */
  datatype Wire = Wire(header: Headers, sent: Option<(int, Headers)>, body: Bytes)

  datatype Response = Response(status: int, header: Headers, body: Bytes)

  /** 1xx codes other than 101 are informational: the final status is still to come. */
  predicate Informational(code: int) {
    100 <= code < 200 && code != 101
  }

  function SendStatus(w: Wire, code: int): Wire {
    if w.sent.Some? || Informational(code) then w else w.(sent := Some((code, w.header)))
  }

  /** net/http sends no body after an informational status, 204 or 304. */
  predicate BodyAllowed(code: int) {
    !(100 <= code < 200) && code != 204 && code != 304
  }

  function SendBody(w: Wire, data: Bytes): Wire {
    var w := SendStatus(w, 200);
    if BodyAllowed(w.sent.value.0) then w.(body := w.body + data) else w
  }

  function Direct(w: Wire, calls: seq<Call>): Wire {
    if calls == [] then w
    else
      var w := Direct(w, calls[..|calls| - 1]);
      match calls[|calls| - 1]
      case Edit(h) => w.(header := h)
      case WriteHeader(code) => SendStatus(w, code)
      case Write(data) => SendBody(w, data)
  }

  const Blank := Wire(map[], None, [])

  /** The header lines a map stands for: a key without values makes none. Copying value by value leaves just them. */
  function Lines(h: Headers): Headers {
    map k | k in h && h[k] != [] :: h[k]
  }

  function Seen(w: Wire): Response {
    match w.sent
    case None => Response(200, Lines(w.header), w.body)
    case Some((code, header)) => Response(code, Lines(header), w.body)
  }

  // ---- The recorder ----

  /** `isPrivate` reads the headers: no-store, private or Set-Cookie. */
  datatype Recording = Recording(wire: Wire, buf: Bytes, status: int, wrote: bool, noStore: bool)

  function RecordStatus(r: Recording, isPrivate: Headers -> bool, code: int): Recording {
    Recording(SendStatus(r.wire, code), r.buf, code, true, r.noStore || isPrivate(r.wire.header))
  }

  function RecordBody(r: Recording, isPrivate: Headers -> bool, data: Bytes): Recording {
    var r := if r.wrote then r else RecordStatus(r, isPrivate, 200);
    r.(buf := r.buf + data, wire := SendBody(r.wire, data))
  }

  function Recorded(isPrivate: Headers -> bool, calls: seq<Call>): Recording {
    if calls == [] then Recording(Blank, [], 200, false, false)
    else
      var r := Recorded(isPrivate, calls[..|calls| - 1]);
      match calls[|calls| - 1]
      case Edit(h) => r.(wire := r.wire.(header := h))
      case WriteHeader(code) => RecordStatus(r, isPrivate, code)
      case Write(data) => RecordBody(r, isPrivate, data)
  }

  class CacheRecorder {
    var wire: Wire
    var buf: Bytes
    var status: int
    var wrote: bool
    var noStore: bool
    const isPrivate: Headers -> bool

    constructor (isPrivate: Headers -> bool)
      ensures Contents() == Recorded(isPrivate, []) && this.isPrivate == isPrivate
    {
      wire, buf, status, wrote, noStore := Blank, [], 200, false, false;
      this.isPrivate := isPrivate;
    }

    ghost function Contents(): Recording
      reads this
    {
      Recording(wire, buf, status, wrote, noStore)
    }

    method SetHeader(h: Headers)
      modifies this
      ensures Contents() == old(Contents()).(wire := old(wire).(header := h))
    {
      wire := wire.(header := h);
    }

    method WriteHeader(code: int)
      modifies this
      ensures Contents() == RecordStatus(old(Contents()), isPrivate, code)
    {
      status := code;
      if isPrivate(wire.header) {
        noStore := true;
      }
      wrote := true;
      wire := SendStatus(wire, code);
    }

    method Write(data: Bytes)
      modifies this
      ensures Contents() == RecordBody(old(Contents()), isPrivate, data)
    {
      if !wrote {
        WriteHeader(200);
      }
      buf := buf + data;
      wire := SendBody(wire, data);
    }

    /** Lets a handler run against the recorder. */
    method Run(calls: seq<Call>)
      requires Contents() == Recorded(isPrivate, [])
      modifies this
      ensures Contents() == Recorded(isPrivate, calls)
    {
      for i := 0 to |calls|
        invariant Contents() == Recorded(isPrivate, calls[..i])
      {
        assert calls[..i + 1][..i] == calls[..i];
        match calls[i]
        case Edit(h) => SetHeader(h);
        case WriteHeader(code) => WriteHeader(code);
        case Write(data) => Write(data);
      }
      assert calls[..|calls|] == calls;
    }
  }

  // ---- What a handler's calls amount to ----

  /** The header map the calls leave behind. */
  function HeadersAt(calls: seq<Call>): Headers {
    if calls == [] then map[]
    else match calls[|calls| - 1]
      case Edit(h) => h
      case _ => HeadersAt(calls[..|calls| - 1])
  }

  /** Everything the calls write, in order. */
  function Written(calls: seq<Call>): Bytes {
    if calls == [] then []
    else Written(calls[..|calls| - 1]) + match calls[|calls| - 1] case Write(data) => data case _ => []
  }

  /** The call fixes status and headers if no earlier one did. */
  predicate Commits(c: Call) {
    c.Write? || (c.WriteHeader? && !Informational(c.code))
  }

  /** Where the final status is sent; the end of the calls if none of them sends it. */
  function CommitAt(calls: seq<Call>): (k: nat)
    ensures k <= |calls| && (k < |calls| ==> Commits(calls[k]))
    ensures forall i :: 0 <= i < k ==> !Commits(calls[i])
  {
    if calls == [] then 0
    else
      var n := |calls| - 1;
      var k := CommitAt(calls[..n]);
      if k < n then k else if Commits(calls[n]) then n else n + 1
  }

  /** The first status that is not informational, an implicit 200 included. */
  function FirstFinal(calls: seq<Call>): int {
    var k := CommitAt(calls);
    if k < |calls| && calls[k].WriteHeader? then calls[k].code else 200
  }

  /** The code of the last WriteHeader, 200 if there is none. */
  function LastStatus(calls: seq<Call>): int {
    if calls == [] then 200
    else match calls[|calls| - 1]
      case WriteHeader(code) => code
      case _ => LastStatus(calls[..|calls| - 1])
  }

  lemma {:induction false} WireIs(calls: seq<Call>)
    ensures var w, k := Direct(Blank, calls), CommitAt(calls);
            && w.header == HeadersAt(calls)
            && w.sent == (if k < |calls| then Some((FirstFinal(calls), HeadersAt(calls[..k]))) else None)
            && w.body == (if BodyAllowed(FirstFinal(calls)) then Written(calls) else [])
            && (k == |calls| ==> Written(calls) == [])
  {
    if calls != [] {
      var n := |calls| - 1;
      WireIs(calls[..n]);
      assert calls[..n][..CommitAt(calls[..n])] == calls[..CommitAt(calls[..n])];
    }
  }

  /** What the client sees, without the connection: status, headers and body as of the first final status. */
  lemma SeenIs(calls: seq<Call>)
    ensures Direct(Blank, calls).header == HeadersAt(calls)
    ensures Seen(Direct(Blank, calls)) ==
            Response(FirstFinal(calls), Lines(HeadersAt(calls[..CommitAt(calls)])),
                     if BodyAllowed(FirstFinal(calls)) then Written(calls) else [])
  {
    hide Direct, HeadersAt, Written;
    WireIs(calls);
    assert calls[..|calls|] == calls;
  }

  /** Recording is invisible to the client, and the buffer is all that the handler wrote. */
  lemma {:induction false} RecordingIsTransparent(isPrivate: Headers -> bool, calls: seq<Call>)
    ensures var r := Recorded(isPrivate, calls);
            r.wire == Direct(Blank, calls) && r.buf == Written(calls) && (r.wire.sent.Some? ==> r.wrote)
  {
    if calls != [] {
      RecordingIsTransparent(isPrivate, calls[..|calls| - 1]);
    }
  }

  /** Call `i` makes the recorder look at the headers: a WriteHeader, or a Write with nothing but edits before it. */
  predicate Checked(calls: seq<Call>, i: nat)
    requires i < |calls|
  {
    calls[i].WriteHeader? || (calls[i].Write? && forall j :: 0 <= j < i ==> calls[j].Edit?)
  }

  ghost predicate FoundPrivate(isPrivate: Headers -> bool, calls: seq<Call>) {
    exists i :: 0 <= i < |calls| && Checked(calls, i) && isPrivate(HeadersAt(calls[..i]))
  }

  lemma FoundOneMore(isPrivate: Headers -> bool, calls: seq<Call>)
    requires calls != []
    ensures var n := |calls| - 1;
            FoundPrivate(isPrivate, calls) <==>
            FoundPrivate(isPrivate, calls[..n]) || (Checked(calls, n) && isPrivate(HeadersAt(calls[..n])))
  {
    hide HeadersAt;
    var n := |calls| - 1;
    forall i | 0 <= i < n
      ensures calls[..n][..i] == calls[..i] && (Checked(calls[..n], i) <==> Checked(calls, i))
    {
      assert calls[..n][..i] == calls[..i];
    }
  }

  lemma OtherThanEdit(calls: seq<Call>)
    requires calls != []
    ensures var n := |calls| - 1;
            (exists j :: 0 <= j < |calls| && !calls[j].Edit?) <==>
            (exists j :: 0 <= j < n && !calls[..n][j].Edit?) || !calls[n].Edit?
  {
    var n := |calls| - 1;
    assert forall j :: 0 <= j < n ==> calls[..n][j] == calls[j];
  }

  /** The recorder's verdict in terms of the calls. */
  lemma {:induction false} RecordedIs(isPrivate: Headers -> bool, calls: seq<Call>)
    ensures var r := Recorded(isPrivate, calls);
            && (r.wrote <==> exists j :: 0 <= j < |calls| && !calls[j].Edit?)
            && r.status == LastStatus(calls)
            && (!r.wrote ==> r.status == 200)
            && (r.noStore <==> FoundPrivate(isPrivate, calls))
  {
    if calls != [] {
      var n := |calls| - 1;
      var before := Recorded(isPrivate, calls[..n]);
      RecordedIs(isPrivate, calls[..n]);
      RecordingIsTransparent(isPrivate, calls[..n]);
      WireIs(calls[..n]);
      FoundOneMore(isPrivate, calls);
      assert before.wire.header == HeadersAt(calls[..n]);
      assert Checked(calls, n) <==> calls[n].WriteHeader? || (calls[n].Write? && !before.wrote) by {
        assert forall j :: 0 <= j < n ==> calls[..n][j] == calls[j];
      }
      OtherThanEdit(calls);
      hide FoundPrivate, HeadersAt, Direct, CommitAt, Checked, FirstFinal, Written;
    }
  }

  // ---- Keys ----

  datatype Request = Request(get: bool, authenticated: bool, gzip: bool, host: string, uri: string)

  function Key(r: Request): string {
    (if r.gzip then "gz" else "id") + " " + r.host + " " + r.uri
  }

  /** Hosts hold no blanks, so the joined key determines encoding class, host and URI. */
  lemma KeyIsInjective(a: Request, b: Request)
    requires ' ' !in a.host && ' ' !in b.host && Key(a) == Key(b)
    ensures a.gzip == b.gzip && a.host == b.host && a.uri == b.uri
  {
    var k := Key(a);
    assert k[0] == (if a.gzip then 'g' else 'i') && k[0] == (if b.gzip then 'g' else 'i');
    assert k[3..] == a.host + " " + a.uri && k[3..] == b.host + " " + b.uri;
    FirstBlank(a.host, a.uri, b.host, b.uri);
  }

  lemma FirstBlank(h: string, u: string, g: string, v: string)
    requires ' ' !in h && ' ' !in g && h + " " + u == g + " " + v
    ensures h == g && u == v
  {
    var s := h + " " + u;
    assert s[|h|] == ' ' && s[|g|] == ' ';
    assert forall i :: 0 <= i < |h| ==> s[i] == h[i];
    assert forall i :: 0 <= i < |g| ==> s[i] == g[i];
    assert s[..|h|] == h && s[..|g|] == g && s[|h| + 1..] == u && s[|g| + 1..] == v;
  }

  // ---- The cache ----

  datatype Entry = Entry(body: Bytes, header: Headers, expires: real)

  type Entries = map<string, Entry>

  function Lookup(m: Entries, key: string, now: real): (Entries, Option<Entry>) {
    if key !in m then (m, None)
    else if now > m[key].expires then (m - {key}, None)
    else (m, Some(m[key]))
  }

  function Insert(m: Entries, max: nat, key: string, e: Entry): Entries {
    if |m| >= max && key !in m then m else m[key := e]
  }

  predicate Storable(r: Recording) {
    r.status == 200 && !r.noStore
  }

  function EntryFor(r: Recording, expires: real): Entry {
    Entry(r.buf, Lines(r.wire.header), expires)
  }

  function Finish(m: Entries, max: nat, ttl: real, key: string, r: Recording, now: real): Entries {
    if Storable(r) then Insert(m, max, key, EntryFor(r, now + ttl)) else m
  }

  /** The reply an entry stands for; what a hit sends besides is the marker. */
  function Replay(e: Entry): Response {
    Response(200, e.header, e.body)
  }

  function Marked(r: Response): Response {
    r.(header := r.header["X-Lamund-Cache" := ["HIT"]])
  }

  datatype Served = Hit(response: Response) | Miss(response: Response) | Bypass(response: Response)

  class Cache {
    var entries: Entries
    const ttl: real
    const max: nat
    const isPrivate: Headers -> bool

    constructor (ttl: real, max: nat, isPrivate: Headers -> bool)
      ensures entries == map[] && this.ttl == ttl && this.max == max && this.isPrivate == isPrivate
    {
      entries := map[];
      this.ttl, this.max, this.isPrivate := ttl, max, isPrivate;
    }

    method Get(key: string, now: real) returns (e: Option<Entry>)
      modifies this
      ensures (entries, e) == Lookup(old(entries), key, now)
    {
      if key !in entries || now > entries[key].expires {
        if key in entries {
          entries := entries - {key};
        }
        return None;
      }
      return Some(entries[key]);
    }

    method Set(key: string, e: Entry)
      modifies this
      ensures entries == Insert(old(entries), max, key, e)
    {
      if |entries| >= max {
        if key !in entries {
          return;
        }
      }
      entries := entries[key := e];
    }

    /** One request; `calls` is what the wrapped handler does if it is asked, `now` and `later` the clock readings. */
    method Wrap(r: Request, calls: seq<Call>, now: real, later: real) returns (served: Served)
      modifies this
      ensures !r.get || r.authenticated ==> entries == old(entries) && served == Bypass(Seen(Direct(Blank, calls)))
      ensures r.get && !r.authenticated ==>
                var (looked, e) := Lookup(old(entries), Key(r), now);
                if e.Some? then
                  entries == looked &&
                  served == Hit(Response(200, e.value.header["X-Lamund-Cache" := ["HIT"]], e.value.body))
                else
                  && entries == Finish(looked, max, ttl, Key(r), Recorded(isPrivate, calls), later)
                  && served == Miss(Seen(Direct(Blank, calls)))
    {
      if !r.get || r.authenticated {
        return Bypass(Seen(Direct(Blank, calls)));
      }
      var key := Key(r);
      var e := Get(key, now);
      if e.Some? {
        return Hit(Marked(Replay(e.value)));
      }
      var rec := new CacheRecorder(isPrivate);
      rec.Run(calls);
      RecordingIsTransparent(isPrivate, calls);
      if rec.status == 200 && !rec.noStore {
        Set(key, Entry(rec.buf, Lines(rec.wire.header), later + ttl));
      }
      return Miss(Seen(rec.wire));
    }
  }

  // ---- Runs: lookups and completions of concurrent requests, in any interleaving ----

  datatype Event = Look(r: Request, now: real) | Done(r: Request, calls: seq<Call>, now: real)

  datatype Config = Config(ttl: real, max: nat, isPrivate: Headers -> bool)

  function Apply(m: Entries, c: Config, e: Event): Entries {
    match e
    case Look(r, now) => Lookup(m, Key(r), now).0
    case Done(r, calls, now) => Finish(m, c.max, c.ttl, Key(r), Recorded(c.isPrivate, calls), now)
  }

  function State(c: Config, events: seq<Event>): Entries {
    if events == [] then map[] else Apply(State(c, events[..|events| - 1]), c, events[|events| - 1])
  }

  lemma {:induction false} CacheIsBounded(c: Config, events: seq<Event>)
    ensures |State(c, events)| <= c.max
  {
    if events != [] {
      CacheIsBounded(c, events[..|events| - 1]);
    }
  }

  /** The entry was recorded by completion `j` of the run for a request with this key. */
  ghost predicate RecordedBy(c: Config, events: seq<Event>, j: nat, key: string, e: Entry) {
    && j < |events| && events[j].Done? && Key(events[j].r) == key
    && Storable(Recorded(c.isPrivate, events[j].calls))
    && e == EntryFor(Recorded(c.isPrivate, events[j].calls), events[j].now + c.ttl)
  }

  lemma {:induction false} EntryHasSource(c: Config, events: seq<Event>, key: string) returns (j: nat)
    requires key in State(c, events)
    ensures RecordedBy(c, events, j, key, State(c, events)[key])
  {
    hide Recorded;
    var n := |events| - 1;
    var before := State(c, events[..n]);
    if key in before && before[key] == State(c, events)[key] {
      j := EntryHasSource(c, events[..n], key);
    } else {
      j := n;
    }
  }

  // ---- When a lookup is a hit ----

  function KeyAt(events: seq<Event>, k: nat): string
    requires k < |events|
  {
    Key(events[k].r)
  }

  ghost predicate StorableAt(c: Config, events: seq<Event>, k: nat)
    requires k < |events|
  {
    events[k].Done? && Storable(Recorded(c.isPrivate, events[k].calls))
  }

  /** Completion `j` put an entry under the key: there was one already, or room. */
  ghost predicate StoredAt(c: Config, events: seq<Event>, j: nat, key: string) {
    && j < |events| && StorableAt(c, events, j) && KeyAt(events, j) == key
    && (key in State(c, events[..j]) || |State(c, events[..j])| < c.max)
  }

  /** From `j` to `i` nothing storable was completed for the key, and no lookup found the entry expired. */
  ghost predicate LiveFrom(c: Config, events: seq<Event>, j: nat, i: nat, key: string) {
    && j < i <= |events| && StoredAt(c, events, j, key)
    && forall k :: j < k < i && KeyAt(events, k) == key ==>
         !StorableAt(c, events, k) && (events[k].Look? ==> events[k].now <= events[j].now + c.ttl)
  }

  /** What one event does to the entry under one key. */
  lemma EntryStep(m: Entries, c: Config, e: Event, key: string)
    ensures var m', stores := Apply(m, c, e), e.Done? && Storable(Recorded(c.isPrivate, e.calls)) && Key(e.r) == key;
            if stores && (key in m || |m| < c.max) then
              key in m' && m'[key] == EntryFor(Recorded(c.isPrivate, e.calls), e.now + c.ttl)
            else if key in m && !(e.Look? && Key(e.r) == key && e.now > m[key].expires) then
              key in m' && m'[key] == m[key]
            else key !in m'
  {
    hide Recorded, EntryFor, Storable, Key;
  }

  lemma StateStep(c: Config, events: seq<Event>, i: nat)
    requires 0 < i <= |events|
    ensures State(c, events[..i]) == Apply(State(c, events[..i - 1]), c, events[i - 1])
  {
    assert events[..i][..i - 1] == events[..i - 1];
  }

  lemma {:induction false} LiveIsThere(c: Config, events: seq<Event>, j: nat, i: nat, key: string)
    requires LiveFrom(c, events, j, i, key)
    ensures key in State(c, events[..i])
    ensures State(c, events[..i])[key] == EntryFor(Recorded(c.isPrivate, events[j].calls), events[j].now + c.ttl)
  {
    hide Recorded, Storable, EntryFor, Apply, State, Key;
    StateStep(c, events, i);
    EntryStep(State(c, events[..i - 1]), c, events[i - 1], key);
    if j < i - 1 {
      LiveIsThere(c, events, j, i - 1, key);
      EntryExpires(c, events, j);
    }
  }

  lemma EntryExpires(c: Config, events: seq<Event>, j: nat)
    requires j < |events| && events[j].Done?
    ensures EntryFor(Recorded(c.isPrivate, events[j].calls), events[j].now + c.ttl).expires == events[j].now + c.ttl
  {
  }

  lemma LiveOneMore(c: Config, events: seq<Event>, j: nat, n: nat, key: string)
    requires n < |events| && LiveFrom(c, events, j, n, key)
    requires KeyAt(events, n) == key ==>
      !StorableAt(c, events, n) && (events[n].Look? ==> events[n].now <= events[j].now + c.ttl)
    ensures LiveFrom(c, events, j, n + 1, key)
  {
    hide StoredAt, StorableAt, KeyAt;
  }

  lemma {:induction false} ThereIsLive(c: Config, events: seq<Event>, i: nat, key: string) returns (j: nat)
    requires i <= |events| && key in State(c, events[..i])
    ensures LiveFrom(c, events, j, i, key)
  {
    assert i > 0 by { assert events[..0] == []; }
    hide Recorded, Storable, EntryFor, Apply, State, Key;
    var n := i - 1;
    StateStep(c, events, i);
    EntryStep(State(c, events[..n]), c, events[n], key);
    if StorableAt(c, events, n) && KeyAt(events, n) == key {
      j := n;
    } else {
      j := ThereIsLive(c, events, n, key);
      EntryExpiresLive(c, events, j, n, key);
      hide LiveFrom;
      LiveOneMore(c, events, j, n, key);
    }
  }

  /** A lookup is a hit exactly if some completion stored a reply under its key that has not expired, was not replaced
      and was not found expired in between. */
  lemma HitIff(c: Config, events: seq<Event>, i: nat)
    requires i < |events| && events[i].Look?
    ensures Lookup(State(c, events[..i]), KeyAt(events, i), events[i].now).1.Some? <==>
            exists j: nat :: LiveFrom(c, events, j, i, KeyAt(events, i)) && events[i].now <= events[j].now + c.ttl
  {
    hide Recorded, EntryFor, LiveFrom, State;
    var key := KeyAt(events, i);
    if key in State(c, events[..i]) {
      var j := ThereIsLive(c, events, i, key);
      EntryExpiresLive(c, events, j, i, key);
    }
    forall j: nat | LiveFrom(c, events, j, i, key)
      ensures key in State(c, events[..i])
      ensures j < |events| && events[j].Done?
      ensures State(c, events[..i])[key].expires == events[j].now + c.ttl
    {
      EntryExpiresLive(c, events, j, i, key);
    }
  }

  lemma EntryExpiresLive(c: Config, events: seq<Event>, j: nat, i: nat, key: string)
    requires LiveFrom(c, events, j, i, key)
    ensures key in State(c, events[..i]) && j < |events| && events[j].Done?
    ensures State(c, events[..i])[key].expires == events[j].now + c.ttl
  {
    LiveIsThere(c, events, j, i, key);
    EntryExpires(c, events, j);
  }

  // ---- What a stored reply has in common with the recorded one ----

  /** The edits after the final status, if any, left the header lines as they were sent. */
  predicate HeadersKept(calls: seq<Call>) {
    Lines(HeadersAt(calls)) == Lines(HeadersAt(calls[..CommitAt(calls)]))
  }

  /** The stored reply repeats the status exactly when the handler's first final status was 200, the headers
      exactly when no edit after that status left other lines, and the body exactly when that status allowed one or
      nothing was written. */
  lemma ReplayIff(isPrivate: Headers -> bool, calls: seq<Call>, expires: real)
    ensures var replay, seen := Replay(EntryFor(Recorded(isPrivate, calls), expires)), Seen(Direct(Blank, calls));
            && (replay.status == seen.status <==> FirstFinal(calls) == 200)
            && (replay.header == seen.header <==> HeadersKept(calls))
            && (replay.body == seen.body <==> BodyAllowed(FirstFinal(calls)) || Written(calls) == [])
            && (replay == seen <==> FirstFinal(calls) == 200 && HeadersKept(calls))
  {
    hide Recorded, Direct, HeadersAt, Written, CommitAt, FirstFinal;
    RecordingIsTransparent(isPrivate, calls);
    SeenIs(calls);
  }

  /** A reply is stored exactly when the last status recorded is 200 and no look at the headers found them private. */
  lemma StorableIff(isPrivate: Headers -> bool, calls: seq<Call>)
    ensures Storable(Recorded(isPrivate, calls)) <==> LastStatus(calls) == 200 && !FoundPrivate(isPrivate, calls)
  {
    RecordedIs(isPrivate, calls);
  }

  /** Private headers are stored exactly when the handler leaves them behind and every look at the headers came
      before they were private or there was none. */
  lemma PrivateHeadersStoredIff(isPrivate: Headers -> bool, calls: seq<Call>, expires: real)
    ensures var r := Recorded(isPrivate, calls);
            Storable(r) && isPrivate(EntryFor(r, expires).header) <==>
            && LastStatus(calls) == 200 && isPrivate(Lines(HeadersAt(calls)))
            && forall i :: 0 <= i < |calls| && Checked(calls, i) ==> !isPrivate(HeadersAt(calls[..i]))
  {
    hide Recorded, Direct, HeadersAt;
    StorableIff(isPrivate, calls);
    RecordingIsTransparent(isPrivate, calls);
    SeenIs(calls);
  }

  /** A hit of the run, and the completion `j` its entry comes from. */
  ghost predicate Replays(c: Config, events: seq<Event>, i: nat, j: nat, e: Entry)
    requires i < |events|
  {
    && events[i].Look? && Lookup(State(c, events[..i]), Key(events[i].r), events[i].now).1 == Some(e)
    && j < i && events[j].Done?
    && events[j].r.gzip == events[i].r.gzip && events[j].r.host == events[i].r.host
       && events[j].r.uri == events[i].r.uri
    && Storable(Recorded(c.isPrivate, events[j].calls))
    && e == EntryFor(Recorded(c.isPrivate, events[j].calls), events[j].now + c.ttl)
    && events[i].now <= events[j].now + c.ttl
  }

  /** Every hit replays an earlier reply to the same encoding class, host and URI that was storable and has not
      expired: all that its handler wrote, under the headers it left behind. Status, headers and body are those of
      that reply exactly under the conditions of ReplayIff. */
  lemma HitReplaysEarlier(c: Config, events: seq<Event>, i: nat) returns (j: nat)
    requires forall k :: 0 <= k < |events| ==> ' ' !in events[k].r.host
    requires i < |events| && events[i].Look?
    requires Lookup(State(c, events[..i]), Key(events[i].r), events[i].now).1.Some?
    ensures var e := Lookup(State(c, events[..i]), Key(events[i].r), events[i].now).1.value;
            && Replays(c, events, i, j, e)
            && var calls := events[j].calls;
               var seen := Seen(Direct(Blank, calls));
               && e.body == Written(calls) && e.header == Lines(HeadersAt(calls))
               && LastStatus(calls) == 200 && !FoundPrivate(c.isPrivate, calls)
               && (Replay(e).status == seen.status <==> FirstFinal(calls) == 200)
               && (Replay(e).header == seen.header <==> HeadersKept(calls))
               && (Replay(e).body == seen.body <==> BodyAllowed(FirstFinal(calls)) || Written(calls) == [])
               && (Replay(e) == seen <==> FirstFinal(calls) == 200 && HeadersKept(calls))
  {
    hide Recorded, Direct, Seen, State, HeadersKept, BodyAllowed, FirstFinal, HeadersAt, Written, FoundPrivate;
    j := EntryHasSource(c, events[..i], Key(events[i].r));
    KeyIsInjective(events[j].r, events[i].r);
    RecordingIsTransparent(c.isPrivate, events[j].calls);
    SeenIs(events[j].calls);
    StorableIff(c.isPrivate, events[j].calls);
    ReplayIff(c.isPrivate, events[j].calls, events[j].now + c.ttl);
  }

  /** If the handler's reply depends only on encoding class, host and URI, a hit is that reply exactly when the
      handler that was recorded sent 200 first and left the headers alone afterwards, and its body is that reply's
      exactly when the first final status allowed a body or nothing was written. */
  lemma CacheIsTransparentIff(c: Config, events: seq<Event>, page: (bool, string, string) -> Response, i: nat)
      returns (j: nat)
    requires forall k :: 0 <= k < |events| ==> ' ' !in events[k].r.host
    requires forall k :: 0 <= k < |events| && events[k].Done? ==>
      Seen(Direct(Blank, events[k].calls)) == page(events[k].r.gzip, events[k].r.host, events[k].r.uri)
    requires i < |events| && events[i].Look?
    requires Lookup(State(c, events[..i]), Key(events[i].r), events[i].now).1.Some?
    ensures var e := Lookup(State(c, events[..i]), Key(events[i].r), events[i].now).1.value;
            var reply := page(events[i].r.gzip, events[i].r.host, events[i].r.uri);
            && Replays(c, events, i, j, e)
            && (Replay(e) == reply <==> FirstFinal(events[j].calls) == 200 && HeadersKept(events[j].calls))
            && (e.body == reply.body <==> BodyAllowed(FirstFinal(events[j].calls)) || Written(events[j].calls) == [])
  {
    hide Direct, Seen, State, HeadersKept, BodyAllowed, FirstFinal, Recorded, Lookup;
    j := HitReplaysEarlier(c, events, i);
  }

  // ---- Witnesses ----

  /** A handler that sends 500 and then, too late, 200: the client gets 500, the cache stores a 200. */
  lemma LateStatusIsStored(isPrivate: Headers -> bool)
    requires !isPrivate(map[])
    ensures var calls := [WriteHeader(500), WriteHeader(200)];
            Storable(Recorded(isPrivate, calls)) && Seen(Direct(Blank, calls)).status == 500
  {
    var calls := [WriteHeader(500), WriteHeader(200)];
    NoEdits(calls);
    StorableIff(isPrivate, calls);
    SeenIs(calls);
  }

  lemma {:induction false} NoEdits(calls: seq<Call>)
    requires forall i :: 0 <= i < |calls| ==> !calls[i].Edit?
    ensures HeadersAt(calls) == map[] && forall i :: 0 <= i <= |calls| ==> HeadersAt(calls[..i]) == map[]
  {
    if calls != [] {
      var n := |calls| - 1;
      NoEdits(calls[..n]);
      forall i | 0 <= i <= |calls| ensures HeadersAt(calls[..i]) == map[] {
        if i <= n { assert calls[..i] == calls[..n][..i]; } else { assert calls[..i] == calls; }
      }
    }
  }

  /** A header made private after the status was sent: the client does not see it, every later one does. */
  lemma LateHeaderIsStored(isPrivate: Headers -> bool, h: Headers, expires: real)
    requires !isPrivate(map[]) && isPrivate(Lines(h))
    ensures var calls := [WriteHeader(200), Edit(h)];
            var r := Recorded(isPrivate, calls);
            Storable(r) && Seen(Direct(Blank, calls)).header == map[] && EntryFor(r, expires).header == Lines(h)
  {
    var calls := [WriteHeader(200), Edit(h)];
    assert calls[..1] == [WriteHeader(200)] && calls[..0] == [];
    PrivateHeadersStoredIff(isPrivate, calls, expires);
    RecordingIsTransparent(isPrivate, calls);
    SeenIs(calls);
  }

  /** A handler that sets a private header and returns without writing anything is never checked. */
  lemma UnwrittenReplyIsStored(isPrivate: Headers -> bool, h: Headers, expires: real)
    requires isPrivate(Lines(h))
    ensures var calls := [Edit(h)];
            var r := Recorded(isPrivate, calls);
            Storable(r) && EntryFor(r, expires).header == Lines(h)
  {
    var calls := [Edit(h)];
    PrivateHeadersStoredIff(isPrivate, calls, expires);
    RecordingIsTransparent(isPrivate, calls);
    SeenIs(calls);
  }
}
