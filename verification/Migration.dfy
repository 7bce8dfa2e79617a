/** internal/store/migrate.go: many processes open one database and race to migrate it. */
module Migration {
  import opened Wrappers

  // ---- One process, as the code runs it ----

  /** A schema is represented by the migrations whose effects it holds, in the order they took effect. */
  datatype Content = Content(schema: seq<string>, version: nat)

  /** What the database does to one attempt: which statement fails, if any, and whether the error reads as busy. */
  datatype Attempt = Attempt(conn: bool, begin: bool, readVersion: bool, failingStatement: Option<nat>, commit: bool,
                             busy: bool)

  datatype Error = Busy | Other

  /** The content after the loop over the pending migrations. */
  function Migrated(c: Content, migrations: seq<string>): Content {
    if c.version < |migrations| then Content(c.schema + migrations[c.version..], |migrations|) else c
  }

  /** The error an attempt that fails reports. */
  function ErrorOf(a: Attempt): Error {
    if a.busy then Busy else Other
  }

  /** Each pending migration takes two statements: itself, and the mark of the new version. */
  function Statements(c: Content, migrations: seq<string>): nat {
    if c.version < |migrations| then 2 * (|migrations| - c.version) else 0
  }

  /** No statement of the pending migrations fails. */
  predicate Runs(c: Content, migrations: seq<string>, a: Attempt) {
    a.readVersion && (a.failingStatement.Some? ==> a.failingStatement.value >= Statements(c, migrations))
  }

  predicate Succeeds(c: Content, migrations: seq<string>, a: Attempt) {
    a.conn && a.begin && Runs(c, migrations, a) && a.commit
  }

  class Database {
    var committed: Content

    constructor ()
      ensures committed == Content([], 0)
    {
      committed := Content([], 0);
    }

    /** Runs inside the transaction, on its private view of the database. */
    method ApplyMigrations(start: Content, migrations: seq<string>, a: Attempt) returns (res: Result<Content, Error>)
      ensures res == if Runs(start, migrations, a) then Ok(Migrated(start, migrations)) else Err(ErrorOf(a))
    {
      var error := if a.busy then Busy else Other;
      if !a.readVersion { return Err(error); }
      var work := start;
      for i := start.version to if start.version < |migrations| then |migrations| else start.version
        invariant work == Content(start.schema + if i <= |migrations| then migrations[start.version..i] else [], i)
        invariant a.failingStatement.Some? ==> a.failingStatement.value >= 2 * (i - start.version)
      {
        var statement := 2 * (i - start.version);
        if a.failingStatement == Some(statement) { return Err(error); }
        work := work.(schema := work.schema + [migrations[i]]);
        if a.failingStatement == Some(statement + 1) { return Err(error); }
        work := work.(version := i + 1);
      }
      assert start.schema + [] == start.schema;
      assert work == Migrated(start, migrations);
      return Ok(work);
    }

    method MigrateOnce(migrations: seq<string>, a: Attempt) returns (err: Option<Error>)
      modifies this
      ensures err == if Succeeds(old(committed), migrations, a) then None else Some(ErrorOf(a))
      ensures err.None? ==> committed == Migrated(old(committed), migrations)
      ensures err.Some? ==> committed == old(committed)
    {
      var error := if a.busy then Busy else Other;
      if !a.conn { return Some(error); }
      if !a.begin { return Some(error); }
      var work := ApplyMigrations(committed, migrations, a);
      if work.Err? { return Some(work.error); }
      if !a.commit { return Some(error); }
      committed := work.value;
      return None;
    }

    /** Retries while the error is busy; `attempts` are the ones made before the deadline passes. `last` is the one that
        decides: all before it failed busy, and it succeeded, failed otherwise or was the last allowed. */
    method Migrate(migrations: seq<string>, attempts: seq<Attempt>) returns (err: Option<Error>, ghost last: nat)
      requires attempts != []
      modifies this
      ensures last < |attempts|
      ensures forall i :: 0 <= i < last ==> !Succeeds(old(committed), migrations, attempts[i]) && attempts[i].busy
      ensures || Succeeds(old(committed), migrations, attempts[last])
              || !attempts[last].busy || last == |attempts| - 1
      ensures err == if Succeeds(old(committed), migrations, attempts[last]) then None
              else Some(ErrorOf(attempts[last]))
      ensures err.None? ==> committed == Migrated(old(committed), migrations) && committed.version >= |migrations|
      ensures err.Some? ==> committed == old(committed)
    {
      var attempt := 0;
      while true
        invariant 0 <= attempt < |attempts| && committed == old(committed)
        invariant forall i :: 0 <= i < attempt ==> !Succeeds(committed, migrations, attempts[i]) && attempts[i].busy
        decreases |attempts| - attempt
      {
        last := attempt;
        err := MigrateOnce(migrations, attempts[attempt]);
        if err.None? || err.value != Busy || attempt == |attempts| - 1 {
          return;
        }
        attempt := attempt + 1;
      }
    }
  }

  // ---- Many processes ----

  /** Where one process stands; stranded, its transaction stays open although COMMIT or ROLLBACK was tried, until the
      connection goes. Inside the transaction `work` is its private view, `next` the loop index, `ran`
      the migrations executed since BEGIN, and `marking` says that `user_version` is yet to be set. */
  datatype Phase =
    | Trying
    | Inside(work: Content, next: nat, ran: seq<nat>, marking: bool)
    | Stranded
    | Returned(ok: bool)

  /** `done` lists the indices of the migrations in the order their commits took effect. */
  datatype State = State(committed: Content, done: seq<nat>, lock: Option<nat>, procs: seq<Phase>)

  datatype Event =
    | BusyRetry(p: nat)
    | GiveUp(p: nat)
    | Begin(p: nat)
    | Execute(p: nat)
    | SetVersion(p: nat)
    | Rollback(p: nat, retry: bool)
    | RollbackFails(p: nat)
    | Commit(p: nat)
    | CommitFails(p: nat)
    | Abandon(p: nat, retry: bool)

  function Put(s: State, p: nat, phase: Phase): State
    requires p < |s.procs|
  {
    s.(procs := s.procs[p := phase])
  }

  /** `all` is the list of migrations ever written, `known[p]` how many of them process p's binary has. */
  function Step(all: seq<string>, known: seq<nat>, s: State, e: Event): Option<State>
    requires |known| == |s.procs| && forall p :: 0 <= p < |known| ==> known[p] <= |all|
  {
    if e.p >= |s.procs| then None
    else
      match (e, s.procs[e.p])
      case (BusyRetry(p), Trying) => Some(s)
      case (GiveUp(p), Trying) => Some(Put(s, p, Returned(false)))
      case (Begin(p), Trying) =>
        if s.lock != None then None
        else Some(Put(s, p, Inside(s.committed, s.committed.version, [], false)).(lock := Some(p)))
      case (Execute(p), Inside(work, i, ran, false)) =>
        if i >= known[p] then None
        else Some(Put(s, p, Inside(work.(schema := work.schema + [all[i]]), i, ran + [i], true)))
      case (SetVersion(p), Inside(work, i, ran, true)) =>
        Some(Put(s, p, Inside(work.(version := i + 1), i + 1, ran, false)))
      case (Rollback(p, retry), Inside(_, _, _, _)) =>
        Some(Put(s, p, if retry then Trying else Returned(false)).(lock := None))
      case (RollbackFails(p), Inside(_, _, _, _)) =>
        Some(Put(s, p, Stranded))
      case (Commit(p), Inside(work, i, ran, false)) =>
        if i < known[p] then None
        else Some(Put(s, p, Returned(true)).(committed := work, done := s.done + ran, lock := None))
      case (CommitFails(p), Inside(work, i, ran, false)) =>
        if i < known[p] then None else Some(Put(s, p, Stranded))
      case (Abandon(p, retry), Stranded) =>
        Some(Put(s, p, if retry then Trying else Returned(false)).(lock := None))
      case _ => None
  }

  ghost predicate Upto(done: seq<nat>, from: nat, to: nat) {
    from <= to && |done| == to - from && forall k :: 0 <= k < |done| ==> done[k] == from + k
  }

  ghost predicate Inv(all: seq<string>, known: seq<nat>, s: State) {
    && |known| == |s.procs|
    && (forall p :: 0 <= p < |known| ==> known[p] <= |all|)
    && s.committed.version <= |all|
    && s.committed.schema == all[..s.committed.version]
    && Upto(s.done, 0, s.committed.version)
    && (forall p :: 0 <= p < |s.procs| ==> (s.lock == Some(p) <==> s.procs[p].Inside? || s.procs[p].Stranded?))
    && (s.lock.Some? ==> s.lock.value < |s.procs|)
    && (forall p :: 0 <= p < |s.procs| ==> PhaseFits(all, known[p], s, s.procs[p]))
  }

  ghost predicate PhaseFits(all: seq<string>, known: nat, s: State, phase: Phase) {
    match phase
    case Inside(work, i, ran, marking) =>
      var reached := if marking then i + 1 else i;
      && work.version == i && reached <= |all| && work.schema == all[..reached]
      && Upto(ran, s.committed.version, reached)
    case Returned(ok) => ok ==> s.committed.version >= known
    case _ => true
  }

  function Fresh(n: nat, c: Content, done: seq<nat>): State {
    State(c, done, None, seq(n, _ => Trying))
  }

  lemma FreshInv(all: seq<string>, known: seq<nat>, version: nat, done: seq<nat>)
    requires version <= |all| && Upto(done, 0, version) && forall p :: 0 <= p < |known| ==> known[p] <= |all|
    ensures Inv(all, known, Fresh(|known|, Content(all[..version], version), done))
  {
  }

  lemma StepKeepsInv(all: seq<string>, known: seq<nat>, s: State, e: Event)
    requires Inv(all, known, s) && Step(all, known, s, e).Some?
    ensures Inv(all, known, Step(all, known, s, e).value)
    ensures s.committed.version <= Step(all, known, s, e).value.committed.version
  {
    var s' := Step(all, known, s, e).value;
    assert PhaseFits(all, known[e.p], s, s.procs[e.p]);
    match e
    case Execute(p) =>
      var i := s.procs[p].next;
      assert all[..i] + [all[i]] == all[..i + 1];
    case Commit(p) =>
      forall q | 0 <= q < |s.procs| ensures PhaseFits(all, known[q], s', s'.procs[q]) {
        assert PhaseFits(all, known[q], s, s.procs[q]);
        assert q != p ==> !s.procs[q].Inside?;
      }
    case _ =>
  }

  function Run(all: seq<string>, known: seq<nat>, s: State, es: seq<Event>): Option<State>
    requires |known| == |s.procs| && forall p :: 0 <= p < |known| ==> known[p] <= |all|
    decreases |es|
  {
    if es == [] then Some(s)
    else
      match Step(all, known, s, es[0])
      case None => None
      case Some(s') => Run(all, known, s', es[1..])
  }

  lemma {:induction false} RunKeepsInv(all: seq<string>, known: seq<nat>, s: State, es: seq<Event>)
    requires Inv(all, known, s) && Run(all, known, s, es).Some?
    ensures Inv(all, known, Run(all, known, s, es).value)
    ensures s.committed.version <= Run(all, known, s, es).value.committed.version
    decreases |es|
  {
    if es != [] {
      hide Step;
      StepKeepsInv(all, known, s, es[0]);
      RunKeepsInv(all, known, Step(all, known, s, es[0]).value, es[1..]);
    }
  }

  /** For any number of processes, any mix of binary versions and any interleaving of lock, retry, failure and
      commit: the committed schema is that of the first `user_version` migrations, each was committed exactly once
      and in order, and whoever returned without error left the version at least at its own list's length. */
  lemma ConcurrentMigrationIsSafe(all: seq<string>, known: seq<nat>, es: seq<Event>)
    requires forall p :: 0 <= p < |known| ==> known[p] <= |all|
    requires Run(all, known, Fresh(|known|, Content([], 0), []), es).Some?
    ensures var s := Run(all, known, Fresh(|known|, Content([], 0), []), es).value;
            && |s.procs| == |known|
            && s.committed.version <= |all|
            && s.committed.schema == all[..s.committed.version]
            && s.done == seq(s.committed.version, i => i)
            && (forall p :: 0 <= p < |known| && s.procs[p] == Returned(true) ==> s.committed.version >= known[p])
  {
    assert all[..0] == [];
    FreshInv(all, known, 0, []);
    var s0 := Fresh(|known|, Content([], 0), []);
    RunKeepsInv(all, known, s0, es);
    var s := Run(all, known, s0, es).value;
    forall p | 0 <= p < |known| && s.procs[p] == Returned(true) ensures s.committed.version >= known[p] {
      assert PhaseFits(all, known[p], s, s.procs[p]);
    }
  }

  /** In every run at most one process is inside a transaction, and once all have returned the lock is free. */
  lemma MutualExclusion(all: seq<string>, known: seq<nat>, es: seq<Event>, p: nat, q: nat)
    requires forall p :: 0 <= p < |known| ==> known[p] <= |all|
    requires Run(all, known, Fresh(|known|, Content([], 0), []), es).Some?
    requires p < |known| && q < |known|
    ensures var s := Run(all, known, Fresh(|known|, Content([], 0), []), es).value;
            && |s.procs| == |known|
            && (s.procs[p].Inside? && s.procs[q].Inside? ==> p == q)
            && ((forall r :: 0 <= r < |known| ==> s.procs[r].Returned?) ==> s.lock == None)
  {
    assert all[..0] == [];
    FreshInv(all, known, 0, []);
    RunKeepsInv(all, known, Fresh(|known|, Content([], 0), []), es);
    var s := Run(all, known, Fresh(|known|, Content([], 0), []), es).value;
    assert s.procs[p].Inside? ==> s.lock == Some(p);
    assert s.procs[q].Inside? ==> s.lock == Some(q);
  }

  /** The loser of the race sees the winner's version: its transaction runs no migration and commits what it found. */
  lemma {:induction false} LatecomerSkips(all: seq<string>, known: seq<nat>, s: State, p: nat, e: Event)
    requires Inv(all, known, s) && p < |s.procs| && s.lock == None && s.procs[p] == Trying
    requires s.committed.version >= known[p]
    requires e.p == p && !e.Begin?
    ensures var inside := Step(all, known, s, Begin(p)).value;
            && Step(all, known, inside, Execute(p)) == None
            && (Step(all, known, inside, e).Some? ==>
                  Step(all, known, inside, e).value.committed == s.committed
                    && Step(all, known, inside, e).value.done == s.done)
  {
    assert s.done + [] == s.done;
  }

  // ---- The loop is the machine run by one process ----

  function LoopEvents(p: nat, from: nat, to: nat): seq<Event>
    decreases to - from
  {
    if from >= to then [Commit(p)] else [Execute(p), SetVersion(p)] + LoopEvents(p, from + 1, to)
  }

  lemma {:induction false} LoopRuns(all: seq<string>, known: seq<nat>, s: State, p: nat, work: Content, i: nat,
                                    ran: seq<nat>)
    requires Inv(all, known, s) && p < |s.procs| && s.procs[p] == Inside(work, i, ran, false)
    ensures Run(all, known, s, LoopEvents(p, i, known[p])).Some?
    ensures Run(all, known, s, LoopEvents(p, i, known[p])).value.committed == Migrated(work, all[..known[p]])
    decreases known[p] - i
  {
    assert PhaseFits(all, known[p], s, s.procs[p]);
    var n, es := known[p], LoopEvents(p, i, known[p]);
    var migrations := all[..n];
    if i >= n {
      assert es == [Commit(p)] && es[1..] == [];
      var s' := Step(all, known, s, Commit(p)).value;
      assert Run(all, known, s', []) == Some(s');
    } else {
      var s1 := Step(all, known, s, Execute(p)).value;
      StepKeepsInv(all, known, s, Execute(p));
      var s2 := Step(all, known, s1, SetVersion(p)).value;
      StepKeepsInv(all, known, s1, SetVersion(p));
      var work' := Content(work.schema + [all[i]], i + 1);
      LoopRuns(all, known, s2, p, work', i + 1, ran + [i]);
      assert es[0] == Execute(p) && es[1..][0] == SetVersion(p) && es[1..][1..] == LoopEvents(p, i + 1, n);
      hide Step;
      assert Run(all, known, s, es) == Run(all, known, s1, es[1..]) == Run(all, known, s2, LoopEvents(p, i + 1, n));
      assert migrations[i..] == [all[i]] + migrations[i + 1..];
      assert Migrated(work', migrations) == Migrated(work, migrations);
    }
  }

  /** Undisturbed, the machine's steps for one process do what one successful attempt of the code does. */
  lemma UndisturbedRunIsMigrated(all: seq<string>, known: seq<nat>, s: State, p: nat)
    requires Inv(all, known, s) && p < |s.procs| && s.procs[p] == Trying && s.lock == None
    ensures var es := [Begin(p)] + LoopEvents(p, s.committed.version, known[p]);
            && Run(all, known, s, es).Some?
            && Run(all, known, s, es).value.committed == Migrated(s.committed, all[..known[p]])
  {
    var es := [Begin(p)] + LoopEvents(p, s.committed.version, known[p]);
    var s1 := Step(all, known, s, Begin(p)).value;
    StepKeepsInv(all, known, s, Begin(p));
    LoopRuns(all, known, s1, p, s.committed, s.committed.version, []);
    assert es[1..] == LoopEvents(p, s.committed.version, known[p]);
  }
}
