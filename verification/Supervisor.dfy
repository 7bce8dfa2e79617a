/** internal/runner/supervisor.go: restart accounting of one process record, and the table of records. */
module Supervisor {
  import opened Wrappers

  // ---- One process record ----

  datatype ProcState = Stopped | Running | Crashed | Failed

  /** Where the goroutines working for the record stand. */
  datatype Phase = Spawning | Alive | Sleeping | Ended

  datatype Proc = Proc(state: ProcState, restarts: nat, startedAt: real, stopping: bool, phase: Phase)

  datatype Limits = Limits(stable: real, maxRestarts: nat)

  /** What happens to a record: its command starts or does not, its process exits, the restart delay ends, Stop is
      called. */
  datatype Event = SpawnOk(now: real) | SpawnFails | Exit(now: real) | DelayOver | StopAsked

  const NewProc := Proc(Stopped, 0, 0.0, false, Spawning)

  /** None when the event cannot happen in the record's phase. */
  function Step(p: Proc, l: Limits, e: Event): Option<Proc> {
    match (e, p.phase)
    case (SpawnOk(now), Spawning) =>
      Some(p.(state := Running, startedAt := now, stopping := false, phase := Alive))
    case (SpawnFails, Spawning) =>
      Some(p.(state := Crashed, phase := Ended))
    case (Exit(now), Alive) =>
      if p.stopping then Some(p.(state := Stopped, phase := Ended))
      else
        var restarts := (if now - p.startedAt > l.stable then 0 else p.restarts) + 1;
        if restarts > l.maxRestarts then Some(p.(restarts := restarts, state := Failed, phase := Ended))
        else Some(p.(restarts := restarts, state := Crashed, phase := Sleeping))
    case (DelayOver, Sleeping) =>
      Some(p.(phase := if p.stopping then Ended else Spawning))
    case (StopAsked, _) =>
      Some(p.(stopping := true))
    case _ => None
  }

  class Process {
    const id: nat
    const port: int
    var name: string
    var state: ProcState
    var restarts: nat
    var startedAt: real
    var stopping: bool
    ghost var phase: Phase

    constructor (id: nat, name: string, port: int)
      ensures this.id == id && this.port == port && this.name == name && View() == NewProc
    {
      this.id, this.port, this.name := id, port, name;
      state, restarts, startedAt, stopping, phase := Stopped, 0, 0.0, false, Spawning;
    }

    ghost function View(): Proc
      reads this
    {
      Proc(state, restarts, startedAt, stopping, phase)
    }

    /** spawn: the command starts at `now`, or fails to. */
    method Spawn(started: bool, now: real) returns (err: bool)
      requires phase == Spawning
      modifies this
      ensures name == old(name) && err == !started
      ensures Some(View()) == Step(old(View()), Limits(0.0, 0), if started then SpawnOk(now) else SpawnFails)
    {
      if !started {
        state, phase := Crashed, Ended;
        return true;
      }
      state, startedAt, stopping, phase := Running, now, false, Alive;
      return false;
    }

    /** wait, up to the delay: the process has exited at `now`. */
    method Exited(l: Limits, now: real) returns (sleeping: bool)
      requires phase == Alive
      modifies this
      ensures name == old(name) && (sleeping <==> phase == Sleeping)
      ensures Some(View()) == Step(old(View()), l, Exit(now))
    {
      if stopping {
        state, phase := Stopped, Ended;
        return false;
      }
      if now - startedAt > l.stable {
        restarts := 0;
      }
      restarts := restarts + 1;
      state := Crashed;
      if restarts > l.maxRestarts {
        state, phase := Failed, Ended;
        return false;
      }
      phase := Sleeping;
      return true;
    }

    /** wait, after the delay: respawn unless asked to stop meanwhile. */
    method Awoken() returns (respawn: bool)
      requires phase == Sleeping
      modifies this
      ensures name == old(name) && (respawn <==> phase == Spawning)
      ensures Some(View()) == Step(old(View()), Limits(0.0, 0), DelayOver)
    {
      phase := if stopping then Ended else Spawning;
      return !stopping;
    }
  }

  // ---- Restart accounting over whole lives ----

  function Life(l: Limits, events: seq<Event>): Option<Proc> {
    if events == [] then Some(NewProc)
    else
      match Life(l, events[..|events| - 1])
      case None => None
      case Some(p) => Step(p, l, events[|events| - 1])
  }

  // What a life says for itself, read off its events alone.

  /** When the command was last started. */
  function SpawnedAt(events: seq<Event>): Option<real> {
    if events == [] then None
    else match events[|events| - 1]
      case SpawnOk(now) => Some(now)
      case _ => SpawnedAt(events[..|events| - 1])
  }

  /** A stop was asked for since then. */
  predicate StopPending(events: seq<Event>) {
    events != [] && match events[|events| - 1]
      case SpawnOk(_) => false
      case StopAsked => true
      case _ => StopPending(events[..|events| - 1])
  }

  /** How long the process had been up at each exit nobody asked for, in order. */
  function Uptimes(events: seq<Event>): seq<real> {
    if events == [] then []
    else
      var before, e := events[..|events| - 1], events[|events| - 1];
      if e.Exit? && SpawnedAt(before).Some? && !StopPending(before) then
        Uptimes(before) + [e.now - SpawnedAt(before).value]
      else Uptimes(before)
  }

  /** The record's fields agree with the events. */
  lemma {:induction false} FieldsTellEvents(l: Limits, events: seq<Event>)
    requires Life(l, events).Some?
    ensures var p := Life(l, events).value;
            && p.stopping == StopPending(events)
            && (p.phase == Alive ==> SpawnedAt(events) == Some(p.startedAt))
  {
    if events != [] {
      FieldsTellEvents(l, events[..|events| - 1]);
    }
  }

  /** How often the command was started. */
  function Spawns(events: seq<Event>): nat {
    if events == [] then 0
    else Spawns(events[..|events| - 1]) + if events[|events| - 1].SpawnOk? then 1 else 0
  }

  /** `i` is the last crash after an uptime over `stable`, or the first crash if there was none. */
  ghost predicate CountsFrom(ups: seq<real>, stable: real, i: nat) {
    && i <= |ups|
    && (i > 0 ==> i < |ups| && ups[i] > stable)
    && (forall k :: i < k < |ups| ==> ups[k] <= stable)
  }

  lemma {:induction false} RestartsCountRecentCrashes(l: Limits, events: seq<Event>) returns (i: nat)
    requires Life(l, events).Some?
    ensures CountsFrom(Uptimes(events), l.stable, i)
    ensures Life(l, events).value.restarts == |Uptimes(events)| - i
  {
    if events == [] {
      i := 0;
    } else {
      var before, e := events[..|events| - 1], events[|events| - 1];
      var ups := Uptimes(before);
      FieldsTellEvents(l, before);
      i := RestartsCountRecentCrashes(l, before);
      if |Uptimes(events)| > |ups| && Uptimes(events)[|ups|] > l.stable {
        i := |ups|;
      }
    }
  }

  lemma {:induction false} FailedIffOverLimit(l: Limits, events: seq<Event>)
    requires Life(l, events).Some?
    ensures var p := Life(l, events).value;
            && (p.state == Failed <==> p.restarts > l.maxRestarts)
            && (p.state == Failed ==> p.phase == Ended)
  {
    if events != [] {
      FailedIffOverLimit(l, events[..|events| - 1]);
    }
  }

  /** The record is failed exactly when the crashes since and including the last one after an uptime over `stable`
      exceed the limit, and then nothing runs or will run again. */
  lemma FailedIffTooMany(l: Limits, events: seq<Event>) returns (i: nat)
    requires Life(l, events).Some?
    ensures CountsFrom(Uptimes(events), l.stable, i)
    ensures Life(l, events).value.state == Failed <==> |Uptimes(events)| - i > l.maxRestarts
    ensures Life(l, events).value.state == Failed ==> Life(l, events).value.phase == Ended
  {
    i := RestartsCountRecentCrashes(l, events);
    FailedIffOverLimit(l, events);
  }

  lemma {:induction false} EndedIsFinal(l: Limits, events: seq<Event>, i: nat)
    requires i <= |events| && Life(l, events).Some?
    ensures Life(l, events[..i]).Some?
    ensures Life(l, events[..i]).value.phase == Ended ==>
              Life(l, events).value.phase == Ended && Spawns(events) == Spawns(events[..i])
              && Life(l, events).value.state == Life(l, events[..i]).value.state
    decreases |events|
  {
    if i < |events| {
      var n := |events| - 1;
      EndedIsFinal(l, events[..n], i);
      assert events[..n][..i] == events[..i];
    } else {
      assert events[..i] == events;
    }
  }

  /** Once failed a record stays failed and is never spawned again. */
  lemma NeverAfterFailing(l: Limits, events: seq<Event>, i: nat)
    requires i <= |events| && Life(l, events).Some?
    ensures Life(l, events[..i]).Some?
    ensures Life(l, events[..i]).value.state == Failed ==>
              Life(l, events).value.state == Failed && Spawns(events) == Spawns(events[..i])
  {
    EndedIsFinal(l, events, i);
    FailedIffOverLimit(l, events[..i]);
  }

  lemma {:induction false} SpawnsAndCrashes(l: Limits, events: seq<Event>)
    requires Life(l, events).Some?
    ensures var p, crashes := Life(l, events).value, |Uptimes(events)|;
            && (p.phase == Alive ==> Spawns(events) == crashes + 1)
            && (p.phase == Spawning || p.phase == Sleeping ==> Spawns(events) == crashes)
            && (p.phase == Ended ==> Spawns(events) == crashes + if p.state == Stopped then 1 else 0)
            && (p.phase == Ended ==> p.state != Running)
            && (p.phase == Alive ==> p.state == Running)
            && (p.phase == Sleeping ==> p.state == Crashed)
            && (p.phase == Spawning ==> p.state == Crashed || (p.state == Stopped && crashes == 0))
            && (p.restarts > l.maxRestarts ==> p.phase == Ended && p.restarts == l.maxRestarts + 1)
  {
    if events != [] {
      FieldsTellEvents(l, events[..|events| - 1]);
      SpawnsAndCrashes(l, events[..|events| - 1]);
    }
  }

  /** Without a single stable uptime the command is started at most maxRestarts + 1 times. */
  lemma SpawnBound(l: Limits, events: seq<Event>)
    requires Life(l, events).Some?
    requires forall k :: 0 <= k < |Uptimes(events)| ==> Uptimes(events)[k] <= l.stable
    ensures Spawns(events) <= l.maxRestarts + 1
  {
    var i := RestartsCountRecentCrashes(l, events);
    SpawnsAndCrashes(l, events);
    FailedIffOverLimit(l, events);
  }

  // ---- Being asked to stop ----

  /** A stop request that does not fall between a decision to spawn and the spawn keeps the record from running
      again. */
  lemma {:induction false} StopIsKept(l: Limits, events: seq<Event>, i: nat)
    requires i < |events| && events[i] == StopAsked && Life(l, events).Some?
    requires Life(l, events[..i]).Some? && Life(l, events[..i]).value.phase != Spawning
    ensures Life(l, events).value.stopping && Life(l, events).value.phase != Spawning
    ensures Spawns(events) == Spawns(events[..i])
    decreases |events|
  {
    var n := |events| - 1;
    if i < n {
      assert events[..n][..i] == events[..i];
      StopIsKept(l, events[..n], i);
    }
  }

  /** Asked to stop now, the record's command is never started again. */
  ghost predicate StopIsFinal(l: Limits, events: seq<Event>) {
    forall more :: events + [StopAsked] <= more && Life(l, more).Some? ==> Spawns(more) == Spawns(events)
  }

  /** A stop request is final exactly when it does not fall between the decision to spawn and the spawn, which clears
      it: then the record ends up running with no stop pending. */
  lemma StopIsFinalIff(l: Limits, events: seq<Event>)
    requires Life(l, events).Some?
    ensures StopIsFinal(l, events) <==> Life(l, events).value.phase != Spawning
    ensures Life(l, events).value.phase == Spawning ==>
              var p := Life(l, events + [StopAsked, SpawnOk(0.0)]);
              p.Some? && p.value.state == Running && !p.value.stopping
  {
    var n := |events|;
    if Life(l, events).value.phase != Spawning {
      forall more | events + [StopAsked] <= more && Life(l, more).Some? ensures Spawns(more) == Spawns(events) {
        assert more[..n] == events && more[n] == (events + [StopAsked])[n];
        StopIsKept(l, more, n);
      }
    } else {
      var asked, lost := events + [StopAsked], events + [StopAsked, SpawnOk(0.0)];
      assert asked[..n] == events && lost[..n + 1] == asked;
      assert asked[n] == StopAsked && lost[n + 1] == SpawnOk(0.0);
      assert Spawns(asked) == Spawns(events);
      assert Spawns(lost) == Spawns(asked) + 1;
      assert events + [StopAsked] <= lost && Life(l, lost).Some?;
    }
  }

  /** A crash is followed by another start of the command exactly if no stop is pending and the crashes since and
      including the last one after an uptime over `stable` are within the limit. */
  lemma CrashRestartsIff(l: Limits, events: seq<Event>, now: real, later: real) returns (i: nat)
    requires Life(l, events).Some? && Life(l, events).value.phase == Alive
    ensures var crashed := events + [Exit(now)];
            && Life(l, crashed).Some?
            && CountsFrom(Uptimes(crashed), l.stable, i)
            && (Life(l, crashed + [DelayOver, SpawnOk(later)]).Some? <==>
                  !StopPending(events) && |Uptimes(crashed)| - i <= l.maxRestarts)
  {
    var n := |events|;
    var crashed := events + [Exit(now)];
    var woken, again := crashed + [DelayOver], crashed + [DelayOver, SpawnOk(later)];
    assert crashed[..n] == events && woken[..n + 1] == crashed && again[..n + 2] == woken;
    FieldsTellEvents(l, events);
    FailedIffOverLimit(l, events);
    i := RestartsCountRecentCrashes(l, crashed);
  }

  // ---- The table of records ----

  /** Names to record ids, every record's port, and the records Stop was ever called on. */
  datatype Table = Table(names: map<string, nat>, ports: map<nat, int>, asked: set<nat>, next: nat)

  datatype Outcome = LogFails | SpawnError | Started

  function Stop(t: Table, name: string): Table {
    if name in t.names then t.(asked := t.asked + {t.names[name]}) else t
  }

  function Rename(t: Table, from: string, to: string): Table {
    if from !in t.names || from == to then t
    else t.(names := (t.names - {from})[to := t.names[from]])
  }

  function Delete(t: Table, name: string): Table {
    t.(names := t.names - {name})
  }

  /** Start of a name that has no running record. */
  function Start(t: Table, name: string, port: int, o: Outcome): Table {
    if o == LogFails then t
    else Table(t.names[name := t.next], t.ports[t.next := port], t.asked, t.next + 1)
  }

  /** Starting gives the name a new id and leaves all other names, ports and stop requests alone. */
  lemma StartLeaves(t: Table, name: string, port: int, o: Outcome)
    ensures var t' := Start(t, name, port, o);
            if o == LogFails then t' == t
            else
              && name in t'.names && t'.names[name] == t.next && t'.next == t.next + 1
              && t.next in t'.ports && t'.ports[t.next] == port
              && (forall k :: k != name ==>
                    (k in t'.names <==> k in t.names) && (k in t.names ==> t'.names[k] == t.names[k]))
              && (forall id :: id != t.next ==>
                    (id in t'.ports <==> id in t.ports) && (id in t.ports ==> t'.ports[id] == t.ports[id]))
              && t'.asked == t.asked
  {
  }

  /** Stopping asks the name's record and changes nothing else; deleting forgets the name and nothing else. */
  lemma StopAndDeleteLeave(t: Table, name: string)
    ensures Stop(t, name).names == t.names && Stop(t, name).ports == t.ports && Stop(t, name).next == t.next
    ensures forall id :: id in Stop(t, name).asked <==> id in t.asked || (name in t.names && id == t.names[name])
    ensures Delete(t, name).ports == t.ports && Delete(t, name).asked == t.asked && Delete(t, name).next == t.next
    ensures name !in Delete(t, name).names
    ensures forall k :: k != name ==>
              (k in Delete(t, name).names <==> k in t.names)
                && (k in t.names ==> Delete(t, name).names[k] == t.names[k])
  {
  }

  /** Renaming moves the record to the new name and changes nothing else. */
  lemma RenameMoves(t: Table, from: string, to: string)
    ensures var t' := Rename(t, from, to);
            && t'.ports == t.ports && t'.asked == t.asked && t'.next == t.next
            && (from !in t.names || from == to ==> t' == t)
            && (from in t.names && from != to ==>
                  && from !in t'.names && to in t'.names && t'.names[to] == t.names[from]
                  && forall k :: k != from && k != to ==>
                       (k in t'.names <==> k in t.names) && (k in t.names ==> t'.names[k] == t.names[k]))
  {
  }

  ghost function IdsOf(procs: map<string, Process>): map<string, nat> {
    map k | k in procs :: procs[k].id
  }

  lemma IdsAfter(procs: map<string, Process>, name: string, p: Process)
    ensures IdsOf(procs[name := p]) == IdsOf(procs)[name := p.id]
  {
  }

  lemma IdsWithout(procs: map<string, Process>, name: string)
    ensures IdsOf(procs - {name}) == IdsOf(procs) - {name}
    ensures name in procs <==> name in IdsOf(procs)
    ensures name in procs ==> IdsOf(procs)[name] == procs[name].id
  {
  }

  class Supervisor {
    var procs: map<string, Process>
    ghost var ports: map<nat, int>
    ghost var asked: set<nat>
    var next: nat

    constructor ()
      ensures Valid() && View() == Table(map[], map[], {}, 0)
    {
      procs, ports, asked, next := map[], map[], {}, 0;
    }

    /** Ids identify records: no record has two names. */
    ghost predicate Valid()
      reads this
    {
      && (forall k :: k in procs ==> procs[k].id < next && procs[k].id in ports && ports[procs[k].id] == procs[k].port)
      && (forall k, l :: k in procs && l in procs && k != l ==> procs[k].id != procs[l].id)
      && (forall id :: id in asked || id in ports ==> id < next)
    }

    ghost function View(): Table
      reads this
    {
      Table(IdsOf(procs), ports, asked, next)
    }

    ghost function Records(): set<Process>
      reads this
    {
      set k | k in procs :: procs[k]
    }

    method StartApp(name: string, port: int, logOk: bool, spawnOk: bool, now: real) returns (err: bool)
      requires Valid()
      modifies this
      ensures Valid()
      ensures old(name in procs && procs[name].state == Running) ==> !err && View() == old(View())
      ensures !old(name in procs && procs[name].state == Running) ==>
                var o := if !logOk then LogFails else if !spawnOk then SpawnError else Started;
                && View() == Start(old(View()), name, port, o)
                && err == (o != Started)
                && (o != LogFails ==>
                      && name in procs && fresh(procs[name]) && procs[name].port == port && procs[name].name == name
                      && Some(procs[name].View()) ==
                         Step(NewProc, Limits(0.0, 0), if spawnOk then SpawnOk(now) else SpawnFails))
      ensures procs == old(procs) || (name in procs && fresh(procs[name]) && procs == old(procs)[name := procs[name]])
    {
      if name in procs && procs[name].state == Running {
        return false;
      }
      if !logOk {
        return true;
      }
      var p := new Process(next, name, port);
      procs := procs[name := p];
      ports, next := ports[next := port], next + 1;
      err := p.Spawn(spawnOk, now);
      IdsAfter(old(procs), name, p);
    }

    method StopApp(name: string)
      requires Valid()
      modifies this`asked, if name in procs then {procs[name]} else {}
      ensures Valid() && View() == Stop(old(View()), name)
      ensures name in procs ==> Some(procs[name].View()) == Step(old(procs[name].View()), Limits(0.0, 0), StopAsked)
    {
      if name !in procs {
        IdsWithout(procs, name);
        return;
      }
      var p := procs[name];
      IdsWithout(procs, name);
      p.stopping := true;
      asked := asked + {p.id};
    }

    method RenameApp(from: string, to: string)
      requires Valid()
      modifies this`procs, if from in procs then {procs[from]} else {}
      ensures Valid() && View() == Rename(old(View()), from, to)
      ensures procs == if from in old(procs) && from != to then (old(procs) - {from})[to := old(procs)[from]]
              else old(procs)
      ensures from in old(procs) && from != to ==> procs[to].name == to
      ensures from in old(procs) ==> old(procs)[from].View() == old(procs[from].View())
    {
      hide IdsOf;
      IdsWithout(procs, from);
      if from !in procs || from == to {
        return;
      }
      var p := procs[from];
      procs := procs - {from};
      p.name := to;
      IdsAfter(procs, to, p);
      procs := procs[to := p];
    }

    method DeleteApp(name: string)
      requires Valid()
      modifies this`procs
      ensures Valid() && View() == Delete(old(View()), name) && procs == old(procs) - {name}
    {
      IdsWithout(procs, name);
      procs := procs - {name};
    }
  }
}
