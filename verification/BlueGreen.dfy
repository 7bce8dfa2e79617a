/** internal/api/apps.go, zeroDowntimeSwap: replacing a running app by a new version on its paired port. */
module BlueGreen {
  import opened Supervisor

  function AltPort(p: int): int {
    if p >= 50000 then p - 10000 else p + 10000
  }

  /** Swapping twice comes back to the same port exactly on the two paired ranges. */
  lemma AltPortInvolutionIff(p: int)
    ensures AltPort(AltPort(p)) == p <==> 40000 <= p < 60000
    ensures 40000 <= p < 60000 ==> 40000 <= AltPort(p) < 60000
    ensures AltPort(p) != p
  {
  }

  /** The supervisor's table, the port in the domain's own proxy route and the app's stored port. */
  datatype World = World(table: Table, config: int, port: int)

  /** What the environment decides during one swap: the start, the readiness probe and the two store writes. */
  datatype Luck = Luck(start: Outcome, ready: bool, configOk: bool, portOk: bool)

  function OldName(name: string): string {
    name + "#old"
  }

  // ---- The swap, one state per step ----

  /** Every state from the first to the last. `seen` is the port in the app row that was read when the deploy was
      requested; the stored port may have changed since. */
  function Swap(w: World, name: string, seen: int, luck: Luck): seq<World> {
    var newPort := AltPort(seen);
    var w1 := w.(table := Rename(w.table, name, OldName(name)));
    var w2 := w1.(table := Start(w1.table, name, newPort, luck.start));
    if !luck.ready then
      var w3 := w2.(table := Stop(w2.table, name));
      var w4 := w3.(table := Delete(w3.table, name));
      var w5 := w4.(table := Rename(w4.table, OldName(name), name));
      [w, w1, w2, w3, w4, w5]
    else
      var w3 := if luck.configOk then w2.(config := newPort) else w2;
      var w4 := if luck.portOk then w3.(port := newPort) else w3;
      var w5 := w4.(table := Stop(w4.table, OldName(name)));
      var w6 := w5.(table := Delete(w5.table, OldName(name)));
      [w, w1, w2, w3, w4, w5, w6]
  }

  function Final(w: World, name: string, seen: int, luck: Luck): World {
    var states := Swap(w, name, seen, luck);
    states[|states| - 1]
  }

  class App {
    const name: string
    var config: int
    var port: int

    constructor (name: string, port: int)
      ensures this.name == name && this.config == port && this.port == port
    {
      this.name, this.config, this.port := name, port, port;
    }
  }

  ghost function WorldOf(sup: Supervisor, app: App): World
    reads sup, app
  {
    World(sup.View(), app.config, app.port)
  }

  /** The old instance steps aside and the new version starts on the paired port. */
  method Begin(sup: Supervisor, app: App, newPort: int, start: Outcome, now: real) returns (ghost aside: World)
    requires sup.Valid() && OldName(app.name) !in sup.procs
    modifies sup, sup.Records()
    ensures sup.Valid()
    ensures aside == old(WorldOf(sup, app)).(table := Rename(old(sup.View()), app.name, OldName(app.name)))
    ensures sup.View() == Start(aside.table, app.name, newPort, start)
    ensures forall k :: k in sup.procs ==> sup.procs[k] in old(sup.Records()) || fresh(sup.procs[k])
  {
    var name := app.name;
    assert OldName(name) != name by { assert |OldName(name)| == |name| + 4; }
    hide Rename, Start, OldName, IdsOf;
    ghost var records := sup.Records();
    sup.RenameApp(name, OldName(name));
    assert name !in sup.procs && forall k :: k in sup.procs ==> sup.procs[k] in records;
    aside := WorldOf(sup, app);
    var _ := sup.StartApp(name, newPort, start != LogFails, start == Started, now);
    assert forall k :: k in sup.procs ==> sup.procs[k] in records || fresh(sup.procs[k]);
  }

  /** The probe failed: drop the new instance and put the old one back. */
  method Rollback(sup: Supervisor, app: App) returns (ghost steps: seq<World>)
    requires sup.Valid()
    modifies sup, sup.Records()
    ensures sup.Valid()
    ensures var t3 := Stop(old(sup.View()), app.name);
            var t4 := Delete(t3, app.name);
            var t5 := Rename(t4, OldName(app.name), app.name);
            var w := old(WorldOf(sup, app));
            sup.View() == t5 && steps == [w.(table := t3), w.(table := t4), w.(table := t5)]
  {
    hide Rename, Stop, Delete, OldName, IdsOf;
    sup.StopApp(app.name);
    ghost var w3 := WorldOf(sup, app);
    sup.DeleteApp(app.name);
    ghost var w4 := WorldOf(sup, app);
    sup.RenameApp(OldName(app.name), app.name);
    steps := [w3, w4, WorldOf(sup, app)];
  }

  /** The probe succeeded: switch the route and the stored port, then stop and forget the old instance. */
  method Promote(sup: Supervisor, app: App, newPort: int, configOk: bool, portOk: bool)
      returns (ghost steps: seq<World>)
    requires sup.Valid()
    modifies sup, app, sup.Records()
    ensures sup.Valid()
    ensures var w3 := old(WorldOf(sup, app)).(config := if configOk then newPort else old(app.config));
            var w4 := w3.(port := if portOk then newPort else old(app.port));
            var w5 := w4.(table := Stop(w4.table, OldName(app.name)));
            var w6 := w5.(table := Delete(w5.table, OldName(app.name)));
            WorldOf(sup, app) == w6 && steps == [w3, w4, w5, w6]
  {
    hide Stop, Delete, OldName, IdsOf;
    if configOk {
      app.config := newPort;
    }
    ghost var w3 := WorldOf(sup, app);
    if portOk {
      app.port := newPort;
    }
    ghost var w4 := WorldOf(sup, app);
    sup.StopApp(OldName(app.name));
    ghost var w5 := WorldOf(sup, app);
    sup.DeleteApp(OldName(app.name));
    steps := [w3, w4, w5, WorldOf(sup, app)];
  }

  /** The swap on the live objects; `trace` collects every state it passes through. */
  method ZeroDowntimeSwap(sup: Supervisor, app: App, seen: int, luck: Luck, now: real) returns (ghost trace: seq<World>)
    requires sup.Valid() && OldName(app.name) !in sup.procs
    modifies sup, app, sup.Records()
    ensures sup.Valid()
    ensures trace == Swap(old(WorldOf(sup, app)), app.name, seen, luck)
    ensures WorldOf(sup, app) == trace[|trace| - 1]
  {
    hide Rename, Start, Stop, Delete, OldName, AltPort;
    ghost var w := WorldOf(sup, app);
    var newPort := AltPort(seen);
    ghost var w1 := Begin(sup, app, newPort, luck.start, now);
    ghost var w2 := WorldOf(sup, app);
    ghost var steps;
    if !luck.ready {
      steps := Rollback(sup, app);
    } else {
      steps := Promote(sup, app, newPort, luck.configOk, luck.portOk);
    }
    trace := [w, w1, w2] + steps;
  }

  // ---- Safety at every step ----

  /** Of the live instances, asked to stop or not, only `id` is on the port. */
  ghost predicate AloneOn(w: World, alive: set<nat>, port: int, id: nat) {
    forall other :: other in alive && other in w.table.ports && other != id ==> w.table.ports[other] != port
  }

  /** No live instance of any app is on the port. */
  ghost predicate PortFree(w: World, alive: set<nat>, port: int) {
    forall other :: other in alive && other in w.table.ports ==> w.table.ports[other] != port
  }

  /** One of the app's own instances is up, was never asked to stop, and is alone on the configured port. */
  ghost predicate Serving(w: World, own: set<nat>, alive: set<nat>) {
    exists id :: && id in own && id in alive && id !in w.table.asked
                 && id in w.table.ports && w.table.ports[id] == w.config && AloneOn(w, alive, w.config, id)
  }

  /** The ids in use are older than the next one, and no half-finished swap is lying about. */
  ghost predicate Tidy(w: World, name: string, alive: set<nat>) {
    && OldName(name) !in w.table.names
    && (forall id :: id in w.table.ports || id in w.table.asked || id in alive ==> id < w.table.next)
    && (forall k :: k in w.table.names ==> w.table.names[k] < w.table.next)
  }

  /** The app's instance `id` is up, the route points at it, and all its other instances were asked to stop. */
  ghost predicate Settled(w: World, name: string, own: set<nat>, alive: set<nat>, id: nat) {
    && Tidy(w, name, alive)
    && name in w.table.names && w.table.names[name] == id
    && (forall k :: k in w.table.names && w.table.names[k] == id ==> k == name)
    && id in own && id in alive && id !in w.table.asked
    && id in w.table.ports && w.table.ports[id] == w.config
    && (forall other :: other in own ==> other < w.table.next && (other in w.table.asked || other == id))
  }

  /** The instances, `s` so far, once the swap has started its own. */
  function WithNew(w: World, s: set<nat>, luck: Luck): set<nat> {
    if luck.start == Started then s + {w.table.next} else s
  }

  /** The new instance does not start on the port in use, and if the probe succeeds it was started, on a port nobody
      else was on, and the route was written. */
  ghost predicate Covered(w: World, alive: set<nat>, seen: int, luck: Luck) {
    && (luck.start == Started ==> AltPort(seen) != w.config)
    && (luck.ready ==> luck.start == Started && luck.configOk && PortFree(w, alive, AltPort(seen)))
  }

  ghost predicate SwapServed(w: World, name: string, own: set<nat>, alive: set<nat>, seen: int, luck: Luck) {
    forall i :: 0 <= i < |Swap(w, name, seen, luck)| ==>
      Serving(Swap(w, name, seen, luck)[i], WithNew(w, own, luck), WithNew(w, alive, luck))
  }

  lemma CoveredSwapServes(w: World, name: string, own: set<nat>, alive: set<nat>, seen: int, luck: Luck, id: nat,
                          i: nat)
    requires Settled(w, name, own, alive, id) && AloneOn(w, alive, w.config, id) && Covered(w, alive, seen, luck)
    requires i < |Swap(w, name, seen, luck)|
    ensures Serving(Swap(w, name, seen, luck)[i], WithNew(w, own, luck), WithNew(w, alive, luck))
  {
    hide AltPort;
    var state, living, new_id := Swap(w, name, seen, luck)[i], WithNew(w, alive, luck), w.table.next;
    assert |OldName(name)| == |name| + 4;
    if state.config == w.config {
      assert AloneOn(state, living, state.config, id);
    } else {
      assert AloneOn(state, living, state.config, new_id);
    }
  }

  lemma CrowdedPortFails(w: World, name: string, own: set<nat>, alive: set<nat>, seen: int, luck: Luck, id: nat)
    requires Settled(w, name, own, alive, id) && !AloneOn(w, alive, w.config, id)
    ensures !Serving(Swap(w, name, seen, luck)[0], WithNew(w, own, luck), WithNew(w, alive, luck))
  {
    var other :| other in alive && other in w.table.ports && w.table.ports[other] == w.config && other != id;
    assert other in WithNew(w, alive, luck);
  }

  /** A new instance on the port in use disturbs the old one as soon as it is there. */
  lemma CollidingSwapFails(w: World, name: string, own: set<nat>, alive: set<nat>, seen: int, luck: Luck, id: nat)
    requires Settled(w, name, own, alive, id) && luck.start == Started && AltPort(seen) == w.config
    ensures !Serving(Swap(w, name, seen, luck)[2], WithNew(w, own, luck), WithNew(w, alive, luck))
  {
    assert |OldName(name)| == |name| + 4;
    var state, living := Swap(w, name, seen, luck)[2], WithNew(w, alive, luck);
    assert w.table.next in living && id in living;
    assert !AloneOn(state, living, state.config, id) && !AloneOn(state, living, state.config, w.table.next);
  }

  lemma UncoveredSwapFails(w: World, name: string, own: set<nat>, alive: set<nat>, seen: int, luck: Luck, id: nat)
    requires Settled(w, name, own, alive, id) && luck.ready
    requires !(luck.start == Started && luck.configOk && PortFree(w, alive, AltPort(seen)))
    requires luck.start == Started ==> AltPort(seen) != w.config
    ensures !Serving(Swap(w, name, seen, luck)[5], WithNew(w, own, luck), WithNew(w, alive, luck))
  {
    hide AltPort;
    assert |OldName(name)| == |name| + 4;
    var state, living := Swap(w, name, seen, luck)[5], WithNew(w, alive, luck);
    assert state.table.asked == w.table.asked + {id};
    if luck.start == Started && luck.configOk {
      var other :| other in alive && other in w.table.ports && w.table.ports[other] == AltPort(seen);
      assert other in living && state.table.ports[other] == state.config;
    }
  }

  /** At every state of the swap one of the app's own instances, not asked to stop and alone on the configured port,
      serves it, if and only if the old instance was alone on its port, the new one is not started on that port, and a
      successful probe implies that it was started, on a free port, and the route was written. The source ignores those
      errors, works with a port that may be out of date, and takes whoever answers on it for the new instance; it stops
      the old one all the same. */
  lemma AlwaysServedIff(w: World, name: string, own: set<nat>, alive: set<nat>, seen: int, luck: Luck, id: nat)
    requires Settled(w, name, own, alive, id)
    ensures SwapServed(w, name, own, alive, seen, luck) <==>
            AloneOn(w, alive, w.config, id) && Covered(w, alive, seen, luck)
  {
    hide Serving, Settled, AloneOn, PortFree, AltPort;
    if !AloneOn(w, alive, w.config, id) {
      CrowdedPortFails(w, name, own, alive, seen, luck, id);
    } else if Covered(w, alive, seen, luck) {
      forall i | 0 <= i < |Swap(w, name, seen, luck)|
        ensures Serving(Swap(w, name, seen, luck)[i], WithNew(w, own, luck), WithNew(w, alive, luck))
      {
        CoveredSwapServes(w, name, own, alive, seen, luck, id, i);
      }
    } else if luck.start == Started && AltPort(seen) == w.config {
      CollidingSwapFails(w, name, own, alive, seen, luck, id);
    } else {
      UncoveredSwapFails(w, name, own, alive, seen, luck, id);
    }
  }

  /** The port the store gives a new app: one more than the largest in use. */
  function NextPort(ports: seq<int>): int {
    if ports == [] then 40000
    else
      var n := |ports| - 1;
      if n == 0 || NextPort(ports[..n]) <= ports[n] then ports[n] + 1 else NextPort(ports[..n])
  }

  /** Paired ports do get taken: with one app swapped away from `p` - 1 and another on `p`, the next new app is given
      the port paired with `p`, and while it runs no swap from `p` whose probe succeeds keeps its app served. */
  lemma NewAppTakesPairedPort(p: int, luck: Luck)
    requires 40000 < p < 50000 && luck.ready
    ensures NextPort([AltPort(p - 1), p]) == AltPort(p)
    ensures var w := World(Table(map["b" := 0, "c" := 1], map[0 := p, 1 := AltPort(p)], {}, 2), p, p);
            && Settled(w, "b", {0}, {0, 1}, 0) && AloneOn(w, {0, 1}, p, 0)
            && !SwapServed(w, "b", {0}, {0, 1}, p, luck)
  {
    var ports := [AltPort(p - 1), p];
    assert ports[..1] == [AltPort(p - 1)];
    var w := World(Table(map["b" := 0, "c" := 1], map[0 := p, 1 := AltPort(p)], {}, 2), p, p);
    assert |OldName("b")| == 5;
    assert !PortFree(w, {0, 1}, AltPort(p)) by {
      var other := 1;
      assert other in w.table.ports && w.table.ports[other] == AltPort(p);
    }
    hide SwapServed;
    AlwaysServedIff(w, "b", {0}, {0, 1}, p, luck, 0);
  }

  /** If the probe fails every name, the old instance's included, stands for the record it stood for before, the
      route and the stored port are as before, and nobody but the new instance was asked to stop. */
  lemma FailedSwapRestores(w: World, name: string, alive: set<nat>, seen: int, luck: Luck)
    requires Tidy(w, name, alive) && !luck.ready
    ensures var f := Final(w, name, seen, luck);
            && f.table.names == w.table.names
            && f.config == w.config && f.port == w.port
            && f.table.asked - {w.table.next} == w.table.asked
            && (if luck.start == LogFails then f.table == w.table
                else f.table.next == w.table.next + 1 && f.table.ports == w.table.ports[w.table.next := AltPort(seen)]
                     && w.table.next in f.table.asked)
  {
    assert |OldName(name)| == |name| + 4;
  }

  /** After a successful probe nothing is left under the old name, the old instance, if there was one, was asked to
      stop, and instance, route and stored port agree on the paired port exactly when the new record was created and
      both store writes went through or were not needed. */
  lemma SuccessfulSwapAgreesIff(w: World, name: string, seen: int, luck: Luck)
    requires OldName(name) !in w.table.names && luck.ready
    ensures var f, newPort := Final(w, name, seen, luck), AltPort(seen);
            && name + "#old" !in f.table.names
            && f.table.asked == w.table.asked + (if name in w.table.names then {w.table.names[name]} else {})
            && ((name in f.table.names && f.table.names[name] in f.table.ports
                 && f.table.ports[f.table.names[name]] == f.config == f.port == newPort) <==>
                && luck.start != LogFails
                && (luck.configOk || w.config == newPort) && (luck.portOk || w.port == newPort))
  {
    hide AltPort;
    assert |OldName(name)| == |name| + 4;
  }

  /** The route is switched before the stored port: in no state is the port new while a route that could be written is
      not. Until the route is switched the old instance keeps its record. */
  lemma RouteBeforePort(w: World, name: string, seen: int, luck: Luck, i: nat)
    requires i < |Swap(w, name, seen, luck)| && OldName(name) !in w.table.names
    ensures var state := Swap(w, name, seen, luck)[i];
            && (state.config == w.config || state.config == AltPort(seen))
            && (state.port == w.port || state.port == AltPort(seen))
            && (state.port != w.port && luck.configOk ==> state.config == AltPort(seen))
            && (luck.configOk && name in w.table.names && state.config != AltPort(seen) ==>
                  (exists k :: k in state.table.names && state.table.names[k] == w.table.names[name]))
  {
    hide AltPort;
    assert |OldName(name)| == |name| + 4;
    var state := Swap(w, name, seen, luck)[i];
    if name in w.table.names {
      assert (name in state.table.names && state.table.names[name] == w.table.names[name])
             || (OldName(name) in state.table.names && state.table.names[OldName(name)] == w.table.names[name])
             || (luck.ready && i >= 3);
    }
  }

  // ---- Whole histories: the app is swapped while instances and other apps come and go ----

  /** `Exits` and `Respawns` are what the operating system and the supervisor's own restarts do to one instance. */
  datatype Happening =
    | SwapNow(seen: int, luck: Luck)
    | OtherStarts(other: string, port: int, outcome: Outcome)
    | OtherStops(other: string)
    | OtherDeleted(other: string)
    | Exits(id: nat)
    | Respawns(id: nat)

  datatype History = History(world: World, own: set<nat>, alive: set<nat>)

  function OneMore(h: History, name: string, e: Happening): History {
    var t := h.world.table;
    match e
    case SwapNow(seen, luck) =>
      History(Final(h.world, name, seen, luck), WithNew(h.world, h.own, luck), WithNew(h.world, h.alive, luck))
    case OtherStarts(other, port, o) =>
      h.(world := h.world.(table := Start(t, other, port, o)),
         alive := if o == Started then h.alive + {t.next} else h.alive)
    case OtherStops(other) => h.(world := h.world.(table := Stop(t, other)))
    case OtherDeleted(other) => h.(world := h.world.(table := Delete(t, other)))
    case Exits(id) => h.(alive := h.alive - {id})
    case Respawns(id) => h.(alive := if id in t.ports then h.alive + {id} else h.alive)
  }

  function After(h: History, name: string, events: seq<Happening>): History {
    if events == [] then h else OneMore(After(h, name, events[..|events| - 1]), name, events[|events| - 1])
  }

  /** Nobody else starts, stops or deletes anything under the app's names. */
  predicate KeepsOff(name: string, e: Happening) {
    e.OtherStarts? || e.OtherStops? || e.OtherDeleted? ==> e.other != name && e.other != OldName(name)
  }

  /** What must be so when the event happens: swaps are covered, nobody else starts on the app's port, and the app's
      instance does not die by itself. */
  ghost predicate SafeAt(h: History, name: string, e: Happening) {
    var t := h.world.table;
    match e
    case SwapNow(seen, luck) => Covered(h.world, h.alive, seen, luck)
    case OtherStarts(other, port, o) => o == Started ==> port != h.world.config
    case Exits(id) => name in t.names ==> id != t.names[name]
    case Respawns(id) => id in t.ports && t.ports[id] == h.world.config && name in t.names ==> id == t.names[name]
    case _ => true
  }

  ghost predicate GoodFor(h: History, name: string, id: nat) {
    Settled(h.world, name, h.own, h.alive, id) && AloneOn(h.world, h.alive, h.world.config, id)
  }

  ghost predicate Good(h: History, name: string) {
    exists id :: GoodFor(h, name, id)
  }

  lemma SucceededSwapTable(w: World, name: string, seen: int, luck: Luck)
    requires OldName(name) !in w.table.names && name in w.table.names
    requires luck.ready && luck.start == Started && luck.configOk
    ensures var f, t := Final(w, name, seen, luck), w.table;
            && f.table.names == t.names[name := t.next]
            && f.table == Table(f.table.names, t.ports[t.next := AltPort(seen)], t.asked + {t.names[name]}, t.next + 1)
            && f.config == AltPort(seen)
  {
    hide AltPort;
    assert |OldName(name)| == |name| + 4;
  }

  lemma SucceededSwapSettles(h: History, name: string, seen: int, luck: Luck, id: nat)
    requires GoodFor(h, name, id) && luck.ready && Covered(h.world, h.alive, seen, luck)
    ensures GoodFor(OneMore(h, name, SwapNow(seen, luck)), name, h.world.table.next)
    ensures OneMore(h, name, SwapNow(seen, luck)).world.config == AltPort(seen)
  {
    SucceededSwapTable(h.world, name, seen, luck);
    assert OldName(name) != name by { assert |OldName(name)| == |name| + 4; }
    hide AltPort, Final, Swap, OldName;
  }

  lemma FailedSwapSettles(h: History, name: string, seen: int, luck: Luck, id: nat)
    requires GoodFor(h, name, id) && !luck.ready && Covered(h.world, h.alive, seen, luck)
    ensures GoodFor(OneMore(h, name, SwapNow(seen, luck)), name, id)
  {
    FailedSwapRestores(h.world, name, h.alive, seen, luck);
    hide Final, Swap, OldName, AltPort;
    assert OneMore(h, name, SwapNow(seen, luck)).world.table.names == h.world.table.names;
  }

  lemma OtherEventServesIff(h: History, name: string, e: Happening, id: nat)
    requires GoodFor(h, name, id) && !e.SwapNow? && KeepsOff(name, e)
    ensures var h' := OneMore(h, name, e);
            && (Serving(h'.world, h'.own, h'.alive) <==> SafeAt(h, name, e))
            && (SafeAt(h, name, e) ==> GoodFor(h', name, id))
  {
    hide OldName;
    var h' := OneMore(h, name, e);
    if SafeAt(h, name, e) {
      assert GoodFor(h', name, id);
    } else {
      match e
      case OtherStarts(other, port, o) =>
        assert h.world.table.next in h'.alive;
        assert !AloneOn(h'.world, h'.alive, h'.world.config, id);
      case Exits(other) =>
      case Respawns(other) =>
        assert other in h'.alive && !AloneOn(h'.world, h'.alive, h'.world.config, id);
    }
  }

  /** The app is served throughout the `k`-th event of the history: in each state of a swap, else after the event. */
  ghost predicate ServedThroughout(h: History, name: string, events: seq<Happening>, k: nat)
    requires k < |events|
  {
    var before, after := After(h, name, events[..k]), After(h, name, events[..k + 1]);
    match events[k]
    case SwapNow(seen, luck) => SwapServed(before.world, name, before.own, before.alive, seen, luck)
    case _ => Serving(after.world, after.own, after.alive)
  }

  lemma EventServesIff(h: History, name: string, events: seq<Happening>, k: nat)
    requires k < |events| && KeepsOff(name, events[k]) && Good(After(h, name, events[..k]), name)
    ensures ServedThroughout(h, name, events, k) <==> SafeAt(After(h, name, events[..k]), name, events[k])
    ensures SafeAt(After(h, name, events[..k]), name, events[k]) ==> Good(After(h, name, events[..k + 1]), name)
  {
    var before, e := After(h, name, events[..k]), events[k];
    assert events[..k + 1][..k] == events[..k];
    assert After(h, name, events[..k + 1]) == OneMore(before, name, e);
    var id :| GoodFor(before, name, id);
    hide After, OneMore, AltPort, SwapServed, Settled, AloneOn, PortFree, Serving;
    match e
    case SwapNow(seen, luck) =>
      AlwaysServedIff(before.world, name, before.own, before.alive, seen, luck, id);
      hide GoodFor;
      if SafeAt(before, name, e) {
        if luck.ready {
          SucceededSwapSettles(before, name, seen, luck, id);
        } else {
          FailedSwapSettles(before, name, seen, luck, id);
        }
      }
    case _ =>
      OtherEventServesIff(before, name, e, id);
  }

  ghost predicate SafeSoFar(h: History, name: string, events: seq<Happening>, n: nat)
    requires n <= |events|
  {
    forall k :: 0 <= k < n ==> SafeAt(After(h, name, events[..k]), name, events[k])
  }

  ghost predicate ServedSoFar(h: History, name: string, events: seq<Happening>, n: nat)
    requires n <= |events|
  {
    forall k :: 0 <= k < n ==> ServedThroughout(h, name, events, k)
  }

  lemma {:induction false} SafeIsServed(h: History, name: string, events: seq<Happening>, n: nat)
    requires Good(h, name) && n <= |events| && forall k :: 0 <= k < |events| ==> KeepsOff(name, events[k])
    ensures SafeSoFar(h, name, events, n) <==> ServedSoFar(h, name, events, n)
    ensures SafeSoFar(h, name, events, n) ==> Good(After(h, name, events[..n]), name)
  {
    hide SafeAt, ServedThroughout, Good;
    if n > 0 {
      SafeIsServed(h, name, events, n - 1);
      hide After;
      assert SafeSoFar(h, name, events, n) <==>
             SafeSoFar(h, name, events, n - 1) && SafeAt(After(h, name, events[..n - 1]), name, events[n - 1]);
      assert ServedSoFar(h, name, events, n) <==>
             ServedSoFar(h, name, events, n - 1) && ServedThroughout(h, name, events, n - 1);
      hide SafeSoFar, ServedSoFar;
      if SafeSoFar(h, name, events, n - 1) {
        EventServesIff(h, name, events, n - 1);
      }
    } else {
      assert events[..0] == [];
    }
  }

  /** Along a history, however many swaps and with other instances starting, stopping, dying and coming back, the app
      is served in every state if and only if each event found what it needs when it happened. */
  lemma AlwaysServed(h: History, name: string, events: seq<Happening>)
    requires Good(h, name) && forall k :: 0 <= k < |events| ==> KeepsOff(name, events[k])
    ensures (forall k :: 0 <= k < |events| ==> ServedThroughout(h, name, events, k)) <==>
            (forall k :: 0 <= k < |events| ==> SafeAt(After(h, name, events[..k]), name, events[k]))
  {
    SafeIsServed(h, name, events, |events|);
  }

  // ---- Ports out of date, and instances that do not go ----

  /** A second deploy requested before a swap finished still has the old port: run after that swap, it starts on the
      port in use, and unless it fails both to start and to find someone answering, its app is not served throughout. */
  lemma StaleSwapFails(h: History, name: string, seen: int, first: Luck, second: Luck)
    requires Good(h, name) && Covered(h.world, h.alive, seen, first) && first.ready
    requires second.ready || second.start == Started
    ensures var h' := OneMore(h, name, SwapNow(seen, first));
            Good(h', name) && !SwapServed(h'.world, name, h'.own, h'.alive, seen, second)
  {
    var id :| GoodFor(h, name, id);
    SucceededSwapSettles(h, name, seen, first, id);
    hide OneMore, AltPort, SwapServed;
    var h', new_id := OneMore(h, name, SwapNow(seen, first)), h.world.table.next;
    AlwaysServedIff(h'.world, name, h'.own, h'.alive, seen, second, new_id);
    assert !PortFree(h'.world, h'.alive, AltPort(seen));
  }

  /** With the stored port up to date the port in use is never the new one. */
  lemma FreshPortIsOther(w: World, alive: set<nat>, luck: Luck)
    requires w.port == w.config
    ensures Covered(w, alive, w.port, luck) <==>
            (luck.ready ==> luck.start == Started && luck.configOk && PortFree(w, alive, AltPort(w.port)))
  {
    AltPortInvolutionIff(w.port);
  }

  /** A swap rolled back and tried again. The rolled-back instance was asked to stop; `events` is its record's life up
      to then and `more` up to the second swap, and it is up if and only if that life says so. The second swap, all else
      well, keeps the app served exactly if the instance is not up then. It is never started again if the stop request
      did not fall between a decision to spawn and the spawn; if it did, it can be up with no stop pending. */
  lemma RolledBackInstanceMustBeGone(h: History, name: string, first: Luck, second: Luck, seen: int,
                                     l: Limits, events: seq<Event>, more: seq<Event>)
    requires Good(h, name) && AltPort(seen) != h.world.config && PortFree(h.world, h.alive, AltPort(seen))
    requires first.start == Started && !first.ready
    requires second.start == Started && second.ready && second.configOk
    requires Life(l, events).Some? && events + [StopAsked] <= more && Life(l, more).Some?
    ensures var rolled := OneMore(h, name, SwapNow(seen, first));
            var now := if Life(l, more).value.phase == Alive then rolled
                       else OneMore(rolled, name, Exits(h.world.table.next));
            && h.world.table.next in rolled.world.table.asked
            && (SwapServed(now.world, name, now.own, now.alive, seen, second) <==> Life(l, more).value.phase != Alive)
    ensures Life(l, events).value.phase != Spawning ==> Spawns(more) == Spawns(events)
    ensures Life(l, events).value.phase == Spawning ==>
              exists lost :: events + [StopAsked] <= lost && Life(l, lost).Some? && Life(l, lost).value.phase == Alive
                             && !Life(l, lost).value.stopping
  {
    StopIsFinalIff(l, events);
    hide Life, Spawns;
    if Life(l, events).value.phase == Spawning {
      var lost := events + [StopAsked, SpawnOk(0.0)];
      assert events + [StopAsked] <= lost;
    }
    RolledBackInstance(h, name, first, second, seen, Life(l, more).value.phase == Alive);
  }

  lemma RolledBackInstance(h: History, name: string, first: Luck, second: Luck, seen: int, up: bool)
    requires Good(h, name) && AltPort(seen) != h.world.config && PortFree(h.world, h.alive, AltPort(seen))
    requires first.start == Started && !first.ready
    requires second.start == Started && second.ready && second.configOk
    ensures var rolled := OneMore(h, name, SwapNow(seen, first));
            var now := if up then rolled else OneMore(rolled, name, Exits(h.world.table.next));
            && h.world.table.next in rolled.world.table.asked
            && (SwapServed(now.world, name, now.own, now.alive, seen, second) <==> !up)
  {
    hide AltPort, SwapServed, Serving;
    var id :| GoodFor(h, name, id);
    var rolled, new_id := OneMore(h, name, SwapNow(seen, first)), h.world.table.next;
    FailedSwapSettles(h, name, seen, first, id);
    FailedSwapRestores(h.world, name, h.alive, seen, first);
    hide Swap, Final, OldName;
    var now := if up then rolled else OneMore(rolled, name, Exits(new_id));
    AlwaysServedIff(now.world, name, now.own, now.alive, seen, second, id);
    assert up ==> new_id in now.alive && now.world.table.ports[new_id] == AltPort(seen);
  }

  // ---- The stored port ----

  function Successes(events: seq<Happening>): nat {
    if events == [] then 0
    else
      var e := events[|events| - 1];
      Successes(events[..|events| - 1]) + if e.SwapNow? && e.luck.ready then 1 else 0
  }

  lemma PortsAfter(h: History, name: string, e: Happening)
    ensures var w, w' := h.world, OneMore(h, name, e).world;
            && w'.config == (if e.SwapNow? && e.luck.ready && e.luck.configOk then AltPort(e.seen) else w.config)
            && w'.port == (if e.SwapNow? && e.luck.ready && e.luck.portOk then AltPort(e.seen) else w.port)
  {
  }

  /** While every swap works with the stored port as it is and its writes succeed, route and stored port agree and tell
      the parity of the successful swaps. */
  lemma {:induction false} PortTellsParity(h: History, name: string, events: seq<Happening>)
    requires h.world.port == h.world.config && 40000 <= h.world.port < 60000
    requires forall k :: 0 <= k < |events| && events[k].SwapNow? ==>
      && events[k].seen == After(h, name, events[..k]).world.port
      && (events[k].luck.ready ==> events[k].luck.configOk && events[k].luck.portOk)
    ensures var w := After(h, name, events).world;
            w.config == w.port == if Successes(events) % 2 == 0 then h.world.port else AltPort(h.world.port)
  {
    AltPortInvolutionIff(h.world.port);
    hide AltPort, OneMore;
    if events != [] {
      var n := |events| - 1;
      var before := events[..n];
      assert forall k :: 0 <= k < n ==> before[..k] == events[..k];
      PortTellsParity(h, name, before);
      PortsAfter(After(h, name, before), name, events[n]);
    }
  }
}
