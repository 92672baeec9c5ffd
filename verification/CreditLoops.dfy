/** ValidateAllCreditLoopRoutes from end to end. */
module CreditLoops {
  import opened ArcRelations
  import opened Fabrics
  import opened RouteWalking
  import opened CreditRoutes
  import opened GraphViews
  import opened CreditGraphs
  import opened Splitting
  import opened WeakComponents
  import opened DeadlockVerdict
  import opened RouteGraphs
  import opened RouteRetrace
  import opened FabricWalks
  import opened FabricLoops
  import opened ServiceChannels

  // ---- Cycles of channels and cycles of vertex ids ----

  ghost predicate CyclicDeps(deps: set<Dep>) {
    HasLoop(AsDeps(deps))
  }

  lemma DepHasVertices(g: GraphView, d: Dep)
    requires Inv(g) && d in DepsOf(g)
    ensures d.from in g.byConn && d.to in g.byConn && Link(g.byConn[d.from], g.byConn[d.to]) in RelOf(g)
  {
    var k :| k in RelOf(g) && k.src < |g.vertices| && k.dst < |g.vertices| && DepOf(g.vertices, k) == d;
    VertexIsOk(g, k.src);
    VertexIsOk(g, k.dst);
  }

  lemma LinkIsDep(g: GraphView, k: Link)
    requires Inv(g) && k in RelOf(g)
    ensures k.src < |g.vertices| && k.dst < |g.vertices| && DepOf(g.vertices, k) in DepsOf(g)
  {
    RelInRange(g);
  }

  /** A graph has a cycle exactly when its connections depend on each other in a cycle. */
  lemma CyclesCorrespond(g: GraphView)
    requires Inv(g)
    ensures Cyclic(RelOf(g)) <==> CyclicDeps(DepsOf(g))
  {
    hide Inv, DepsOf, RelOf;
    if Cyclic(RelOf(g)) {
      var p :| IsCycle(RelOf(g), p);
      ConnsOfCycle(g, p);
    }
    if CyclicDeps(DepsOf(g)) {
      var cs :| RingIn(AsDeps(DepsOf(g)), cs);
      VerticesOfCycle(g, cs);
    }
  }

  lemma ConnsOfCycle(g: GraphView, p: seq<nat>)
    requires Inv(g) && IsCycle(RelOf(g), p)
    ensures CyclicDeps(DepsOf(g))
  {
    hide Inv, DepsOf, RelOf;
    forall i | 0 <= i < |p|
      ensures p[i] < |g.vertices|
    {
      LinkIsDep(g, ArcAt(p, if i == 0 then 0 else i - 1));
    }
    var cs := seq(|p|, i requires 0 <= i < |p| => g.vertices[p[i]].conn);
    forall i | 0 <= i && i + 1 < |cs|
      ensures DepAt(cs, i) in DepsOf(g)
    {
      LinkIsDep(g, ArcAt(p, i));
      assert DepAt(cs, i) == DepOf(g.vertices, ArcAt(p, i));
    }
    assert RingIn(AsDeps(DepsOf(g)), cs);
  }

  lemma VerticesOfCycle(g: GraphView, cs: seq<Channel>)
    requires Inv(g) && Ring(cs)
    requires forall i {:trigger DepAt(cs, i)} :: 0 <= i && i + 1 < |cs| ==> DepAt(cs, i) in DepsOf(g)
    ensures Cyclic(RelOf(g))
  {
    hide Inv, DepsOf, RelOf;
    forall i | 0 <= i < |cs|
      ensures cs[i] in g.byConn
    {
      DepHasVertices(g, DepAt(cs, if i == 0 then 0 else i - 1));
    }
    var p := seq(|cs|, i requires 0 <= i < |cs| => g.byConn[cs[i]]);
    forall i | 0 <= i && i + 1 < |p|
      ensures ArcAt(p, i) in RelOf(g)
    {
      DepHasVertices(g, DepAt(cs, i));
    }
    assert IsCycle(RelOf(g), p);
  }

  // ---- End to end ----

  lemma LoopIsCycle(f: Fabric, db: Db, sls: set<nat>, deps: set<Dep>)
    requires DbOk(f, db) && forall d :: d in deps <==> IsRouteDep(f, db, sls, d)
    ensures (CyclicDeps(deps) <==> CreditLoop(f, db, sls)) && AsDeps(deps) == RouteDeps(f, db, sls)
  {
    hide IsRouteDep, DbOk, HasLoop;
    assert AsDeps(deps) == RouteDeps(f, db, sls);
  }

  datatype Report = NothingRecorded | DeadlockFreeRoutes | DeadlockDetected(parts: nat)

  /** The most dependencies that feed each other fall into `n` disconnected parts. */
  ghost predicate PartsAre(all: iset<Dep>, n: nat) {
    exists core :: IsCore(core, all) && n == |DepParts(core)|
  }

  /** Their number is determined. */
  lemma PartsUnique(all: iset<Dep>, m: nat, n: nat)
    requires PartsAre(all, m) && PartsAre(all, n)
    ensures m == n
  {
    hide IsCore, DepParts;
    var a :| IsCore(a, all) && m == |DepParts(a)|;
    var b :| IsCore(b, all) && n == |DepParts(b)|;
    CoreUnique(a, b, all);
  }

  function PartsOf(report: Report): nat {
    if report.DeadlockDetected? then report.parts else 0
  }

  /** The graph of the routes the builder walks, and its verdict. */
  method AnalyzeRoutes(f: Fabric, db: Db, usedSls: set<nat>) returns (report: Report)
    requires DbOk(f, db) && NoneRunsAway(f, db)
    ensures report != NothingRecorded && (report == DeadlockFreeRoutes <==> !CreditLoop(f, db, usedSls))
    ensures PartsAre(RouteDeps(f, db, usedSls), PartsOf(report)) && report != DeadlockDetected(0)
  {
    hide DbOk, Inv, DepsOf, CreditLoop, IsRouteDep, VertexViews, NoneRunsAway, RouteDeps, IsCore, DepParts,
      Components;
    var graph := new Graph();
    var present, missing := BuildRouteGraph(f, db, graph, usedSls);
    ghost var g := graph.View();
    CyclesCorrespond(g);
    LoopIsCycle(f, db, usedSls, DepsOf(g));
    assert graph.vertices == [] + graph.vertices[0..];
    ghost var core;
    var free, parts;
    free, parts, core := DeadlockFree(graph);
    CoreOfGraph(g, core);
    report := if free then DeadlockFreeRoutes else DeadlockDetected(parts);
  }

  /** The service levels in use, those of the virtual fabrics and of their responses, and the least set of
      service channels they can turn into, if `useScs`; otherwise nothing. */
  ghost predicate UsedIs(f: Fabric, numPorts: map<nat, nat>, vfs: seq<Vf>, useScs: bool, sls: set<nat>, scs: set<nat>) {
    if useScs then
      && (forall sl :: sl in sls <==> exists vf <- vfs :: vf.slBase == sl || vf.slResponse == Some(sl))
      && LeastUsed(f, numPorts, sls, {}, scs)
    else sls == {} && scs == {}
  }

  method FindUsed(f: Fabric, l: Lists, numPorts: map<nat, nat>, vfs: seq<Vf>, useScs: bool)
    returns (sls: set<nat>, scs: set<nat>)
    requires FabricOk(f) && (useScs ==> ListsOk(f, l) && QosKnown(f, numPorts))
    ensures UsedIs(f, numPorts, vfs, useScs, sls, scs) && forall sc <- scs :: sc < MAX_SCS
  {
    sls, scs := {}, {};
    if useScs {
      var found;
      sls, found := GetSLSCInfo(f, l, numPorts, vfs, {}, Some({}));
      scs := found.value;
    }
  }

  /** The counters tell whether anything was recorded. */
  lemma NothingToBuild(f: Fabric, db: Db)
    requires DbOk(f, db)
    ensures db.devices == map[] || db.connectionCount == 0 || db.routeCount == 0
            <==> ConnectionKeys(db) == {} || RouteKeys(db) == {}
  {
    if ConnectionKeys(db) != {} {
      var key := Member(ConnectionKeys(db));
      assert key.0 in db.devices;
    }
  }

  /** A good path leaves a route and its connection behind. */
  lemma GoodPathRecorded(f: Fabric, ports: seq<Port>, db: Db, used: set<nat>, fine: bool)
    requires Collected(f, ports, db, used, fine) && |PathSet(f, db, ports, |ports|, 0, true)| > 0
    ensures ConnectionKeys(db) != {} && RouteKeys(db) != {}
  {
    hide Walk, Routable, DbOk, Sourced;
    var path := Member(PathSet(f, db, ports, |ports|, 0, true));
    var start, target := ports[path.0], ports[path.1];
    var dlid := f.ports[target].lid + path.2;
    assert PairSettled(f, db, start, target, fine);
    assert PathSettled(f, db, start, target, path.2, fine);
    var hops, last := WalkArrives(f, start, dlid, 0);
    assert Walk(f, start, dlid, 0).trace[0].exit == Some(start);
    assert (start.node, dlid) in RouteKeys(db) && RouteWired(f, db, used, start.node, dlid);
    var sc := Member(SlotScs(f, start, used));
    assert (start.node, Slot(start.num, sc)) in ConnectionKeys(db);
  }

  /** The whole analysis. On a fabric on which no walk goes round it terminates, it records every route
      there is between the ports, on every service channel in use, unless an FI already leaves for the
      destination by another port, and it reports a deadlock if and only if the routes it walks, to one
      stored LID of each FI, contain a credit loop; then with the number of disconnected parts of the
      dependencies that feed each other. */
  method ValidateAllCreditLoopRoutes(f: Fabric, l: Lists, numPorts: map<nat, nat>, vfs: seq<Vf>, ports: seq<Port>,
                                     useScs: bool)
    returns (report: Report, paths: nat, badPaths: nat, sls: set<nat>, scs: set<nat>, ghost db: Db)
    requires FabricOk(f) && (useScs ==> ListsOk(f, l) && QosKnown(f, numPorts))
    requires (forall i :: 0 <= i < |ports| ==> FiPort(f, ports[i])) && FabricSafe(f, ports)
    ensures UsedIs(f, numPorts, vfs, useScs, sls, scs)
    ensures Collected(f, ports, db, scs, badPaths == 0) && NoneRunsAway(f, db) && DbOk(f, db)
    ensures paths == |PathSet(f, db, ports, |ports|, 0, true)|
    ensures badPaths == |PathSet(f, db, ports, |ports|, 0, false)|
    ensures report != NothingRecorded ==>
              && (report == DeadlockFreeRoutes <==> !CreditLoop(f, db, sls))
              && PartsAre(RouteDeps(f, db, sls), PartsOf(report)) && report != DeadlockDetected(0)
    ensures report == NothingRecorded <==> ConnectionKeys(db) == {} || RouteKeys(db) == {}
    ensures paths > 0 ==> report != NothingRecorded
  {
    hide DbOk, CreditLoop, IsRouteDep, AllSettled, Wired, Sourced, FabricSafe, NoneRunsAway, UsedIs, RouteDeps,
      PartsAre, PathSet;
    sls, scs := FindUsed(f, l, numPorts, vfs, useScs);
    var store := new RouteStore();
    paths, badPaths := CollectRoutes(f, store, ports, scs);
    db := store.View();
    SafeStays(f, ports, db);
    NothingToBuild(f, db);
    if paths > 0 {
      GoodPathRecorded(f, ports, db, scs, badPaths == 0);
    }
    if store.devices == map[] || store.connectionCount == 0 || store.routeCount == 0 {
      return NothingRecorded, paths, badPaths, sls, scs, db;
    }
    report := AnalyzeRoutes(f, store.View(), sls);
  }

  /** What the verdict means for the fabric, where FIs have one port each and base LIDs fit 16 bits, and no
      path was bad or all port numbers are in range: a deadlock is reported if and only if the routes to the
      base LIDs, as the SC tables have them, use channels one right after the other in a cycle. It is so of
      the walks to the base LIDs themselves with service channels ignored; with them in use, if level 0
      arrives wherever a level in use does, as it does with no bad path, and no level is refused past its
      second exit. Loops of walks to other LIDs are then missed exactly if the walks to the base LIDs have
      none. With service channels in use all linked ports must have their tables, and no table for a last
      egress port may lead to a channel that the scan has not found. */
  lemma VerdictExactOnFabric(f: Fabric, numPorts: map<nat, nat>, vfs: seq<Vf>, ports: seq<Port>, db: Db, useScs: bool,
                             good: bool, sls: set<nat>, scs: set<nat>)
    requires UsedIs(f, numPorts, vfs, useScs, sls, scs) && Collected(f, ports, db, scs, good)
    requires SinglePort(f) && BasesStored(f, ports) && (good || PortsFit(f)) && forall p <- ports :: FiPort(f, p)
    requires useScs ==> QosKnown(f, numPorts) && PortsNumbered(f, numPorts) && QosLinked(f)
                        && LastClosed(f, numPorts, scs)
    ensures DbOk(f, db) && RouteDeps(f, db, sls) == TableDeps(f, ports, sls)
    ensures CreditLoop(f, db, sls) <==> HasLoop(TableDeps(f, ports, sls))
    ensures (!useScs || good || ZeroArrives(f, ports, sls)) && (!useScs || LevelsArrive(f, ports, sls)) ==>
              && (CreditLoop(f, db, sls) <==> BaseLoop(f, ports, sls))
              && (FabricLoop(f, ports, sls) && !CreditLoop(f, db, sls)
                  <==> FabricLoop(f, ports, sls) && !BaseLoop(f, ports, sls))
  {
    hide CreditLoop, FabricLoop, BaseLoop, AllSettled, Wired, Sourced, DbOk, SinglePort, BasesStored, RoutesFit,
      QosKnown, LastClosed, PortsNumbered, QosLinked, PortsFit, ZeroArrives, LevelsArrive, HasLoop;
    if PortsFit(f) {
      PortsFitRoutes(f, ports);
    }
    UsedRight(f, numPorts, vfs, useScs, sls, scs);
    assert Analysis(f, numPorts, ports, db, scs, good, sls);
    RouteDepsExact(f, numPorts, ports, db, scs, good, sls);
    VerdictOnBases(f, numPorts, ports, db, scs, good, sls);
    if good {
      GoodArrives(f, ports, db, scs, sls);
    }
    if !useScs {
      IgnoredArrives(f, ports);
    }
  }

  lemma UsedRight(f: Fabric, numPorts: map<nat, nat>, vfs: seq<Vf>, useScs: bool, sls: set<nat>, scs: set<nat>)
    requires UsedIs(f, numPorts, vfs, useScs, sls, scs)
    requires useScs ==> QosKnown(f, numPorts) && PortsNumbered(f, numPorts) && QosLinked(f)
                        && LastClosed(f, numPorts, scs)
    ensures ScsRight(f, numPorts, sls, scs)
  {
    if useScs {
      InvalidUnused(f, numPorts, sls, scs);
      if sls == {} {
        assert HasImages(f, sls, {}) && Closed(f, numPorts, {});
      }
    }
  }
}
