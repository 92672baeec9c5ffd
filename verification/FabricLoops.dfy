/** Credit loops of the fabric itself: channels that its walks use one right after the other, in a
    cycle; and how the dependencies the builder finds compare with them. */
module FabricLoops {
  import opened Fabrics
  import opened RouteWalking
  import opened CreditRoutes
  import opened GraphViews
  import opened RouteGraphs
  import opened RouteRetrace
  import opened ServiceChannels
  import opened Splitting
  import opened FabricWalks

  // ---- Loops of dependencies ----

  predicate Ring(cs: seq<Channel>) {
    |cs| >= 2 && cs[0] == cs[|cs| - 1]
  }

  function DepAt(cs: seq<Channel>, i: nat): Dep
    requires i + 1 < |cs|
  {
    Dep(cs[i], cs[i + 1])
  }

  ghost predicate RingIn(deps: iset<Dep>, cs: seq<Channel>) {
    Ring(cs) && forall i {:trigger DepAt(cs, i)} :: 0 <= i && i + 1 < |cs| ==> DepAt(cs, i) in deps
  }

  /** Some channels depend on each other in a cycle. */
  ghost predicate HasLoop(deps: iset<Dep>) {
    exists cs :: RingIn(deps, cs)
  }

  lemma LoopsMore(a: iset<Dep>, b: iset<Dep>)
    requires a <= b && HasLoop(a)
    ensures HasLoop(b)
  {
    var cs :| RingIn(a, cs);
    assert RingIn(b, cs);
  }

  /** Where every dependency rises in some rank there is no cycle. */
  lemma RisingNeverLoops(deps: iset<Dep>, rank: Channel -> nat)
    requires forall d :: d in deps ==> rank(d.from) < rank(d.to)
    ensures !HasLoop(deps)
  {
    if HasLoop(deps) {
      var cs :| RingIn(deps, cs);
      RanksRise(deps, rank, cs, |cs| - 1);
    }
  }

  lemma {:induction false} RanksRise(deps: iset<Dep>, rank: Channel -> nat, cs: seq<Channel>, i: nat)
    requires (forall d :: d in deps ==> rank(d.from) < rank(d.to)) && RingIn(deps, cs) && i < |cs|
    ensures rank(cs[i]) >= rank(cs[0]) + i
  {
    if i > 0 {
      RanksRise(deps, rank, cs, i - 1);
      assert DepAt(cs, i - 1) in deps;
    }
  }

  // ---- The dependencies of the fabric's walks ----

  /** The analysis covers a path from `x` to `dlid`. */
  ghost predicate Pathed(f: Fabric, ports: seq<Port>, x: Port, dlid: nat) {
    x in ports && exists t :: t in ports && Analyzed(f, x, t)
                              && f.ports[t].lid <= dlid < f.ports[t].lid + PathCount(f, x, t)
  }

  /** A service level the builder walks. */
  ghost predicate Level(sls: set<nat>, sl: nat) {
    sl in WalkedSls(sls) && sl < MAX_SLS
  }

  /** `d` are the `i`-th and the next channel of the walk from `x` to `dlid` on service level `sl`, which
      arrives. */
  ghost predicate WalkPair(f: Fabric, ports: seq<Port>, sls: set<nat>, d: Dep, x: Port, dlid: nat, sl: nat,
                           path: seq<Port>, last: Port, i: nat)
  {
    && Pathed(f, ports, x, dlid) && Level(sls, sl) && Way(f, x, dlid, path, last)
    && Walk(f, x, dlid, sl).outcome == Arrived && i < |path|
    && d == Dep(ChannelAt(f, x, dlid, sl, sls, path, last, i), ChannelAt(f, x, dlid, sl, sls, path, last, i + 1))
  }

  /** Some walk from the ports to `dlid` leaves by `d.to` right after `d.from`. */
  ghost predicate WalkDep(f: Fabric, ports: seq<Port>, sls: set<nat>, dlid: nat, d: Dep) {
    exists x: Port, sl: nat, path: seq<Port>, last: Port, i: nat ::
      WalkPair(f, ports, sls, d, x, dlid, sl, path, last, i)
  }

  ghost predicate FabricDep(f: Fabric, ports: seq<Port>, sls: set<nat>, d: Dep) {
    exists dlid: nat :: WalkDep(f, ports, sls, dlid, d)
  }

  ghost predicate BaseDep(f: Fabric, ports: seq<Port>, sls: set<nat>, d: Dep) {
    exists t :: t in ports && t in f.ports && WalkDep(f, ports, sls, f.ports[t].lid, d)
  }

  /** The dependencies of all walks between the ports that arrive on a service level in use, to any of the
      LIDs. */
  ghost function FabricDeps(f: Fabric, ports: seq<Port>, sls: set<nat>): iset<Dep> {
    iset d | FabricDep(f, ports, sls, d)
  }

  /** Those of the walks to the base LIDs of the ports. */
  ghost function BaseDeps(f: Fabric, ports: seq<Port>, sls: set<nat>): iset<Dep> {
    iset d | BaseDep(f, ports, sls, d)
  }

  ghost predicate FabricLoop(f: Fabric, ports: seq<Port>, sls: set<nat>) {
    HasLoop(FabricDeps(f, ports, sls))
  }

  ghost predicate BaseLoop(f: Fabric, ports: seq<Port>, sls: set<nat>) {
    HasLoop(BaseDeps(f, ports, sls))
  }

  lemma BaseIsFabric(f: Fabric, ports: seq<Port>, sls: set<nat>)
    ensures BaseDeps(f, ports, sls) <= FabricDeps(f, ports, sls)
    ensures BaseLoop(f, ports, sls) ==> FabricLoop(f, ports, sls)
  {
    hide WalkDep;
    assert forall d :: BaseDep(f, ports, sls, d) ==> FabricDep(f, ports, sls, d);
    if BaseLoop(f, ports, sls) {
      LoopsMore(BaseDeps(f, ports, sls), FabricDeps(f, ports, sls));
    }
  }

  // ---- The dependencies of routes under the SC tables alone ----

  /** `d` are the `i`-th and the next channel of the route from `x` to `dlid`, whose walk on service level
      0 arrives, as the SC tables have them for level `sl`; none so far has yielded 15. */
  ghost predicate TablePair(f: Fabric, ports: seq<Port>, sls: set<nat>, d: Dep, x: Port, dlid: nat, sl: nat,
                            path: seq<Port>, last: Port, i: nat)
  {
    && Recordable(f, ports, x, dlid) && Level(sls, sl) && Way(f, x, dlid, path, last)
    && i < |path| && Unrefused(f, x, dlid, sl, sls, path, last, i + 1)
    && d == Dep(ChannelAt(f, x, dlid, sl, sls, path, last, i), ChannelAt(f, x, dlid, sl, sls, path, last, i + 1))
  }

  ghost predicate TableDep(f: Fabric, ports: seq<Port>, sls: set<nat>, dlid: nat, d: Dep) {
    exists x: Port, sl: nat, path: seq<Port>, last: Port, i: nat ::
      TablePair(f, ports, sls, d, x, dlid, sl, path, last, i)
  }

  ghost predicate StoredDep(f: Fabric, ports: seq<Port>, sls: set<nat>, d: Dep) {
    exists t :: t in ports && t in f.ports && TableDep(f, ports, sls, StoredLid(f.ports[t].lid), d)
  }

  /** The dependencies of the routes to the stored base LIDs of the ports. */
  ghost function TableDeps(f: Fabric, ports: seq<Port>, sls: set<nat>): iset<Dep> {
    iset d | StoredDep(f, ports, sls, d)
  }

  // ---- What the builder finds ----

  ghost function RouteDeps(f: Fabric, db: Db, sls: set<nat>): iset<Dep>
    requires DbOk(f, db)
  {
    iset d | IsRouteDep(f, db, sls, d)
  }

  /** A credit loop among the routes the builder walks: one stored LID of each FI. */
  ghost predicate CreditLoop(f: Fabric, db: Db, sls: set<nat>)
    requires DbOk(f, db)
  {
    HasLoop(RouteDeps(f, db, sls))
  }

  lemma WalkableEnds(f: Fabric, db: Db, src: nat, dst: nat, sl: nat, sls: set<nat>)
    requires DbOk(f, db) && Walkable(f, db, src, dst, sl, sls)
    ensures src in db.devices && dst in db.devices && src in db.fis && dst in db.fis && src != dst
    ensures IsNode(f, src, FI) && IsNode(f, dst, FI) && Level(sls, sl)
  {
  }

  lemma NoRouteNoChannels(f: Fabric, db: Db, src: nat, dst: nat, dlid: nat, sl: nat, sls: set<nat>)
    requires DbOk(f, db) && src in db.devices && dst in db.devices && sl < MAX_SLS && src != dst
    requires dlid == StoredLid(db.devices[dst].lid) && RouteChannels(f, db, src, dst, sl, sls) != []
    ensures dlid in db.devices[src].routes
  {
  }

  lemma PairOfPrefix(cs: seq<Channel>, whole: seq<Channel>, d: Dep) returns (i: nat)
    requires |cs| <= |whole| && cs == whole[..|cs|] && d in PairDeps(cs)
    ensures i + 1 < |cs| && d == Dep(whole[i], whole[i + 1])
  {
    PairDepsAre(cs, d);
    i :| 0 <= i < |cs| - 1 && d == Dep(cs[i], cs[i + 1]);
  }

  /** On any fabric on which no walk runs away, every dependency the builder finds is one of a route to the
      stored base LID of a port, under the SC tables. */
  lemma DepIsTableDep(f: Fabric, numPorts: map<nat, nat>, ports: seq<Port>, db: Db, used: set<nat>, good: bool,
                      sls: set<nat>, d: Dep)
    requires Collected(f, ports, db, used, good) && (good || RoutesFit(f, ports)) && NoneRunsAway(f, db)
    requires ScsRight(f, numPorts, sls, used) && IsRouteDep(f, db, sls, d)
    ensures d in TableDeps(f, ports, sls)
  {
    hide DbOk, AllSettled, Wired, Recordable, Way, Unrefused, ScsRight, RoutesFit, ExitsRouted, ChannelAt;
    var src, dst, sl :| Walkable(f, db, src, dst, sl, sls) && d in WalkDeps(f, db, src, dst, sl, sls);
    WalkableEnds(f, db, src, dst, sl, sls);
    assert FiSourced(f, ports, db, dst);
    var t :| t in ports && t in f.ports && t.node == dst && db.devices[dst].lid == f.ports[t].lid;
    var dlid := StoredLid(db.devices[dst].lid);
    var cs := RouteChannels(f, db, src, dst, sl, sls);
    PairDepsAre(cs, d);
    NoRouteNoChannels(f, db, src, dst, dlid, sl, sls);
    var path, last := EntryIsKnown(f, ports, db, used, good, src, dlid);
    var x := db.devices[src].routes[dlid];
    RouteExact(f, numPorts, db, used, x, dst, sl, sls, path, last);
    var i := PairOfPrefix(cs, ChannelsFrom(f, x, dlid, sl, sls, path, last, 0), d);
    ChannelsIndex(f, x, dlid, sl, sls, path, last, 0, i);
    ChannelsIndex(f, x, dlid, sl, sls, path, last, 0, i + 1);
    assert TablePair(f, ports, sls, d, x, dlid, sl, path, last, i);
    assert TableDep(f, ports, sls, StoredLid(f.ports[t].lid), d);
  }

  /** So a loop that is reported is one of those routes. */
  lemma LoopIsTables(f: Fabric, numPorts: map<nat, nat>, ports: seq<Port>, db: Db, used: set<nat>, good: bool,
                     sls: set<nat>)
    requires Collected(f, ports, db, used, good) && (good || RoutesFit(f, ports)) && NoneRunsAway(f, db)
    requires ScsRight(f, numPorts, sls, used)
    ensures DbOk(f, db) && (CreditLoop(f, db, sls) ==> HasLoop(TableDeps(f, ports, sls)))
  {
    hide IsRouteDep, DbOk, TableDeps, AllSettled, Wired, Sourced, RoutesFit, ScsRight, NoneRunsAway, HasLoop;
    CollectedOk(f, ports, db, used, good);
    forall d | IsRouteDep(f, db, sls, d)
      ensures d in TableDeps(f, ports, sls)
    {
      DepIsTableDep(f, numPorts, ports, db, used, good, sls, d);
    }
    if CreditLoop(f, db, sls) {
      LoopsMore(RouteDeps(f, db, sls), TableDeps(f, ports, sls));
    }
  }

  // ---- Exactness, where no FI has two ports ----

  /** What an analysis has collected on a fabric whose FIs answer for LIDs by one port each, with base LIDs
      of 16 bits, when no path was bad or all routes go by port numbers in range. */
  ghost predicate Analysis(f: Fabric, numPorts: map<nat, nat>, ports: seq<Port>, db: Db, used: set<nat>, good: bool,
                           sls: set<nat>)
  {
    && Collected(f, ports, db, used, good) && SinglePort(f) && BasesStored(f, ports)
    && (good || RoutesFit(f, ports)) && ScsRight(f, numPorts, sls, used) && forall p <- ports :: FiPort(f, p)
  }

  lemma AnalysisOk(f: Fabric, numPorts: map<nat, nat>, ports: seq<Port>, db: Db, used: set<nat>, good: bool,
                   sls: set<nat>)
    requires Analysis(f, numPorts, ports, db, used, good, sls)
    ensures DbOk(f, db) && FabricOk(f) && Wired(f, db, used) && NoneRunsAway(f, db) && Sourced(f, ports, db)
  {
    hide DbOk, Wired, Sourced, AllSettled, FabricSafe, NoneRunsAway, RoutesFit, ScsRight;
    CollectedOk(f, ports, db, used, good);
    SafeFabrics(f, ports);
    SafeStays(f, ports, db);
  }

  /** A path to the base LID of a port is analyzed exactly if one to the port is. */
  lemma BasePathed(f: Fabric, ports: seq<Port>, x: Port, t: Port)
    requires t in ports && FiPort(f, t)
    ensures Analyzed(f, x, t) && x in ports ==> Pathed(f, ports, x, f.ports[t].lid)
    ensures Pathed(f, ports, x, f.ports[t].lid) ==> Analyzed(f, x, t)
    ensures Recordable(f, ports, x, f.ports[t].lid)
            <==> x in ports && Analyzed(f, x, t) && Walk(f, x, f.ports[t].lid, 0).outcome == Arrived
  {
    hide Walk;
    var lid := f.ports[t].lid;
    forall s | s in ports && Analyzed(f, x, s) && f.ports[s].lid <= lid < f.ports[s].lid + PathCount(f, x, s)
      ensures s == t
    {
      assert Registered(f, s, lid) && Registered(f, t, lid);
    }
    assert x in ports && Analyzed(f, x, t) && Walk(f, x, lid, 0).outcome == Arrived ==> PathTo(f, x, t, lid);
  }

  /** The route from `x` to the base LID of `t`: both FIs are recorded, and all exits. */
  lemma BaseKnown(f: Fabric, numPorts: map<nat, nat>, ports: seq<Port>, db: Db, used: set<nat>, good: bool,
                  sls: set<nat>, x: Port, t: Port)
    returns (path: seq<Port>, last: Port)
    requires Analysis(f, numPorts, ports, db, used, good, sls) && t in ports && Recordable(f, ports, x, f.ports[t].lid)
    ensures last == t && Way(f, x, f.ports[t].lid, path, t) && ExitsRouted(f, db, x, f.ports[t].lid, path, t)
    ensures x.node in db.fis && t.node in db.fis && x.node in db.devices && t.node in db.devices && x.node != t.node
    ensures IsNode(f, t.node, FI) && db.devices[t.node].lid == f.ports[t].lid == StoredLid(f.ports[t].lid)
  {
    hide Walk, AllSettled, Wired, DbOk, RoutesFit, ScsRight, Way, SinglePort, BasesStored, Sourced;
    var lid := f.ports[t].lid;
    AnalysisOk(f, numPorts, ports, db, used, good, sls);
    BasePathed(f, ports, x, t);
    path, last := WayOfRecordable(f, ports, x, lid);
    PortIsOwner(f, t);
    NodeIsFi(f, x);
    assert LeavesFor(f, ports, x.node, lid);
    LeavesByEntry(f, ports, db, used, good, x.node, lid);
    var path', last' := EntryIsKnown(f, ports, db, used, good, x.node, lid);
    EntryIsPort(f, ports, db, x, lid);
    path := path';
    StartRouted(f, db, x, lid, path, t);
    LastRecorded(f, db, x, lid, path, t);
    RecordedFi(f, db, t.node);
    BaseDevice(f, ports, db, t);
    BaseStored(f, ports, t);
    if x.node == t.node {
      OnePort(f, x, t);
    }
  }

  lemma BaseStored(f: Fabric, ports: seq<Port>, t: Port)
    requires BasesStored(f, ports) && t in ports && t in f.ports
    ensures StoredLid(f.ports[t].lid) == f.ports[t].lid
  {
  }

  /** The entry of an FI is by its one port. */
  lemma EntryIsPort(f: Fabric, ports: seq<Port>, db: Db, x: Port, lid: nat)
    requires Sourced(f, ports, db) && SinglePort(f) && FiPort(f, x) && f.ports[x].lid != 0
    requires x.node in db.devices && lid in db.devices[x.node].routes
    ensures db.devices[x.node].routes[lid] == x && Recordable(f, ports, x, lid)
  {
    hide Walk, SinglePort;
    NodeIsFi(f, x);
    assert FiSourced(f, ports, db, x.node);
    var y := db.devices[x.node].routes[lid];
    var s :| s in ports && PathTo(f, y, s, lid);
    OnePort(f, x, y);
  }

  lemma BaseDevice(f: Fabric, ports: seq<Port>, db: Db, t: Port)
    requires DbOk(f, db) && Sourced(f, ports, db) && SinglePort(f) && t in ports && FiPort(f, t) && f.ports[t].lid != 0
    requires (forall p <- ports :: FiPort(f, p)) && t.node in db.devices
    ensures db.devices[t.node].lid == f.ports[t].lid
  {
    hide Walk, SinglePort, Recordable;
    NodeIsFi(f, t);
    assert FiSourced(f, ports, db, t.node);
    var p :| p in ports && p in f.ports && p.node == t.node && db.devices[t.node].lid == f.ports[p].lid;
    assert DeviceOk(f, db, t.node);
    OnePort(f, p, t);
  }

  /** The builder finds every dependency of a route under the SC tables. */
  lemma TableDepIsDep(f: Fabric, numPorts: map<nat, nat>, ports: seq<Port>, db: Db, used: set<nat>, good: bool,
                      sls: set<nat>, d: Dep)
    requires Analysis(f, numPorts, ports, db, used, good, sls) && d in TableDeps(f, ports, sls)
    ensures DbOk(f, db) && IsRouteDep(f, db, sls, d)
  {
    hide AllSettled, Wired, Walk, Way, Unrefused, ChannelAt, ScsRight, DbOk, RoutesFit, SinglePort, Sourced, Recordable,
      ExitsRouted;
    var t :| t in ports && t in f.ports && TableDep(f, ports, sls, StoredLid(f.ports[t].lid), d);
    var lid := f.ports[t].lid;
    var x: Port, sl: nat, path: seq<Port>, last: Port, i: nat :|
      TablePair(f, ports, sls, d, x, lid, sl, path, last, i);
    AnalysisOk(f, numPorts, ports, db, used, good, sls);
    var path', last' := BaseKnown(f, numPorts, ports, db, used, good, sls, x, t);
    OneWay(f, x, lid, path, last, path', last');
    RouteExact(f, numPorts, db, used, x, t.node, sl, sls, path, last);
    ChannelsIndex(f, x, lid, sl, sls, path, last, 0, i);
    ChannelsIndex(f, x, lid, sl, sls, path, last, 0, i + 1);
    var cs := RouteChannels(f, db, x.node, t.node, sl, sls);
    assert d == Dep(cs[i], cs[i + 1]);
    PairDepsAre(cs, d);
    assert Walkable(f, db, x.node, t.node, sl, sls) && d in WalkDeps(f, db, x.node, t.node, sl, sls);
  }

  /** A LID is reached from a port by one route only. */
  lemma OneWay(f: Fabric, x: Port, lid: nat, path: seq<Port>, last: Port, path': seq<Port>, last': Port)
    requires Way(f, x, lid, path, last) && Way(f, x, lid, path', last')
    ensures path == path' && last == last'
  {
    LastIsOwner(f, x, lid, path, last);
    LastIsOwner(f, x, lid, path', last');
    WaysAgree(f, x, lid, path, path', last, |path|);
    WaysAgree(f, x, lid, path', path, last, |path'|);
    assert path[..|path|] == path && path'[..|path'|] == path';
  }

  lemma {:induction false} WaysAgree(f: Fabric, x: Port, lid: nat, path: seq<Port>, path': seq<Port>, last: Port,
                                     i: nat)
    requires Way(f, x, lid, path, last) && Way(f, x, lid, path', last) && i <= |path|
    ensures i <= |path'| && path'[..i] == path[..i]
    decreases i
  {
    if i > 0 {
      WaysAgree(f, x, lid, path, path', last, i - 1);
      NextOfWay(f, x, lid, path, path', last, i - 1);
      assert path[..i] == path[..i - 1] + [path[i - 1]] && path'[..i] == path'[..i - 1] + [path'[i - 1]];
    }
  }

  lemma NextOfWay(f: Fabric, x: Port, lid: nat, path: seq<Port>, path': seq<Port>, last: Port, i: nat)
    requires Way(f, x, lid, path, last) && Way(f, x, lid, path', last) && i < |path| && i <= |path'|
    requires path'[..i] == path[..i]
    ensures i < |path'| && path'[i] == path[i]
  {
    SwitchOnWay(f, x, lid, path, last, i + 1);
    var e, e' := ExitOf(f, x, lid, path, last, i), ExitOf(f, x, lid, path', last, i);
    assert i > 0 ==> path[i - 1] == path[..i][i - 1] && path'[i - 1] == path'[..i][i - 1];
    assert e == e';
  }

  /** The builder's dependencies are exactly those of the routes to the base LIDs, as the SC tables have
      them up to the first 15. */
  lemma RouteDepsExact(f: Fabric, numPorts: map<nat, nat>, ports: seq<Port>, db: Db, used: set<nat>, good: bool,
                       sls: set<nat>)
    requires Analysis(f, numPorts, ports, db, used, good, sls)
    ensures DbOk(f, db) && RouteDeps(f, db, sls) == TableDeps(f, ports, sls)
    ensures CreditLoop(f, db, sls) <==> HasLoop(TableDeps(f, ports, sls))
  {
    hide IsRouteDep, DbOk, TableDeps, AllSettled, Wired, Sourced, RoutesFit, ScsRight, SinglePort, BasesStored,
      NoneRunsAway;
    AnalysisOk(f, numPorts, ports, db, used, good, sls);
    forall d | IsRouteDep(f, db, sls, d)
      ensures d in TableDeps(f, ports, sls)
    {
      DepIsTableDep(f, numPorts, ports, db, used, good, sls, d);
    }
    forall d | d in TableDeps(f, ports, sls)
      ensures IsRouteDep(f, db, sls, d)
    {
      TableDepIsDep(f, numPorts, ports, db, used, good, sls, d);
    }
  }

  // ---- When they are those of the walks ----

  /** The walk from `x` to the base LID of `t` on service level `sl`, which is in use, arrives. */
  ghost predicate Arriving(f: Fabric, ports: seq<Port>, sls: set<nat>, x: Port, t: Port, sl: nat) {
    x in ports && t in ports && Analyzed(f, x, t) && Level(sls, sl) && Walk(f, x, f.ports[t].lid, sl).outcome == Arrived
  }

  /** If the walk from `x` to the base LID of `t` arrives on level `sl`, it arrives on level 0, by which
      routes are traced. */
  ghost predicate ZeroToo(f: Fabric, x: Port, t: Port, sl: nat)
    requires CanStart(f, x) && t in f.ports && sl < MAX_SLS
  {
    Walk(f, x, f.ports[t].lid, sl).outcome == Arrived ==> Walk(f, x, f.ports[t].lid, 0).outcome == Arrived
  }

  ghost predicate ZeroArrives(f: Fabric, ports: seq<Port>, sls: set<nat>) {
    forall x, t, sl {:trigger ZeroToo(f, x, t, sl)} ::
      x in ports && t in ports && Analyzed(f, x, t) && Level(sls, sl) ==> ZeroToo(f, x, t, sl)
  }

  /** If the walk from `x` to the base LID of `t` arrives on level 0, and the SC tables let level `sl` past
      two exits, the walk on level `sl` arrives. */
  ghost predicate LevelToo(f: Fabric, sls: set<nat>, x: Port, t: Port, sl: nat)
    requires CanStart(f, x) && t in f.ports && sl < MAX_SLS
  {
    forall path, last :: Way(f, x, f.ports[t].lid, path, last) && |path| >= 1
                         && Walk(f, x, f.ports[t].lid, 0).outcome == Arrived
                         && Unrefused(f, x, f.ports[t].lid, sl, sls, path, last, 1) ==>
                           Walk(f, x, f.ports[t].lid, sl).outcome == Arrived
  }

  ghost predicate LevelsArrive(f: Fabric, ports: seq<Port>, sls: set<nat>) {
    forall x, t, sl {:trigger LevelToo(f, sls, x, t, sl)} ::
      x in ports && t in ports && Analyzed(f, x, t) && Level(sls, sl) ==> LevelToo(f, sls, x, t, sl)
  }

  /** The builder visits the channels of the walk from `x` to the base LID of `t`, all of them. */
  ghost predicate Retraced(f: Fabric, db: Db, sls: set<nat>, x: Port, t: Port, sl: nat)
    requires DbOk(f, db) && t in f.ports && sl < MAX_SLS
  {
    && x.node in db.devices && t.node in db.devices && x.node != t.node
    && exists path, last :: Way(f, x, f.ports[t].lid, path, last)
         && RouteChannels(f, db, x.node, t.node, sl, sls)
            == ChannelsFrom(f, x, f.ports[t].lid, sl, sls, path, last, 0)
  }

  /** So it is for every walk that arrives on a service level in use. */
  ghost predicate WalksFound(f: Fabric, ports: seq<Port>, db: Db, sls: set<nat>)
    requires DbOk(f, db)
  {
    forall x, t, sl {:trigger Retraced(f, db, sls, x, t, sl)} ::
      Arriving(f, ports, sls, x, t, sl) ==> Retraced(f, db, sls, x, t, sl)
  }

  /** Two channels or more are visited only where they are those of a walk that arrives. */
  ghost predicate OnlyWalks(f: Fabric, ports: seq<Port>, db: Db, sls: set<nat>)
    requires DbOk(f, db)
  {
    forall src, dst, sl {:trigger Walkable(f, db, src, dst, sl, sls)} ::
      Walkable(f, db, src, dst, sl, sls) && |RouteChannels(f, db, src, dst, sl, sls)| >= 2 ==>
        WalkedFrom(f, ports, db, sls, src, dst, sl)
  }

  ghost predicate WalkedFrom(f: Fabric, ports: seq<Port>, db: Db, sls: set<nat>, src: nat, dst: nat, sl: nat)
    requires DbOk(f, db) && sl < MAX_SLS
  {
    exists x: Port, t: Port {:trigger Retraced(f, db, sls, x, t, sl)} ::
      Arriving(f, ports, sls, x, t, sl) && x.node == src && t.node == dst && Retraced(f, db, sls, x, t, sl)
  }

  /** The builder's walk from `x` to `t`: exactly the channels up to the first 15, if the walk on level 0
      arrives, otherwise nothing. */
  lemma BuilderExact(f: Fabric, numPorts: map<nat, nat>, ports: seq<Port>, db: Db, used: set<nat>, good: bool,
                     sls: set<nat>, x: Port, t: Port, sl: nat, path: seq<Port>)
    requires Analysis(f, numPorts, ports, db, used, good, sls) && Level(sls, sl)
    requires x in ports && t in ports && Analyzed(f, x, t) && x.node in db.devices && t.node in db.devices
    requires Way(f, x, f.ports[t].lid, path, t)
    ensures DbOk(f, db) && x.node != t.node
    ensures var lid := f.ports[t].lid; var cs := RouteChannels(f, db, x.node, t.node, sl, sls);
            if Walk(f, x, lid, 0).outcome == Arrived then
              && |cs| <= |path| + 1 && cs == ChannelsFrom(f, x, lid, sl, sls, path, t, 0)[..|cs|]
              && forall k: nat {:trigger Unrefused(f, x, lid, sl, sls, path, t, k)} :: k <= |path| ==>
                   (k < |cs| <==> Unrefused(f, x, lid, sl, sls, path, t, k))
            else cs == []
  {
    hide AllSettled, Wired, Walk, Way, Unrefused, ChannelAt, ScsRight, DbOk, RoutesFit, SinglePort, Sourced, Recordable,
      ExitsRouted, RouteChannels, BasesStored;
    var lid := f.ports[t].lid;
    AnalysisOk(f, numPorts, ports, db, used, good, sls);
    BasePathed(f, ports, x, t);
    BaseStored(f, ports, t);
    BaseDevice(f, ports, db, t);
    if x.node == t.node {
      OnePort(f, x, t);
    }
    if Walk(f, x, lid, 0).outcome == Arrived {
      var path', last' := BaseKnown(f, numPorts, ports, db, used, good, sls, x, t);
      OneWay(f, x, lid, path, t, path', last');
      RouteExact(f, numPorts, db, used, x, t.node, sl, sls, path, t);
    } else if RouteChannels(f, db, x.node, t.node, sl, sls) != [] {
      NoRouteNoChannels(f, db, x.node, t.node, lid, sl, sls);
      EntryIsPort(f, ports, db, x, lid);
    }
  }

  /** Where the walk on a level in use arrives, and the one on level 0, the builder retraces it. */
  lemma ArrivingRetraced(f: Fabric, numPorts: map<nat, nat>, ports: seq<Port>, db: Db, used: set<nat>, good: bool,
                         sls: set<nat>, x: Port, t: Port, sl: nat)
    requires Analysis(f, numPorts, ports, db, used, good, sls) && Arriving(f, ports, sls, x, t, sl)
    requires Walk(f, x, f.ports[t].lid, 0).outcome == Arrived
    ensures DbOk(f, db) && Retraced(f, db, sls, x, t, sl)
  {
    hide AllSettled, Wired, Walk, Way, Unrefused, ChannelAt, ScsRight, DbOk, RoutesFit, SinglePort, Sourced, Recordable,
      ExitsRouted, RouteChannels, BasesStored;
    BasePathed(f, ports, x, t);
    var path, _ := BaseKnown(f, numPorts, ports, db, used, good, sls, x, t);
    BuilderExact(f, numPorts, ports, db, used, good, sls, x, t, sl, path);
    ArrivedUnrefused(f, x, f.ports[t].lid, sl, sls, path, t, |path|);
  }

  lemma RetracedNeedsZero(f: Fabric, numPorts: map<nat, nat>, ports: seq<Port>, db: Db, used: set<nat>, good: bool,
                          sls: set<nat>, x: Port, t: Port, sl: nat)
    requires Analysis(f, numPorts, ports, db, used, good, sls) && Arriving(f, ports, sls, x, t, sl) && DbOk(f, db)
    requires Retraced(f, db, sls, x, t, sl)
    ensures Walk(f, x, f.ports[t].lid, 0).outcome == Arrived
  {
    hide AllSettled, Wired, Walk, Way, Unrefused, ChannelAt, ScsRight, DbOk, RoutesFit, SinglePort, Sourced, Recordable,
      ExitsRouted, RouteChannels, BasesStored;
    var lid := f.ports[t].lid;
    var path, last :| Way(f, x, lid, path, last)
      && RouteChannels(f, db, x.node, t.node, sl, sls) == ChannelsFrom(f, x, lid, sl, sls, path, last, 0);
    LastIsOwner(f, x, lid, path, last);
    PortIsOwner(f, t);
    BuilderExact(f, numPorts, ports, db, used, good, sls, x, t, sl, path);
  }

  /** The builder retraces every walk that arrives on a service level in use, to a base LID, if and only if
      the walk on level 0 arrives wherever one on a level in use does. */
  lemma WalksFoundExact(f: Fabric, numPorts: map<nat, nat>, ports: seq<Port>, db: Db, used: set<nat>, good: bool,
                        sls: set<nat>)
    requires Analysis(f, numPorts, ports, db, used, good, sls)
    ensures DbOk(f, db) && (WalksFound(f, ports, db, sls) <==> ZeroArrives(f, ports, sls))
  {
    hide Analysis, DbOk, Retraced, Walk, Analyzed;
    AnalysisOk(f, numPorts, ports, db, used, good, sls);
    if ZeroArrives(f, ports, sls) {
      forall x, t, sl: nat | Arriving(f, ports, sls, x, t, sl)
        ensures t in f.ports && sl < MAX_SLS && Retraced(f, db, sls, x, t, sl)
      {
        AnalyzedEnds(f, x, t);
        assert ZeroToo(f, x, t, sl);
        ArrivingRetraced(f, numPorts, ports, db, used, good, sls, x, t, sl);
      }
    }
    if WalksFound(f, ports, db, sls) {
      forall x, t, sl | x in ports && t in ports && Analyzed(f, x, t) && Level(sls, sl)
        ensures CanStart(f, x) && t in f.ports && ZeroToo(f, x, t, sl)
      {
        AnalyzedEnds(f, x, t);
        if Arriving(f, ports, sls, x, t, sl) {
          assert Retraced(f, db, sls, x, t, sl);
          RetracedNeedsZero(f, numPorts, ports, db, used, good, sls, x, t, sl);
        }
      }
    }
  }

  lemma AnalyzedEnds(f: Fabric, x: Port, t: Port)
    requires Analyzed(f, x, t)
    ensures CanStart(f, x) && t in f.ports && FiPort(f, x) && FiPort(f, t) && f.ports[x].lid != 0 && f.ports[t].lid != 0
  {
  }

  /** The two ports of a walk of the builder that gets anywhere. */
  lemma WalkablePorts(f: Fabric, numPorts: map<nat, nat>, ports: seq<Port>, db: Db, used: set<nat>, good: bool,
                      sls: set<nat>, src: nat, dst: nat, sl: nat)
    returns (x: Port, t: Port)
    requires Analysis(f, numPorts, ports, db, used, good, sls) && DbOk(f, db) && Walkable(f, db, src, dst, sl, sls)
    requires src in db.devices && dst in db.devices && sl < MAX_SLS && RouteChannels(f, db, src, dst, sl, sls) != []
    ensures x in ports && t in ports && Analyzed(f, x, t) && x.node == src && t.node == dst
    ensures Walk(f, x, f.ports[t].lid, 0).outcome == Arrived
  {
    hide AllSettled, Wired, Walk, Way, ScsRight, DbOk, RoutesFit, SinglePort, Recordable, ExitsRouted,
      RouteChannels, BasesStored;
    WalkableEnds(f, db, src, dst, sl, sls);
    assert FiSourced(f, ports, db, dst);
    t :| t in ports && t in f.ports && t.node == dst && db.devices[dst].lid == f.ports[t].lid;
    BaseStored(f, ports, t);
    NoRouteNoChannels(f, db, src, dst, f.ports[t].lid, sl, sls);
    assert FiSourced(f, ports, db, src);
    x := db.devices[src].routes[f.ports[t].lid];
    BasePathed(f, ports, x, t);
    InPorts(f, ports, x, f.ports[t].lid);
  }

  lemma InPorts(f: Fabric, ports: seq<Port>, x: Port, lid: nat)
    requires Recordable(f, ports, x, lid)
    ensures x in ports
  {
  }

  /** Two channels or more are visited only where they are those of a walk that arrives, if and only if no
      level in use that is let past two exits by the SC tables is refused later, or by a lane. */
  lemma OnlyWalksExact(f: Fabric, numPorts: map<nat, nat>, ports: seq<Port>, db: Db, used: set<nat>, good: bool,
                       sls: set<nat>)
    requires Analysis(f, numPorts, ports, db, used, good, sls)
    ensures DbOk(f, db) && (OnlyWalks(f, ports, db, sls) <==> LevelsArrive(f, ports, sls))
  {
    hide Analysis, DbOk, Retraced, Walk, Analyzed, RouteChannels, Walkable, LevelToo;
    AnalysisOk(f, numPorts, ports, db, used, good, sls);
    if LevelsArrive(f, ports, sls) {
      forall src: nat, dst: nat, sl: nat | Walkable(f, db, src, dst, sl, sls)
        ensures src in db.devices && dst in db.devices && sl < MAX_SLS
        ensures |RouteChannels(f, db, src, dst, sl, sls)| >= 2 ==> WalkedFrom(f, ports, db, sls, src, dst, sl)
      {
        WalkableEnds(f, db, src, dst, sl, sls);
        if |RouteChannels(f, db, src, dst, sl, sls)| >= 2 {
          LongIsWalk(f, numPorts, ports, db, used, good, sls, src, dst, sl);
        }
      }
    }
    if OnlyWalks(f, ports, db, sls) {
      forall x, t, sl | x in ports && t in ports && Analyzed(f, x, t) && Level(sls, sl)
        ensures CanStart(f, x) && t in f.ports && LevelToo(f, sls, x, t, sl)
      {
        AnalyzedEnds(f, x, t);
        WalksAreLevels(f, numPorts, ports, db, used, good, sls, x, t, sl);
      }
    }
  }

  lemma LongIsWalk(f: Fabric, numPorts: map<nat, nat>, ports: seq<Port>, db: Db, used: set<nat>, good: bool,
                   sls: set<nat>, src: nat, dst: nat, sl: nat)
    requires Analysis(f, numPorts, ports, db, used, good, sls) && DbOk(f, db) && Walkable(f, db, src, dst, sl, sls)
    requires LevelsArrive(f, ports, sls) && src in db.devices && dst in db.devices && sl < MAX_SLS
    requires |RouteChannels(f, db, src, dst, sl, sls)| >= 2
    ensures WalkedFrom(f, ports, db, sls, src, dst, sl)
  {
    hide AllSettled, Wired, Walk, Way, Unrefused, ChannelAt, ScsRight, DbOk, RoutesFit, SinglePort, Sourced, Recordable,
      ExitsRouted, RouteChannels, BasesStored, Retraced, LevelToo;
    WalkableEnds(f, db, src, dst, sl, sls);
    var x, t := WalkablePorts(f, numPorts, ports, db, used, good, sls, src, dst, sl);
    BasePathed(f, ports, x, t);
    var path, _ := BaseKnown(f, numPorts, ports, db, used, good, sls, x, t);
    BuilderExact(f, numPorts, ports, db, used, good, sls, x, t, sl, path);
    assert Unrefused(f, x, f.ports[t].lid, sl, sls, path, t, 1);
    assert LevelToo(f, sls, x, t, sl);
    LevelHolds(f, sls, x, t, sl, path);
    ArrivingRetraced(f, numPorts, ports, db, used, good, sls, x, t, sl);
  }

  lemma LevelHolds(f: Fabric, sls: set<nat>, x: Port, t: Port, sl: nat, path: seq<Port>)
    requires CanStart(f, x) && t in f.ports && sl < MAX_SLS && LevelToo(f, sls, x, t, sl)
    requires Way(f, x, f.ports[t].lid, path, t) && |path| >= 1 && Walk(f, x, f.ports[t].lid, 0).outcome == Arrived
    requires Unrefused(f, x, f.ports[t].lid, sl, sls, path, t, 1)
    ensures Walk(f, x, f.ports[t].lid, sl).outcome == Arrived
  {
  }

  lemma WalksAreLevels(f: Fabric, numPorts: map<nat, nat>, ports: seq<Port>, db: Db, used: set<nat>, good: bool,
                       sls: set<nat>, x: Port, t: Port, sl: nat)
    requires Analysis(f, numPorts, ports, db, used, good, sls) && DbOk(f, db) && OnlyWalks(f, ports, db, sls)
    requires x in ports && t in ports && Analyzed(f, x, t) && Level(sls, sl)
    ensures LevelToo(f, sls, x, t, sl)
  {
    hide AllSettled, Wired, Walk, Way, Unrefused, ChannelAt, ScsRight, DbOk, RoutesFit, SinglePort, Sourced, Recordable,
      ExitsRouted, RouteChannels, BasesStored, Retraced, Analyzed;
    AnalyzedEnds(f, x, t);
    var lid := f.ports[t].lid;
    forall path, last | Way(f, x, lid, path, last) && |path| >= 1 && Walk(f, x, lid, 0).outcome == Arrived
                        && Unrefused(f, x, lid, sl, sls, path, last, 1)
      ensures Walk(f, x, lid, sl).outcome == Arrived
    {
      BasePathed(f, ports, x, t);
      var path', last' := BaseKnown(f, numPorts, ports, db, used, good, sls, x, t);
      OneWay(f, x, lid, path, last, path', last');
      BuilderExact(f, numPorts, ports, db, used, good, sls, x, t, sl, path);
      assert Walkable(f, db, x.node, t.node, sl, sls);
      assert WalkedFrom(f, ports, db, sls, x.node, t.node, sl);
      var y: Port, s: Port :| Arriving(f, ports, sls, y, s, sl) && y.node == x.node && s.node == t.node
                              && Retraced(f, db, sls, y, s, sl);
      AnalyzedEnds(f, y, s);
      OnePort(f, y, x);
      OnePort(f, s, t);
    }
  }

  // ---- The verdict ----

  lemma WalksInTables(f: Fabric, ports: seq<Port>, sls: set<nat>)
    requires BasesStored(f, ports) && (forall p <- ports :: FiPort(f, p)) && ZeroArrives(f, ports, sls)
    ensures BaseDeps(f, ports, sls) <= TableDeps(f, ports, sls)
  {
    hide Walk, Way, ChannelAt, Unrefused, BasesStored, Recordable, Pathed, Analyzed;
    forall d | BaseDep(f, ports, sls, d)
      ensures StoredDep(f, ports, sls, d)
    {
      var t :| t in ports && t in f.ports && WalkDep(f, ports, sls, f.ports[t].lid, d);
      var lid := f.ports[t].lid;
      var x: Port, sl: nat, path: seq<Port>, last: Port, i: nat :|
        WalkPair(f, ports, sls, d, x, lid, sl, path, last, i);
      BasePathed(f, ports, x, t);
      BaseStored(f, ports, t);
      PathedIn(f, ports, x, lid);
      AnalyzedEnds(f, x, t);
      assert ZeroToo(f, x, t, sl);
      ArrivedUnrefused(f, x, lid, sl, sls, path, last, i + 1);
      assert TablePair(f, ports, sls, d, x, lid, sl, path, last, i);
      assert TableDep(f, ports, sls, StoredLid(f.ports[t].lid), d);
    }
  }

  lemma PathedIn(f: Fabric, ports: seq<Port>, x: Port, lid: nat)
    requires Pathed(f, ports, x, lid)
    ensures x in ports
  {
  }

  lemma TablesInWalks(f: Fabric, ports: seq<Port>, sls: set<nat>)
    requires BasesStored(f, ports) && (forall p <- ports :: FiPort(f, p)) && LevelsArrive(f, ports, sls)
    ensures TableDeps(f, ports, sls) <= BaseDeps(f, ports, sls)
  {
    hide Walk, Way, ChannelAt, BasesStored, Recordable, Pathed, Analyzed, LevelToo, ScAt;
    forall d | StoredDep(f, ports, sls, d)
      ensures BaseDep(f, ports, sls, d)
    {
      var t :| t in ports && t in f.ports && TableDep(f, ports, sls, StoredLid(f.ports[t].lid), d);
      BaseStored(f, ports, t);
      var lid := f.ports[t].lid;
      var x: Port, sl: nat, path: seq<Port>, last: Port, i: nat :|
        TablePair(f, ports, sls, d, x, lid, sl, path, last, i);
      BasePathed(f, ports, x, t);
      AnalyzedEnds(f, x, t);
      LastIsOwner(f, x, lid, path, last);
      PortIsOwner(f, t);
      assert Unrefused(f, x, lid, sl, sls, path, last, 1);
      assert LevelToo(f, sls, x, t, sl);
      LevelHolds(f, sls, x, t, sl, path);
      assert WalkPair(f, ports, sls, d, x, lid, sl, path, last, i);
      assert WalkDep(f, ports, sls, f.ports[t].lid, d);
    }
  }

  /** So no loop of walks to base LIDs is missed where level 0 arrives wherever a level in use does, and
      only such loops are reported where no level is refused past its second exit. */
  lemma VerdictOnBases(f: Fabric, numPorts: map<nat, nat>, ports: seq<Port>, db: Db, used: set<nat>, good: bool,
                       sls: set<nat>)
    requires Analysis(f, numPorts, ports, db, used, good, sls)
    ensures DbOk(f, db)
    ensures ZeroArrives(f, ports, sls) && BaseLoop(f, ports, sls) ==> CreditLoop(f, db, sls)
    ensures LevelsArrive(f, ports, sls) && CreditLoop(f, db, sls) ==> BaseLoop(f, ports, sls)
  {
    hide AllSettled, Wired, ScsRight, DbOk, RoutesFit, SinglePort, Sourced, BasesStored, TableDeps, BaseDeps, RouteDeps,
      HasLoop, ZeroArrives, LevelsArrive;
    RouteDepsExact(f, numPorts, ports, db, used, good, sls);
    if ZeroArrives(f, ports, sls) && BaseLoop(f, ports, sls) {
      WalksInTables(f, ports, sls);
      LoopsMore(BaseDeps(f, ports, sls), TableDeps(f, ports, sls));
    }
    if LevelsArrive(f, ports, sls) && CreditLoop(f, db, sls) {
      TablesInWalks(f, ports, sls);
      LoopsMore(TableDeps(f, ports, sls), BaseDeps(f, ports, sls));
    }
  }

  // ---- Conditions that can be checked beforehand ----

  /** With no bad path, the walk on level 0 has arrived everywhere. */
  lemma GoodArrives(f: Fabric, ports: seq<Port>, db: Db, used: set<nat>, sls: set<nat>)
    requires Collected(f, ports, db, used, true)
    ensures ZeroArrives(f, ports, sls)
  {
    hide Walk, DbOk, Wired, Sourced;
    forall x, t, sl | x in ports && t in ports && Analyzed(f, x, t) && Level(sls, sl)
      ensures ZeroToo(f, x, t, sl)
    {
      var a :| 0 <= a < |ports| && ports[a] == x;
      var b :| 0 <= b < |ports| && ports[b] == t;
      assert PairSettled(f, db, ports[a], ports[b], true);
      assert PathSettled(f, db, x, t, 0, true);
    }
  }

  /** With service channels ignored only level 0 is walked. */
  lemma IgnoredArrives(f: Fabric, ports: seq<Port>)
    ensures ZeroArrives(f, ports, {}) && LevelsArrive(f, ports, {})
  {
    hide Walk, Unrefused;
  }

  /** No table refuses a level or a channel in use: none yields 15, as channel or as lane. */
  ghost predicate TablesOpen(f: Fabric, sls: set<nat>, used: set<nat>) {
    forall p <- f.ports :: f.ports[p].qos.Some? ==>
      var q := f.ports[p].qos.value;
      && (IsEnd(f, p) ==> forall sl <- sls :: sl < |q.sl2sc| ==> q.sl2sc[sl] != INVALID_SC)
      && (forall sc <- used :: sc < |q.sc2vl| ==> q.sc2vl[sc] != INVALID_SC)
      && forall e <- q.sc2sc :: forall sc <- used :: sc < |q.sc2sc[e]| ==> q.sc2sc[e][sc] != INVALID_SC
  }

  lemma {:induction false} OpenPasses(f: Fabric, numPorts: map<nat, nat>, sls: set<nat>, used: set<nat>, x: Port,
                                      lid: nat, sl: nat, path: seq<Port>, last: Port, i: nat)
    requires ScsRight(f, numPorts, sls, used) && sls != {} && Level(sls, sl) && TablesOpen(f, sls, used)
    requires Way(f, x, lid, path, last) && i <= |path|
    ensures Passes(f, x, lid, sl, path, last, i) && ScAt(f, x, lid, sl, path, last, i) in used
    ensures Unrefused(f, x, lid, sl, sls, path, last, i)
    decreases i
  {
    hide Route, HasImages, Closed, LastClosed;
    Neighbor(f, x);
    if i == 0 {
      assert IsEnd(f, x);
      assert f.ports[x].qos.Some?;
    } else {
      OpenPasses(f, numPorts, sls, used, x, lid, sl, path, last, i - 1);
      SwitchOnWay(f, x, lid, path, last, i);
      assert path[i - 1] in f.ports;
    }
    ScStaysUsed(f, numPorts, sls, used, x, lid, sl, path, last, i);
  }

  lemma OpenTablesArrive(f: Fabric, numPorts: map<nat, nat>, ports: seq<Port>, sls: set<nat>, used: set<nat>)
    requires ScsRight(f, numPorts, sls, used) && sls != {} && TablesOpen(f, sls, used)
    ensures LevelsArrive(f, ports, sls)
  {
    hide Walk, ScsRight, TablesOpen, Unrefused, Passes, Way;
    forall x, t, sl | x in ports && t in ports && Analyzed(f, x, t) && Level(sls, sl)
      ensures LevelToo(f, sls, x, t, sl)
    {
      forall path, last | Way(f, x, f.ports[t].lid, path, last)
        ensures Walk(f, x, f.ports[t].lid, sl).outcome == Arrived
      {
        forall j: nat | j <= |path|
          ensures Passes(f, x, f.ports[t].lid, sl, path, last, j)
        {
          OpenPasses(f, numPorts, sls, used, x, f.ports[t].lid, sl, path, last, j);
        }
        ArrivesExact(f, x, f.ports[t].lid, sl, path, last);
      }
    }
  }
}
