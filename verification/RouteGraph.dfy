/** CLFabricDataBuildRouteGraph: walk the recorded routes into the channel-dependency graph. */
module RouteGraphs {
  import opened Fabrics
  import opened RouteWalking
  import opened CreditRoutes
  import opened GraphViews
  import opened CreditGraphs
  import opened Splitting

  // ---- One step of the walk ----

  /** The service channel by which the walk leaves a device; `None` when the entry port is unknown. */
  function StepSc(f: Fabric, node: nat, src: nat, exit: Port, prev: Option<Conn>, sc: nat, sl: nat,
                  sls: set<nat>): Option<nat>
    requires FabricOk(f) && node in f.nodes && exit in f.ports && sl < MAX_SLS && sc < MAX_SCS
  {
    if sls == {} then Some(sc)
    else if node == src then
      Neighbor(f, exit);
      Some(if f.ports[exit].qos.Some? then f.ports[exit].qos.value.sl2sc[sl] else sc)
    else if prev.Some? && f.nodes[node].kind == SW then
      var entry := Port(node, prev.value.to.num);
      if entry !in f.ports then None else
      Neighbor(f, entry);
      if f.ports[entry].qos.Some? && exit.num in f.ports[entry].qos.value.sc2sc
      then Some(f.ports[entry].qos.value.sc2sc[exit.num][sc]) else Some(sc)
    else Some(sc)
  }

  lemma StepScInRange(f: Fabric, node: nat, src: nat, exit: Port, prev: Option<Conn>, sc: nat, sl: nat, sls: set<nat>)
    requires FabricOk(f) && node in f.nodes && exit in f.ports && sl < MAX_SLS && sc < MAX_SCS
    ensures var r := StepSc(f, node, src, exit, prev, sc, sl, sls); r.Some? ==> r.value < MAX_SCS
  {
    Neighbor(f, exit);
    if prev.Some? && Port(node, prev.value.to.num) in f.ports {
      Neighbor(f, Port(node, prev.value.to.num));
    }
  }

  /** The connection by which the walk leaves a device, if it can go on. */
  ghost function Step(f: Fabric, db: Db, node: nat, src: nat, dlid: nat, prev: Option<Conn>, sc: nat, sl: nat,
                      sls: set<nat>)
    : Option<(Conn, nat)>
    requires DbOk(f, db) && node in db.devices && sl < MAX_SLS && sc < MAX_SCS
  {
    var d := db.devices[node];
    if dlid !in d.routes then None else
    assert RouteOk(f, db, node, dlid);
    match StepSc(f, node, src, d.routes[dlid], prev, sc, sl, sls)
    case None => None
    case Some(next) =>
      var slot := Slot(d.routes[dlid].num, next);
      if slot in d.connections then Some((d.connections[slot], next)) else None
  }

  lemma StepOk(f: Fabric, db: Db, node: nat, src: nat, dlid: nat, prev: Option<Conn>, sc: nat, sl: nat, sls: set<nat>)
    requires DbOk(f, db) && node in db.devices && sl < MAX_SLS && sc < MAX_SCS
    ensures var r := Step(f, db, node, src, dlid, prev, sc, sl, sls);
            && (r.Some? ==>
                  && dlid in db.devices[node].routes && r.value.1 < MAX_SCS
                  && r.value.0.from == db.devices[node].routes[dlid] && r.value.0.from.node == node
                  && r.value.0.from in f.ports && f.ports[r.value.0.from].neighbor == Some(r.value.0.to)
                  && r.value.0.to in f.ports && r.value.0.to.node in db.devices && r.value.0.to.node in f.nodes
                  && LeadsTo(f, r.value.0.to, dlid) && node in f.nodes
                  && (f.nodes[node].kind == SW ==>
                        HasTables(f.nodes[node]) && LookupRoute(f, node, dlid) == Some(r.value.0.from)))
  {
    if dlid in db.devices[node].routes {
      assert RouteOk(f, db, node, dlid);
      var exit := db.devices[node].routes[dlid];
      StepScInRange(f, node, src, exit, prev, sc, sl, sls);
      var r := Step(f, db, node, src, dlid, prev, sc, sl, sls);
      if r.Some? {
        assert ConnectionOk(f, db, node, Slot(exit.num, r.value.1));
        Neighbor(f, exit);
      }
    }
  }

  function ChannelOf(c: Conn, sc: nat): Channel {
    Channel(c.from.node, c.from.num, sc)
  }

  /** The channels visited on the way from `node` to `dst`, in at most `fuel` steps. */
  ghost function WalkChannels(f: Fabric, db: Db, node: nat, src: nat, dst: nat, dlid: nat, prev: Option<Conn>,
                              sc: nat, sl: nat, sls: set<nat>, fuel: nat): seq<Channel>
    requires DbOk(f, db) && node in db.devices && sl < MAX_SLS && sc < MAX_SCS
    decreases fuel
  {
    if fuel == 0 || node == dst then [] else
    var r := Step(f, db, node, src, dlid, prev, sc, sl, sls);
    if r == None then [] else
    StepOk(f, db, node, src, dlid, prev, sc, sl, sls);
    var (c, next) := r.value;
    [ChannelOf(c, next)] + WalkChannels(f, db, c.to.node, src, dst, dlid, Some(c), next, sl, sls, fuel - 1)
  }

  /** The device at which the walk stops. */
  ghost function WalkStop(f: Fabric, db: Db, node: nat, src: nat, dst: nat, dlid: nat, prev: Option<Conn>,
                          sc: nat, sl: nat, sls: set<nat>, fuel: nat): nat
    requires DbOk(f, db) && node in db.devices && sl < MAX_SLS && sc < MAX_SCS
    decreases fuel
  {
    if fuel == 0 || node == dst then node else
    var r := Step(f, db, node, src, dlid, prev, sc, sl, sls);
    if r == None then node else
    StepOk(f, db, node, src, dlid, prev, sc, sl, sls);
    var (c, next) := r.value;
    WalkStop(f, db, c.to.node, src, dst, dlid, Some(c), next, sl, sls, fuel - 1)
  }

  const LID_BITS_MODULUS := 0x1_0000

  /** The destination LID as the walk stores it: in 16 bits. */
  function StoredLid(lid: nat): nat {
    lid % LID_BITS_MODULUS
  }

  const WALK_FUEL := MAX_HOPS + 2

  /** All the channels of the recorded route from one FI to the stored LID of another, for one service
      level. */
  ghost function RouteChannels(f: Fabric, db: Db, src: nat, dst: nat, sl: nat, sls: set<nat>): seq<Channel>
    requires DbOk(f, db) && src in db.devices && dst in db.devices && sl < MAX_SLS
  {
    WalkChannels(f, db, src, src, dst, StoredLid(db.devices[dst].lid), None, 0, sl, sls, WALK_FUEL)
  }

  /** Where that route ends. */
  ghost function RouteStop(f: Fabric, db: Db, src: nat, dst: nat, sl: nat, sls: set<nat>): nat
    requires DbOk(f, db) && src in db.devices && dst in db.devices && sl < MAX_SLS
  {
    WalkStop(f, db, src, src, dst, StoredLid(db.devices[dst].lid), None, 0, sl, sls, WALK_FUEL)
  }

  /** The dependencies between consecutive channels. */
  function PairDeps(cs: seq<Channel>): set<Dep> {
    if |cs| < 2 then {}
    else PairDeps(cs[..|cs| - 1]) + {Dep(cs[|cs| - 2], cs[|cs| - 1])}
  }

  lemma {:induction false} PairDepsAre(cs: seq<Channel>, d: Dep)
    ensures d in PairDeps(cs) <==> exists i {:trigger cs[i]} :: 0 <= i < |cs| - 1 && d == Dep(cs[i], cs[i + 1])
  {
    if |cs| >= 2 {
      var front := cs[..|cs| - 1];
      PairDepsAre(front, d);
      if d in PairDeps(front) {
        var i :| 0 <= i < |front| - 1 && d == Dep(front[i], front[i + 1]);
        assert d == Dep(cs[i], cs[i + 1]);
      } else if d in PairDeps(cs) {
        assert d == Dep(cs[|cs| - 2], cs[|cs| - 2 + 1]);
      }
      if i :| 0 <= i < |cs| - 1 && d == Dep(cs[i], cs[i + 1]) {
        if i < |front| - 1 {
          assert d == Dep(front[i], front[i + 1]);
        }
      }
    }
  }

  // ---- Termination: the recorded routes to a destination form a forest ----

  /** The walk stands at a device it entered by `entry`, `n` crossings from the destination. */
  ghost predicate Approaches(f: Fabric, entry: Port, dlid: nat, n: nat) {
    FabricOk(f) && entry in f.ports && entry.node in f.nodes && Delivered(f, entry, dlid, false, n)
  }

  /** The device that answers for the stored LID is not the destination, and has a route for its own
      LID: a walk that reaches it goes on. */
  predicate OwnerGoesOn(f: Fabric, db: Db, dst: nat, dlid: nat) {
    dlid in f.lidMap
    && var owner := f.lidMap[dlid].node;
       owner != dst && owner in db.devices && dlid in db.devices[owner].routes
  }

  /** The walk from `src` gets under way, and to such a device. */
  predicate RunsAway(f: Fabric, db: Db, src: nat, dst: nat, dlid: nat) {
    src in db.devices && dlid in db.devices[src].routes && OwnerGoesOn(f, db, dst, dlid)
  }

  lemma EndsAtOwner(f: Fabric, db: Db, entry: Port, dlid: nat, n: nat, dst: nat)
    requires Approaches(f, entry, dlid, n) && dlid != 0 && Stops(f, entry, false)
    requires entry.node in db.devices && dlid in db.devices[entry.node].routes && !OwnerGoesOn(f, db, dst, dlid)
    ensures entry.node == dst
  {
    assert Registered(f, entry, dlid);
  }

  /** A walk that goes on stands at a switch, and each step brings it one crossing nearer. */
  lemma StepApproaches(f: Fabric, db: Db, entry: Port, dst: nat, dlid: nat, src: nat, prev: Option<Conn>,
                       sc: nat, sl: nat, sls: set<nat>, n: nat)
    requires DbOk(f, db) && entry.node in db.devices && sl < MAX_SLS && sc < MAX_SCS
    requires Approaches(f, entry, dlid, n) && !OwnerGoesOn(f, db, dst, dlid) && entry.node != dst
    ensures var r := Step(f, db, entry.node, src, dlid, prev, sc, sl, sls);
            r.Some? ==>
              && n > 0 && IsSwitch(f, entry)
              && r.value.0.from.node == entry.node && Approaches(f, r.value.0.to, dlid, n - 1)
  {
    StepOk(f, db, entry.node, src, dlid, prev, sc, sl, sls);
    if Step(f, db, entry.node, src, dlid, prev, sc, sl, sls).Some? {
      assert RouteOk(f, db, entry.node, dlid);
      if Stops(f, entry, false) {
        EndsAtOwner(f, db, entry, dlid, n, dst);
      } else {
        Neighbor(f, Exit(f, entry, dlid));
      }
    }
  }

  /** Consecutive devices of a walk differ, so no arc joins a channel to itself. */
  lemma StepLeavesDevice(f: Fabric, entry: Port, next: Port, dlid: nat, n: nat)
    requires n > 0 && Approaches(f, entry, dlid, n) && Approaches(f, next, dlid, n - 1)
    requires IsSwitch(f, entry) && IsSwitch(f, next) && f.ports[next].neighbor.Some?
    ensures entry.node != next.node
  {
    Neighbor(f, next);
    if entry.node == next.node {
      Neighbor(f, entry);
      SameSwitchSameDistance(f, entry, next, dlid, false, false, n, n - 1);
    }
  }

  // ---- Building the graph ----

  /** Adding the next channel of a walk adds its dependency on the channel before. */
  lemma NextChannel(g: GraphView, prevId: nat, prev: Channel, c: Channel)
    requires Inv(g) && Growing(g) && Names(g, prevId, prev) && prev != c
    ensures var (g1, id) := AddVertexView(g, c);
            var (g2, arcId) := AddArcView(g1, prevId, id);
            && Inv(g1) && Growing(g1) && arcId != -1 && Names(g2, id, c)
            && DepsOf(g2) == DepsOf(g) + {Dep(prev, c)}
  {
    hide Inv, Growing, DepsOf, AddVertexView, AddArcView;
    var (g1, id) := AddVertexView(g, c);
    AddVertexOk(g, c);
    AddVertexDeps(g, c);
    AddArcEffect(g1, prevId, id);
    AddArcDeps(g1, prevId, id);
  }

  lemma FirstChannel(g: GraphView, c: Channel)
    requires Inv(g)
    ensures var (g1, id) := AddVertexView(g, c); Names(g1, id, c) && DepsOf(g1) == DepsOf(g)
  {
    hide Inv, DepsOf, AddVertexView;
    AddVertexOk(g, c);
    AddVertexDeps(g, c);
  }

  lemma PairDepsSnoc(cs: seq<Channel>, c: Channel)
    ensures PairDeps(cs + [c]) == if cs == [] then {} else PairDeps(cs) + {Dep(cs[|cs| - 1], c)}
  {
    assert (cs + [c])[..|cs|] == cs;
  }

  /** Adds the vertex of the next channel and the arc from the one before it. */
  method AddChannel(graph: Graph, linked: bool, prevId: nat, ghost cs: seq<Channel>, c: Channel) returns (id: nat)
    requires graph.Valid() && Growing(graph.View()) && (linked <==> cs != [])
    requires cs != [] ==> Names(graph.View(), prevId, cs[|cs| - 1]) && cs[|cs| - 1] != c
    modifies graph, graph.vertices
    ensures graph.Valid() && Growing(graph.View())
    ensures old(graph.vertices) <= graph.vertices
    ensures forall k :: |old(graph.vertices)| <= k < |graph.vertices| ==> fresh(graph.vertices[k])
    ensures Names(graph.View(), id, c)
    ensures DepsOf(graph.View()) + PairDeps(cs) == DepsOf(old(graph.View())) + PairDeps(cs + [c])
    ensures DepsOf(old(graph.View())) <= DepsOf(graph.View())
  {
    hide Inv, Growing, DepsOf, PairDeps, AddVertexView, AddArcView, VertexViews;
    PairDepsSnoc(cs, c);
    ghost var g := graph.View();
    AddVertexOk(g, c);
    if cs == [] {
      FirstChannel(g, c);
      EmptyPairs();
    } else {
      NextChannel(g, prevId, cs[|cs| - 1], c);
    }
    id := graph.AddVertex(c);
    if linked {
      assert graph.vertices == old(graph.vertices) + graph.vertices[|old(graph.vertices)|..];
      var arcId := graph.AddArc(prevId, id);
      assert arcId != -1;
    }
  }

  lemma EmptyPairs()
    ensures PairDeps([]) == {}
  {
  }

  /** Where a walk is: at the source before its first step, afterwards at the far end of the last
      connection, close enough to the destination for the steps that are left. */
  ghost predicate Underway(f: Fabric, db: Db, hfip: nat, src: nat, dst: nat, dlid: nat, prev: Option<Conn>,
                           fuel: nat)
  {
    && DbOk(f, db) && hfip in db.devices
    && src in db.devices && src in f.nodes && f.nodes[src].kind == FI && src != dst
    && match prev
       case None => hfip == src && fuel == WALK_FUEL && !RunsAway(f, db, src, dst, dlid)
       case Some(c) =>
         && !OwnerGoesOn(f, db, dst, dlid)
         && c.to.node == hfip && hfip in f.nodes && (f.nodes[hfip].kind == SW ==> c.from.node != hfip)
         && exists n: nat :: n < fuel && Approaches(f, c.to, dlid, n)
  }

  lemma StepUnderway(f: Fabric, db: Db, hfip: nat, src: nat, dst: nat, dlid: nat, prev: Option<Conn>,
                     sc: nat, sl: nat, sls: set<nat>, fuel: nat)
    requires Underway(f, db, hfip, src, dst, dlid, prev, fuel) && hfip != dst && sl < MAX_SLS && sc < MAX_SCS
    ensures fuel > 0
    ensures var r := Step(f, db, hfip, src, dlid, prev, sc, sl, sls);
            r.Some? ==>
              && r.value.0.from.node == hfip
              && Underway(f, db, r.value.0.to.node, src, dst, dlid, Some(r.value.0), fuel - 1)
  {
    hide DbOk;
    var r := Step(f, db, hfip, src, dlid, prev, sc, sl, sls);
    StepOk(f, db, hfip, src, dlid, prev, sc, sl, sls);
    match prev {
      case None =>
        if r.Some? {
          FabricIsOk(f, db);
          var n: nat :| n <= MAX_HOPS && Delivered(f, r.value.0.to, dlid, false, n);
          assert Approaches(f, r.value.0.to, dlid, n);
        }
      case Some(c) =>
        var n: nat :| n < fuel && Approaches(f, c.to, dlid, n);
        StepApproaches(f, db, c.to, dst, dlid, src, prev, sc, sl, sls, n);
        if r.Some? && IsSwitch(f, r.value.0.to) {
          Neighbor(f, r.value.0.from);
          StepLeavesDevice(f, c.to, r.value.0.to, dlid, n);
        }
    }
  }

  lemma FabricIsOk(f: Fabric, db: Db)
    requires DbOk(f, db)
    ensures FabricOk(f)
  {
  }

  lemma WalkBegins(f: Fabric, db: Db, src: nat, dst: nat)
    requires DbOk(f, db) && src in db.devices && dst in db.devices && src != dst
    requires src in f.nodes && f.nodes[src].kind == FI && !RunsAway(f, db, src, dst, StoredLid(db.devices[dst].lid))
    ensures Underway(f, db, src, src, dst, StoredLid(db.devices[dst].lid), None, WALK_FUEL)
  {
  }

  /** Whether the graph holds exactly the dependencies `before` and those of the walk so far. */
  ghost predicate BuiltSoFar(g: GraphView, before: set<Dep>, cs: seq<Channel>, prevId: nat) {
    DepsOf(g) == before + PairDeps(cs) && (cs != [] ==> Names(g, prevId, cs[|cs| - 1]))
  }

  lemma BuiltNext(g: GraphView, g': GraphView, before: set<Dep>, cs: seq<Channel>, prevId: nat, c: Channel, id: nat)
    requires BuiltSoFar(g, before, cs, prevId) && Names(g', id, c) && DepsOf(g) <= DepsOf(g')
    requires DepsOf(g') + PairDeps(cs) == DepsOf(g) + PairDeps(cs + [c])
    ensures BuiltSoFar(g', before, cs + [c], id)
  {
    hide DepsOf, Names;
    PairDepsSnoc(cs, c);
  }

  /** Walks the recorded route from one FI to another. Unless it runs away the walk terminates, and it
      adds exactly the dependencies between consecutive channels of the route. */
  method BuildRoute(f: Fabric, db: Db, graph: Graph, src: nat, dst: nat, sl: nat, sls: set<nat>)
    returns (present: bool, links: nat)
    requires DbOk(f, db) && src in db.devices && dst in db.devices && src != dst && sl < MAX_SLS
    requires src in f.nodes && f.nodes[src].kind == FI && dst in f.nodes && f.nodes[dst].kind == FI
    requires !RunsAway(f, db, src, dst, StoredLid(db.devices[dst].lid))
    requires graph.Valid() && Growing(graph.View())
    modifies graph, graph.vertices
    ensures graph.Valid() && Growing(graph.View())
    ensures old(graph.vertices) <= graph.vertices
    ensures forall k :: |old(graph.vertices)| <= k < |graph.vertices| ==> fresh(graph.vertices[k])
    ensures DepsOf(graph.View()) == DepsOf(old(graph.View())) + PairDeps(RouteChannels(f, db, src, dst, sl, sls))
    ensures links == |RouteChannels(f, db, src, dst, sl, sls)|
    ensures present <==> RouteStop(f, db, src, dst, sl, sls) == dst
  {
    hide DbOk, Inv, Growing, DepsOf, PairDeps, Underway, Names, BuiltSoFar, VertexViews, WalkChannels, WalkStop,
      Step, StepSc;
    ghost var before := DepsOf(graph.View());
    ghost var cs: seq<Channel> := [];
    ghost var fuel: nat := WALK_FUEL;
    var dlid := StoredLid(db.devices[dst].lid);
    var hfip: nat, prevId: nat, sc: nat := src, 0, 0;
    var prev: Option<Conn> := None;
    links := 0;
    WalkBegins(f, db, src, dst);
    NothingBuilt(graph.View());
    while hfip != dst
      invariant graph.Valid() && Growing(graph.View())
      invariant old(graph.vertices) <= graph.vertices
      invariant forall k :: |old(graph.vertices)| <= k < |graph.vertices| ==> fresh(graph.vertices[k])
      invariant hfip in db.devices && sc < MAX_SCS && links == |cs|
      invariant cs + WalkChannels(f, db, hfip, src, dst, dlid, prev, sc, sl, sls, fuel)
             == RouteChannels(f, db, src, dst, sl, sls)
      invariant WalkStop(f, db, hfip, src, dst, dlid, prev, sc, sl, sls, fuel) == RouteStop(f, db, src, dst, sl, sls)
      invariant Underway(f, db, hfip, src, dst, dlid, prev, fuel)
      invariant prev == None <==> cs == []
      invariant prev.Some? ==> cs[|cs| - 1].node == prev.value.from.node
      invariant BuiltSoFar(graph.View(), before, cs, prevId)
      decreases fuel
    {
      StepOk(f, db, hfip, src, dlid, prev, sc, sl, sls);
      StepUnderway(f, db, hfip, src, dst, dlid, prev, sc, sl, sls, fuel);
      StepIs(f, db, hfip, src, dlid, prev, sc, sl, sls);
      WalkEnds(f, db, hfip, src, dst, dlid, prev, sc, sl, sls, fuel, cs);
      if dlid !in db.devices[hfip].routes {
        break;
      }
      var exit := db.devices[hfip].routes[dlid];
      var next := StepSc(f, hfip, src, exit, prev, sc, sl, sls);
      if next == None || Slot(exit.num, next.value) !in db.devices[hfip].connections {
        break;
      }
      var conn := db.devices[hfip].connections[Slot(exit.num, next.value)];
      ghost var g := graph.View();
      assert graph.vertices == old(graph.vertices) + graph.vertices[|old(graph.vertices)|..];
      UnderwayDiffers(f, db, hfip, src, dst, dlid, prev, fuel);
      BuiltNames(g, before, cs, prevId);
      var c := ChannelOf(conn, next.value);
      var id := AddChannel(graph, prev.Some?, prevId, cs, c);
      BuiltNext(g, graph.View(), before, cs, prevId, c, id);
      cs := cs + [c];
      // A recorded connection always leads to a recorded device.
      assert conn.to.node in db.devices;
      hfip, prev, prevId, sc := conn.to.node, Some(conn), id, next.value;
      links := links + 1;
      fuel := fuel - 1;
    }
    present := hfip == dst;
    if present {
      WalkEnds(f, db, hfip, src, dst, dlid, prev, sc, sl, sls, fuel, cs);
    }
    BuiltNames(graph.View(), before, cs, prevId);
  }

  lemma StepIs(f: Fabric, db: Db, hfip: nat, src: nat, dlid: nat, prev: Option<Conn>, sc: nat, sl: nat, sls: set<nat>)
    requires DbOk(f, db) && hfip in db.devices && sl < MAX_SLS && sc < MAX_SCS
    ensures var d := db.devices[hfip]; var step := Step(f, db, hfip, src, dlid, prev, sc, sl, sls);
            if dlid !in d.routes then step == None else
            && FabricOk(f) && hfip in f.nodes && d.routes[dlid] in f.ports
            && match StepSc(f, hfip, src, d.routes[dlid], prev, sc, sl, sls)
               case None => step == None
               case Some(next) =>
                 if Slot(d.routes[dlid].num, next) !in d.connections then step == None
                 else step == Some((d.connections[Slot(d.routes[dlid].num, next)], next))
  {
    if dlid in db.devices[hfip].routes {
      RouteExit(f, db, hfip, dlid);
    }
  }

  lemma WalkEnds(f: Fabric, db: Db, hfip: nat, src: nat, dst: nat, dlid: nat, prev: Option<Conn>,
                 sc: nat, sl: nat, sls: set<nat>, fuel: nat, cs: seq<Channel>)
    requires DbOk(f, db) && hfip in db.devices && sl < MAX_SLS && sc < MAX_SCS
    ensures var rest := WalkChannels(f, db, hfip, src, dst, dlid, prev, sc, sl, sls, fuel);
            var stop := WalkStop(f, db, hfip, src, dst, dlid, prev, sc, sl, sls, fuel);
            && (hfip == dst ==> cs + rest == cs && stop == dst)
            && (hfip != dst && fuel > 0 ==>
                  match Step(f, db, hfip, src, dlid, prev, sc, sl, sls)
                  case None => cs + rest == cs && stop == hfip
                  case Some(r) =>
                    && r.0.to.node in db.devices && r.1 < MAX_SCS
                    && stop == WalkStop(f, db, r.0.to.node, src, dst, dlid, Some(r.0), r.1, sl, sls, fuel - 1)
                    && cs + rest == cs + [ChannelOf(r.0, r.1)]
                                  + WalkChannels(f, db, r.0.to.node, src, dst, dlid, Some(r.0), r.1, sl, sls, fuel - 1))
  {
    hide DbOk;
    if hfip != dst && fuel > 0 {
      StepOk(f, db, hfip, src, dlid, prev, sc, sl, sls);
    }
  }

  lemma NothingBuilt(g: GraphView)
    ensures BuiltSoFar(g, DepsOf(g), [], 0)
  {
    EmptyPairs();
  }

  lemma RouteExit(f: Fabric, db: Db, node: nat, dlid: nat)
    requires DbOk(f, db) && node in db.devices && dlid in db.devices[node].routes
    ensures node in f.nodes && FabricOk(f) && db.devices[node].routes[dlid] in f.ports
  {
    assert RouteOk(f, db, node, dlid);
  }

  lemma UnderwayDiffers(f: Fabric, db: Db, hfip: nat, src: nat, dst: nat, dlid: nat, prev: Option<Conn>, fuel: nat)
    requires Underway(f, db, hfip, src, dst, dlid, prev, fuel) && hfip != dst && dlid in db.devices[hfip].routes
    ensures prev.Some? ==> prev.value.from.node != hfip
  {
    if prev.Some? {
      var c := prev.value;
      assert RouteOk(f, db, hfip, dlid);
      var n: nat :| n < fuel && Approaches(f, c.to, dlid, n);
      if Stops(f, c.to, false) {
        EndsAtOwner(f, db, c.to, dlid, n, dst);
      }
    }
  }

  lemma BuiltNames(g: GraphView, before: set<Dep>, cs: seq<Channel>, prevId: nat)
    requires BuiltSoFar(g, before, cs, prevId)
    ensures cs != [] ==> Names(g, prevId, cs[|cs| - 1])
    ensures DepsOf(g) == before + PairDeps(cs)
  {
  }

  // ---- All routes ----

  /** The service levels walked: those in use, or only level 0 when service channels are ignored. */
  function WalkedSls(sls: set<nat>): set<nat> {
    if sls == {} then {0} else sls
  }

  ghost predicate Walkable(f: Fabric, db: Db, src: nat, dst: nat, sl: nat, sls: set<nat>)
    requires DbOk(f, db)
  {
    src in db.fis && dst in db.fis && src != dst && sl in WalkedSls(sls) && sl < MAX_SLS
  }

  ghost function WalkDeps(f: Fabric, db: Db, src: nat, dst: nat, sl: nat, sls: set<nat>): set<Dep>
    requires DbOk(f, db) && Walkable(f, db, src, dst, sl, sls)
  {
    PairDeps(RouteChannels(f, db, src, dst, sl, sls))
  }

  /** Some route that the builder walks, from an FI to the stored LID of another, uses the channel `d.to`
      right after the channel `d.from`. Routes to other LIDs of an FI are not walked. */
  ghost predicate IsRouteDep(f: Fabric, db: Db, sls: set<nat>, d: Dep)
    requires DbOk(f, db)
  {
    exists src, dst, sl :: Walkable(f, db, src, dst, sl, sls) && d in WalkDeps(f, db, src, dst, sl, sls)
  }

  /** No walk from one FI to another runs away. */
  ghost predicate NoneRunsAway(f: Fabric, db: Db) {
    forall src <- db.fis, dst <- db.fis :: src != dst && dst in db.devices ==>
      !RunsAway(f, db, src, dst, StoredLid(db.devices[dst].lid))
  }

  /** Only dependencies of routes, and all those of the routes walked so far. */
  ghost predicate Covers(f: Fabric, db: Db, sls: set<nat>, deps: set<Dep>, i: nat, j: nat, k: nat)
    requires DbOk(f, db)
  {
    && (forall d <- deps :: IsRouteDep(f, db, sls, d))
    && (forall a: nat, b: nat, sl: nat {:trigger Walked(db, sls, a, b, sl)} ::
          Walked(db, sls, a, b, sl) && Before(a, b, sl, i, j, k) ==>
            Walkable(f, db, db.fis[a], db.fis[b], sl, sls)
            && WalkDeps(f, db, db.fis[a], db.fis[b], sl, sls) <= deps)
  }

  predicate Walked(db: Db, sls: set<nat>, a: nat, b: nat, sl: nat) {
    a < |db.fis| && b < |db.fis| && a != b && sl in WalkedSls(sls) && sl < MAX_SLS
  }

  predicate Before(a: nat, b: nat, sl: nat, i: nat, j: nat, k: nat) {
    a < i || (a == i && (b < j || (b == j && sl < k)))
  }

  lemma CoversNext(f: Fabric, db: Db, sls: set<nat>, deps: set<Dep>, i: nat, j: nat, k: nat)
    requires DbOk(f, db) && Covers(f, db, sls, deps, i, j, k) && Walked(db, sls, i, j, k)
    ensures Walkable(f, db, db.fis[i], db.fis[j], k, sls)
    ensures Covers(f, db, sls, deps + WalkDeps(f, db, db.fis[i], db.fis[j], k, sls), i, j, k + 1)
  {
    hide WalkDeps;
    assert Walkable(f, db, db.fis[i], db.fis[j], k, sls);
    var more := WalkDeps(f, db, db.fis[i], db.fis[j], k, sls);
    forall d | d in deps + more
      ensures IsRouteDep(f, db, sls, d)
    {
    }
  }

  lemma CoversSkip(f: Fabric, db: Db, sls: set<nat>, deps: set<Dep>, i: nat, j: nat, k: nat)
    requires DbOk(f, db) && Covers(f, db, sls, deps, i, j, k)
    ensures !Walked(db, sls, i, j, k) ==> Covers(f, db, sls, deps, i, j, k + 1)
    ensures k >= MAX_SLS || i == j ==> Covers(f, db, sls, deps, i, j + 1, 0)
    ensures j >= |db.fis| ==> Covers(f, db, sls, deps, i + 1, 0, 0)
  {
    hide WalkDeps, IsRouteDep;
  }

  lemma CoversAll(f: Fabric, db: Db, sls: set<nat>, deps: set<Dep>)
    requires DbOk(f, db) && Covers(f, db, sls, deps, |db.fis|, 0, 0)
    ensures forall d :: d in deps <==> IsRouteDep(f, db, sls, d)
  {
    hide WalkDeps;
    forall d | IsRouteDep(f, db, sls, d)
      ensures d in deps
    {
      var src, dst, sl :| Walkable(f, db, src, dst, sl, sls) && d in WalkDeps(f, db, src, dst, sl, sls);
      var a :| 0 <= a < |db.fis| && db.fis[a] == src;
      var b :| 0 <= b < |db.fis| && db.fis[b] == dst;
      assert Walked(db, sls, a, b, sl);
    }
  }

  /** The walk from FI `a` to FI `b` on level `sl` gets to the device it is for. */
  ghost predicate Reaches(f: Fabric, db: Db, sls: set<nat>, a: nat, b: nat, sl: nat)
    requires DbOk(f, db) && Walked(db, sls, a, b, sl)
  {
    FiDevice(f, db, a, b);
    RouteStop(f, db, db.fis[a], db.fis[b], sl, sls) == db.fis[b]
  }

  /** The walks made so far, those that get to their destination or those that do not. */
  ghost function WalksMade(f: Fabric, db: Db, sls: set<nat>, i: nat, j: nat, k: nat, reached: bool)
    : set<(nat, nat, nat)>
    requires DbOk(f, db)
  {
    set a: nat, b: nat, sl: nat | a < |db.fis| && b < |db.fis| && sl < MAX_SLS && Walked(db, sls, a, b, sl)
                                  && Before(a, b, sl, i, j, k) && (Reaches(f, db, sls, a, b, sl) <==> reached)
      :: (a, b, sl)
  }

  lemma WalkMade(f: Fabric, db: Db, sls: set<nat>, i: nat, j: nat, k: nat, reached: bool)
    requires DbOk(f, db) && Walked(db, sls, i, j, k)
    ensures |WalksMade(f, db, sls, i, j, k + 1, reached)|
            == |WalksMade(f, db, sls, i, j, k, reached)| + (if Reaches(f, db, sls, i, j, k) <==> reached then 1 else 0)
  {
    hide Reaches, DbOk, WalkedSls;
    var made, next := WalksMade(f, db, sls, i, j, k, reached), WalksMade(f, db, sls, i, j, k + 1, reached);
    assert (i, j, k) !in made;
    assert (i, j, k) in next <==> (Reaches(f, db, sls, i, j, k) <==> reached);
    assert next - {(i, j, k)} == made;
  }

  lemma NoWalkMade(f: Fabric, db: Db, sls: set<nat>, i: nat, j: nat, k: nat, reached: bool)
    requires DbOk(f, db)
    ensures !Walked(db, sls, i, j, k) ==>
              WalksMade(f, db, sls, i, j, k + 1, reached) == WalksMade(f, db, sls, i, j, k, reached)
    ensures k >= MAX_SLS || i == j ==>
              WalksMade(f, db, sls, i, j + 1, 0, reached) == WalksMade(f, db, sls, i, j, k, reached)
    ensures j >= |db.fis| ==> WalksMade(f, db, sls, i + 1, 0, 0, reached) == WalksMade(f, db, sls, i, j, k, reached)
    ensures WalksMade(f, db, sls, 0, 0, 0, reached) == {}
  {
    hide Reaches, DbOk;
  }

  /** The numbers of walks that get to their destination and of those that do not. */
  ghost predicate Counted(f: Fabric, db: Db, sls: set<nat>, i: nat, j: nat, k: nat, present: nat, missing: nat)
    requires DbOk(f, db)
  {
    && present == |WalksMade(f, db, sls, i, j, k, true)|
    && missing == |WalksMade(f, db, sls, i, j, k, false)|
  }

  lemma CountedNext(f: Fabric, db: Db, sls: set<nat>, i: nat, j: nat, k: nat, present: nat, missing: nat, found: bool)
    requires DbOk(f, db) && Walked(db, sls, i, j, k) && Counted(f, db, sls, i, j, k, present, missing)
    requires found <==> Reaches(f, db, sls, i, j, k)
    ensures Counted(f, db, sls, i, j, k + 1, if found then present + 1 else present,
                    if found then missing else missing + 1)
  {
    hide Reaches, DbOk, WalksMade;
    WalkMade(f, db, sls, i, j, k, true);
    WalkMade(f, db, sls, i, j, k, false);
  }

  lemma CountedSkip(f: Fabric, db: Db, sls: set<nat>, i: nat, j: nat, k: nat, present: nat, missing: nat)
    requires DbOk(f, db) && Counted(f, db, sls, i, j, k, present, missing)
    ensures !Walked(db, sls, i, j, k) ==> Counted(f, db, sls, i, j, k + 1, present, missing)
    ensures k >= MAX_SLS || i == j ==> Counted(f, db, sls, i, j + 1, 0, present, missing)
    ensures j >= |db.fis| ==> Counted(f, db, sls, i + 1, 0, 0, present, missing)
  {
    hide WalksMade, DbOk;
    NoWalkMade(f, db, sls, i, j, k, true);
    NoWalkMade(f, db, sls, i, j, k, false);
  }

  /** The dependencies of the walks made so far, and the numbers of those walks. */
  ghost predicate Built(f: Fabric, db: Db, sls: set<nat>, deps: set<Dep>, i: nat, j: nat, k: nat, present: nat,
                        missing: nat)
    requires DbOk(f, db)
  {
    Covers(f, db, sls, deps, i, j, k) && Counted(f, db, sls, i, j, k, present, missing)
  }

  lemma BuiltNextLevel(f: Fabric, db: Db, sls: set<nat>, deps: set<Dep>, i: nat, j: nat, k: nat, present: nat,
                       missing: nat, found: bool)
    requires DbOk(f, db) && Walked(db, sls, i, j, k) && Built(f, db, sls, deps, i, j, k, present, missing)
    requires found <==> Reaches(f, db, sls, i, j, k)
    ensures Walkable(f, db, db.fis[i], db.fis[j], k, sls)
    ensures Built(f, db, sls, deps + WalkDeps(f, db, db.fis[i], db.fis[j], k, sls), i, j, k + 1,
                  if found then present + 1 else present, if found then missing else missing + 1)
  {
    hide DbOk, Covers, Counted, Reaches, Walkable, WalkDeps;
    CoversNext(f, db, sls, deps, i, j, k);
    CountedNext(f, db, sls, i, j, k, present, missing, found);
  }

  lemma BuiltSkip(f: Fabric, db: Db, sls: set<nat>, deps: set<Dep>, i: nat, j: nat, k: nat, present: nat, missing: nat)
    requires DbOk(f, db) && Built(f, db, sls, deps, i, j, k, present, missing)
    ensures !Walked(db, sls, i, j, k) ==> Built(f, db, sls, deps, i, j, k + 1, present, missing)
    ensures k >= MAX_SLS || i == j ==> Built(f, db, sls, deps, i, j + 1, 0, present, missing)
    ensures j >= |db.fis| ==> Built(f, db, sls, deps, i + 1, 0, 0, present, missing)
  {
    hide DbOk, Covers, Counted;
    CoversSkip(f, db, sls, deps, i, j, k);
    CountedSkip(f, db, sls, i, j, k, present, missing);
  }

  /** All routes from FI `i` to FI `j`, one for each service level. */
  method BuildPair(f: Fabric, db: Db, graph: Graph, sls: set<nat>, i: nat, j: nat, before: nat, missingBefore: nat)
    returns (present: nat, missing: nat)
    requires DbOk(f, db) && NoneRunsAway(f, db) && i < |db.fis| && j < |db.fis| && i != j
    requires graph.Valid() && Growing(graph.View())
    requires Built(f, db, sls, DepsOf(graph.View()), i, j, 0, before, missingBefore)
    modifies graph, graph.vertices
    ensures graph.Valid() && Growing(graph.View()) && old(graph.vertices) <= graph.vertices
    ensures forall k :: |old(graph.vertices)| <= k < |graph.vertices| ==> fresh(graph.vertices[k])
    ensures Built(f, db, sls, DepsOf(graph.View()), i, j + 1, 0, present, missing)
  {
    hide Inv, Growing, DepsOf, Built, Walkable, RouteChannels, PairDeps, VertexViews, DbOk, RouteStop, Before;
    present, missing := before, missingBefore;
    FiDevice(f, db, i, j);
    assert db.fis[i] in db.fis && db.fis[j] in db.fis;
    var sl := 0;
    while sl < MAX_SLS
      invariant 0 <= sl <= MAX_SLS
      invariant graph.Valid() && Growing(graph.View()) && old(graph.vertices) <= graph.vertices
      invariant forall k :: |old(graph.vertices)| <= k < |graph.vertices| ==> fresh(graph.vertices[k])
      invariant Built(f, db, sls, DepsOf(graph.View()), i, j, sl, present, missing)
    {
      ghost var deps := DepsOf(graph.View());
      BuiltSkip(f, db, sls, deps, i, j, sl, present, missing);
      if (if sls != {} then sl in sls else sl == 0) {
        assert graph.vertices == old(graph.vertices) + graph.vertices[|old(graph.vertices)|..];
        var found, links := BuildRoute(f, db, graph, db.fis[i], db.fis[j], sl, sls);
        BuiltNextLevel(f, db, sls, deps, i, j, sl, present, missing, found);
        present, missing := if found then present + 1 else present, if found then missing else missing + 1;
      }
      sl := sl + 1;
    }
    BuiltSkip(f, db, sls, DepsOf(graph.View()), i, j, MAX_SLS, present, missing);
  }

  /** All routes from FI `i`. */
  method BuildFrom(f: Fabric, db: Db, graph: Graph, sls: set<nat>, i: nat, before: nat, missingBefore: nat)
    returns (present: nat, missing: nat)
    requires DbOk(f, db) && NoneRunsAway(f, db) && i < |db.fis|
    requires graph.Valid() && Growing(graph.View())
    requires Built(f, db, sls, DepsOf(graph.View()), i, 0, 0, before, missingBefore)
    modifies graph, graph.vertices
    ensures graph.Valid() && Growing(graph.View()) && old(graph.vertices) <= graph.vertices
    ensures forall k :: |old(graph.vertices)| <= k < |graph.vertices| ==> fresh(graph.vertices[k])
    ensures Built(f, db, sls, DepsOf(graph.View()), i + 1, 0, 0, present, missing)
  {
    hide Inv, Growing, DepsOf, Built, VertexViews, DbOk, NoneRunsAway, Walked;
    present, missing := before, missingBefore;
    var j := 0;
    while j < |db.fis|
      invariant 0 <= j <= |db.fis|
      invariant graph.Valid() && Growing(graph.View()) && old(graph.vertices) <= graph.vertices
      invariant forall k :: |old(graph.vertices)| <= k < |graph.vertices| ==> fresh(graph.vertices[k])
      invariant Built(f, db, sls, DepsOf(graph.View()), i, j, 0, present, missing)
    {
      BuiltSkip(f, db, sls, DepsOf(graph.View()), i, j, 0, present, missing);
      if i != j {
        assert graph.vertices == old(graph.vertices) + graph.vertices[|old(graph.vertices)|..];
        present, missing := BuildPair(f, db, graph, sls, i, j, present, missing);
      }
      j := j + 1;
    }
    BuiltSkip(f, db, sls, DepsOf(graph.View()), i, j, 0, present, missing);
  }

  /** Builds the channel-dependency graph of the recorded routes, one for each pair of FIs and service
      level: it holds exactly the dependencies between channels that some such route uses one right after
      the other. The walks that get to their destination are counted, and those that do not. */
  method BuildRouteGraph(f: Fabric, db: Db, graph: Graph, sls: set<nat>) returns (present: nat, missing: nat)
    requires DbOk(f, db) && NoneRunsAway(f, db)
    requires graph.Valid() && graph.View() == EMPTY && Growing(graph.View())
    modifies graph, graph.vertices
    ensures graph.Valid() && Growing(graph.View())
    ensures old(graph.vertices) <= graph.vertices
    ensures forall k :: |old(graph.vertices)| <= k < |graph.vertices| ==> fresh(graph.vertices[k])
    ensures forall d :: d in DepsOf(graph.View()) <==> IsRouteDep(f, db, sls, d)
    ensures Counted(f, db, sls, |db.fis|, 0, 0, present, missing)
  {
    hide Inv, Growing, DepsOf, IsRouteDep, Built, Counted, VertexViews, DbOk, NoneRunsAway;
    present, missing := 0, 0;
    NoneBuilt(f, db, sls, graph.View());
    var i := 0;
    while i < |db.fis|
      invariant 0 <= i <= |db.fis|
      invariant graph.Valid() && Growing(graph.View()) && old(graph.vertices) <= graph.vertices
      invariant forall k :: |old(graph.vertices)| <= k < |graph.vertices| ==> fresh(graph.vertices[k])
      invariant Built(f, db, sls, DepsOf(graph.View()), i, 0, 0, present, missing)
    {
      assert graph.vertices == old(graph.vertices) + graph.vertices[|old(graph.vertices)|..];
      present, missing := BuildFrom(f, db, graph, sls, i, present, missing);
      i := i + 1;
    }
    AllBuilt(f, db, sls, DepsOf(graph.View()), present, missing);
  }

  lemma NoneBuilt(f: Fabric, db: Db, sls: set<nat>, g: GraphView)
    requires DbOk(f, db) && g == EMPTY
    ensures Built(f, db, sls, DepsOf(g), 0, 0, 0, 0, 0)
  {
    hide DbOk, Covers, Counted;
    NoneCounted(f, db, sls);
    NothingCovered(f, db, sls, g);
  }

  lemma AllBuilt(f: Fabric, db: Db, sls: set<nat>, deps: set<Dep>, present: nat, missing: nat)
    requires DbOk(f, db) && Built(f, db, sls, deps, |db.fis|, 0, 0, present, missing)
    ensures forall d :: d in deps <==> IsRouteDep(f, db, sls, d)
    ensures Counted(f, db, sls, |db.fis|, 0, 0, present, missing)
  {
    hide DbOk, Covers, Counted, IsRouteDep;
    CoversAll(f, db, sls, deps);
  }

  lemma NoneCounted(f: Fabric, db: Db, sls: set<nat>)
    requires DbOk(f, db)
    ensures Counted(f, db, sls, 0, 0, 0, 0, 0)
  {
    hide DbOk, WalksMade;
    NoWalkMade(f, db, sls, 0, 0, 0, true);
    NoWalkMade(f, db, sls, 0, 0, 0, false);
  }

  lemma FiDevice(f: Fabric, db: Db, i: nat, j: nat)
    requires DbOk(f, db) && i < |db.fis| && j < |db.fis| && i != j
    ensures db.fis[i] in db.devices && db.fis[j] in db.devices && db.fis[i] != db.fis[j]
    ensures db.fis[i] in f.nodes && f.nodes[db.fis[i]].kind == FI
    ensures db.fis[j] in f.nodes && f.nodes[db.fis[j]].kind == FI
  {
  }

  lemma NothingCovered(f: Fabric, db: Db, sls: set<nat>, g: GraphView)
    requires DbOk(f, db) && g == EMPTY
    ensures Covers(f, db, sls, DepsOf(g), 0, 0, 0)
  {
  }
}
