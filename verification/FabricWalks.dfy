/** The walks of the fabric between the analyzed ports: what they need to arrive, which of them are
    recorded, and when the builder's walk follows them. */
module FabricWalks {
  import opened Fabrics
  import opened RouteWalking
  import opened CreditRoutes
  import opened RouteGraphs
  import opened RouteRetrace
  import opened ServiceChannels

  // ---- Walks and their routes ----

  /** The route of a path that is analyzed. */
  lemma WayOfPath(f: Fabric, start: Port, target: Port, dlid: nat) returns (path: seq<Port>)
    requires PathTo(f, start, target, dlid)
    ensures Way(f, start, dlid, path, target) && Holds(f, target, dlid) && dlid in f.lidMap && f.lidMap[dlid] == target
    ensures target.node in f.nodes
  {
    var last;
    path, last := WalkArrives(f, start, dlid, 0);
    assert Registered(f, last, dlid) && Registered(f, target, dlid);
  }

  /** The walk arrives exactly if no table along the route refuses the packet. */
  lemma WayIsOpen(f: Fabric, start: Port, dlid: nat, sl: nat, path: seq<Port>, last: Port)
    requires Way(f, start, dlid, path, last) && sl < MAX_SLS
    ensures Walk(f, start, dlid, sl).outcome == Arrived <==> LaneAt(f, start, dlid, sl, path, last, |path|).Lane?
  {
    WalkLanes(f, start, dlid, sl, path, last);
    LaneWhy(f, start, dlid, sl, path, last, |path|);
  }

  /** The calls of an arriving walk: its exits and virtual lanes. */
  lemma WalkExits(f: Fabric, start: Port, dlid: nat, sl: nat, path: seq<Port>, last: Port, i: nat)
    requires Way(f, start, dlid, path, last) && sl < MAX_SLS && i <= |path|
    requires Walk(f, start, dlid, sl).outcome == Arrived
    ensures var trace := Walk(f, start, dlid, sl).trace; var lane := LaneAt(f, start, dlid, sl, path, last, i);
            && |trace| == |path| + 2
            && trace[|path| + 1] == Hop(Some(last), None, VlOf(LaneAt(f, start, dlid, sl, path, last, |path|)))
            && lane.Lane? && trace[i].exit == Some(ExitOf(f, start, dlid, path, last, i)) && trace[i].vl == lane.vl
  {
    WayIsOpen(f, start, dlid, sl, path, last);
    WalkLanes(f, start, dlid, sl, path, last);
    RefusedStays(f, start, dlid, sl, path, last, i, |path|);
    if i > 0 {
      CallAt(f, start, dlid, sl, path, last, 0, i - 1);
    }
    LastCall(f, start, dlid, sl, path, last, 0);
  }

  /** A known route has all its exits recorded. */
  lemma KnownRouted(f: Fabric, db: Db, start: Port, dlid: nat, path: seq<Port>, last: Port)
    requires Way(f, start, dlid, path, last) && RouteKnown(f, db, start, dlid)
    ensures ExitsRouted(f, db, start, dlid, path, last)
  {
    hide Walk, ExitOf;
    forall i: nat | i <= |path|
      ensures Routed(db, dlid, ExitOf(f, start, dlid, path, last, i))
    {
      WalkExits(f, start, dlid, 0, path, last, i);
    }
  }

  lemma ShortEnough(f: Fabric, start: Port, dlid: nat, path: seq<Port>, last: Port)
    requires Way(f, start, dlid, path, last)
    ensures |path| <= MAX_HOPS
  {
  }

  // ---- Tables and lanes along a route ----

  /** The tables looked up at the start or at the `i`-th switch give a channel and a lane, not 15. */
  ghost predicate Passes(f: Fabric, start: Port, dlid: nat, sl: nat, path: seq<Port>, last: Port, i: nat)
    requires Way(f, start, dlid, path, last) && sl < MAX_SLS && i <= |path|
  {
    RoutePorts(f, dlid, path, last);
    Neighbor(f, start);
    var sc, p := ScAt(f, start, dlid, sl, path, last, i), if i == 0 then start else path[i - 1];
    && sc != INVALID_SC
    && (f.ports[p].qos.Some? && (i == 0 || ExitOf(f, start, dlid, path, last, i).num in f.ports[p].qos.value.sc2sc) ==>
          f.ports[p].qos.value.sc2vl[sc] != INVALID_SC)
  }

  /** A packet gets past the `i`-th exit exactly if all tables up to there let it pass; it is then on the
      channel that the SC tables give. */
  lemma {:induction false} LaneExact(f: Fabric, start: Port, dlid: nat, sl: nat, path: seq<Port>, last: Port, i: nat)
    requires Way(f, start, dlid, path, last) && sl < MAX_SLS && i <= |path|
    ensures var lane := LaneAt(f, start, dlid, sl, path, last, i);
            && (lane.Lane? ==> lane.sc == ScAt(f, start, dlid, sl, path, last, i))
            && (lane.Lane? <==>
                forall j: nat {:trigger Passes(f, start, dlid, sl, path, last, j)} :: j <= i ==>
                  Passes(f, start, dlid, sl, path, last, j))
    decreases i
  {
    hide LaneAlong, RouteFrom;
    if i == 0 {
      LaneFirst(f, start, dlid, sl, path, last);
    } else {
      LaneExact(f, start, dlid, sl, path, last, i - 1);
      assert LaneAt(f, start, dlid, sl, path, last, i - 1).Lane? ==> Passes(f, start, dlid, sl, path, last, i - 1);
      LaneStep(f, start, dlid, sl, path, last, i);
    }
  }

  lemma LaneFirst(f: Fabric, start: Port, dlid: nat, sl: nat, path: seq<Port>, last: Port)
    requires Way(f, start, dlid, path, last) && sl < MAX_SLS
    ensures var lane := LaneAt(f, start, dlid, sl, path, last, 0);
            && (lane.Lane? <==> Passes(f, start, dlid, sl, path, last, 0))
            && (lane.Lane? ==> lane.sc == ScAt(f, start, dlid, sl, path, last, 0))
  {
    FirstLaneInRange(f, start, sl);
    assert path[..0] == [];
  }

  lemma LaneStep(f: Fabric, start: Port, dlid: nat, sl: nat, path: seq<Port>, last: Port, i: nat)
    requires Way(f, start, dlid, path, last) && sl < MAX_SLS && 0 < i <= |path|
    ensures var before := LaneAt(f, start, dlid, sl, path, last, i - 1);
            var lane := LaneAt(f, start, dlid, sl, path, last, i);
            && (before.Refused? ==> lane == before)
            && (before.Lane? && before.sc == ScAt(f, start, dlid, sl, path, last, i - 1)
                && before.sc != INVALID_SC ==>
                  && (lane.Lane? <==> Passes(f, start, dlid, sl, path, last, i))
                  && (lane.Lane? ==> lane.sc == ScAt(f, start, dlid, sl, path, last, i)))
  {
    SwitchOnWay(f, start, dlid, path, last, i);
    LaneAtNext(f, start, dlid, sl, path, last, i - 1);
    var x := ExitOf(f, start, dlid, path, last, i);
    Neighbor(f, x);
  }

  /** A walk arrives exactly if all tables along its route let it pass. */
  lemma ArrivesExact(f: Fabric, start: Port, dlid: nat, sl: nat, path: seq<Port>, last: Port)
    requires Way(f, start, dlid, path, last) && sl < MAX_SLS
    ensures Walk(f, start, dlid, sl).outcome == Arrived
            <==> forall j: nat {:trigger Passes(f, start, dlid, sl, path, last, j)} :: j <= |path| ==>
                   Passes(f, start, dlid, sl, path, last, j)
  {
    WayIsOpen(f, start, dlid, sl, path, last);
    LaneExact(f, start, dlid, sl, path, last, |path|);
  }

  /** The virtual lane of each call of a walk that arrives, read off the tables. The start has that of the
      channel of the service level. A switch has that of the channel it is left by under the SC2VL table of
      the entry port, if that has an SC table for the exit; otherwise, as at the end, the lane stays. */
  lemma WalkVls(f: Fabric, start: Port, dlid: nat, sl: nat, path: seq<Port>, last: Port, i: nat)
    requires Way(f, start, dlid, path, last) && sl < MAX_SLS && i <= |path|
    requires Walk(f, start, dlid, sl).outcome == Arrived
    ensures var t, p := Walk(f, start, dlid, sl).trace, if i == 0 then start else path[i - 1];
            var sc := ScAt(f, start, dlid, sl, path, last, i);
            && |t| == |path| + 2 && p in f.ports && PortOk(f, p)
            && t[i].vl == (match f.ports[p].qos
                           case Some(q) =>
                             if i == 0 || ExitOf(f, start, dlid, path, last, i).num in q.sc2sc then q.sc2vl[sc]
                             else t[i - 1].vl
                           case None => if i == 0 then 0 else t[i - 1].vl)
            && t[|path| + 1].vl == t[|path|].vl
  {
    hide Walk, LaneAt, ScAt, ExitOf, RouteFrom;
    WalkExits(f, start, dlid, sl, path, last, i);
    WalkExits(f, start, dlid, sl, path, last, |path|);
    LaneExact(f, start, dlid, sl, path, last, i);
    if i == 0 {
      LaneAtStart(f, start, dlid, sl, path, last);
    } else {
      WalkExits(f, start, dlid, sl, path, last, i - 1);
      SwitchOnWay(f, start, dlid, path, last, i);
      SwitchExit(f, start, dlid, path, last, i);
      LaneAtNext(f, start, dlid, sl, path, last, i - 1);
    }
  }

  lemma SwitchExit(f: Fabric, start: Port, dlid: nat, path: seq<Port>, last: Port, i: nat)
    requires Way(f, start, dlid, path, last) && 0 < i <= |path|
    ensures path[i - 1] in f.ports && PortOk(f, path[i - 1]) && Forwards(f, path[i - 1], dlid)
    ensures ExitOf(f, start, dlid, path, last, i) == Exit(f, path[i - 1], dlid)
    ensures ExitOf(f, start, dlid, path, last, i).num != 0
  {
    RoutePorts(f, dlid, path, last);
    assert path[i - 1] in path;
    SwitchOnWay(f, start, dlid, path, last, i);
    Neighbor(f, ExitOf(f, start, dlid, path, last, i));
  }

  /** As far as the `k`-th exit, no SC table yields 15, if service channels are looked at. */
  ghost predicate Unrefused(f: Fabric, start: Port, dlid: nat, sl: nat, sls: set<nat>, path: seq<Port>, last: Port,
                            k: nat)
    requires Way(f, start, dlid, path, last) && sl < MAX_SLS && k <= |path|
  {
    sls == {} || forall j: nat {:trigger ScAt(f, start, dlid, sl, path, last, j)} :: j <= k ==>
                   ScAt(f, start, dlid, sl, path, last, j) != INVALID_SC
  }

  lemma ArrivedUnrefused(f: Fabric, start: Port, dlid: nat, sl: nat, sls: set<nat>, path: seq<Port>, last: Port, k: nat)
    requires Way(f, start, dlid, path, last) && sl < MAX_SLS && k <= |path|
    requires Walk(f, start, dlid, sl).outcome == Arrived
    ensures Unrefused(f, start, dlid, sl, sls, path, last, k)
  {
    ArrivesExact(f, start, dlid, sl, path, last);
    forall j: nat | j <= k
      ensures ScAt(f, start, dlid, sl, path, last, j) != INVALID_SC
    {
      assert Passes(f, start, dlid, sl, path, last, j);
    }
  }

  /** Where no port has QoS data nothing is refused. */
  predicate NoQos(f: Fabric) {
    forall p <- f.ports :: f.ports[p].qos == None
  }

  lemma {:induction false} LanesWithoutQos(f: Fabric, start: Port, dlid: nat, sl: nat, path: seq<Port>, last: Port,
                                           i: nat)
    requires NoQos(f) && RouteFrom(f, start, dlid, path, last) && sl < MAX_SLS && i <= |path|
    ensures LaneAt(f, start, dlid, sl, path, last, i) == Lane(0, 0)
    decreases i
  {
    FirstLaneInRange(f, start, sl);
    assert path[..0] == [];
    if i > 0 {
      LanesWithoutQos(f, start, dlid, sl, path, last, i - 1);
      LaneAtNext(f, start, dlid, sl, path, last, i - 1);
    }
  }

  lemma WayArrives(f: Fabric, start: Port, dlid: nat, sl: nat, path: seq<Port>, last: Port)
    requires NoQos(f) && Way(f, start, dlid, path, last) && sl < MAX_SLS
    ensures Walk(f, start, dlid, sl).outcome == Arrived
  {
    LanesWithoutQos(f, start, dlid, sl, path, last, |path|);
    WayIsOpen(f, start, dlid, sl, path, last);
  }

  // ---- The recorded channels and those of the packets ----

  /** The service channels recorded are those packets take: channel 0 if channels are ignored, otherwise
      what the scan of the tables finds, provided that it misses nothing behind a last egress port. */
  ghost predicate ScsRight(f: Fabric, numPorts: map<nat, nat>, sls: set<nat>, used: set<nat>) {
    || (sls == {} && used == {})
    || (sls != {} && HasImages(f, sls, used) && Closed(f, numPorts, used) && LastClosed(f, numPorts, used)
        && INVALID_SC !in used && QosKnown(f, numPorts) && PortsNumbered(f, numPorts) && QosLinked(f))
  }

  lemma TableStaysUsed(f: Fabric, numPorts: map<nat, nat>, used: set<nat>, entry: Port, exit: Port, sc: nat)
    requires Closed(f, numPorts, used) && LastClosed(f, numPorts, used) && PortsNumbered(f, numPorts)
    requires entry in f.ports && exit in f.ports && entry.node == exit.node && PortOk(f, entry) && IsSwitch(f, entry)
    requires entry.num != 0 && sc in used && sc < MAX_SCS
    ensures var next := ScOut(f, entry, exit, sc); next != INVALID_SC ==> next in used
  {
    var next := ScOut(f, entry, exit, sc);
    if next != INVALID_SC && next != sc {
      assert Switches(f, numPorts, entry, exit.num, sc, next);
      assert exit.num < numPorts[exit.node] ==> Moves(f, numPorts, entry, exit.num, sc, next);
    }
  }

  /** As long as no table yields 15, the channel is in the set. */
  lemma {:induction false} ScStaysUsed(f: Fabric, numPorts: map<nat, nat>, sls: set<nat>, used: set<nat>, start: Port,
                                       dlid: nat, sl: nat, path: seq<Port>, last: Port, i: nat)
    requires ScsRight(f, numPorts, sls, used) && sls != {} && sl in sls && sl < MAX_SLS
    requires Way(f, start, dlid, path, last) && i <= |path| && Unrefused(f, start, dlid, sl, sls, path, last, i)
    ensures ScAt(f, start, dlid, sl, path, last, i) in used
    decreases i
  {
    hide RouteFrom, ExitOf, Closed, LastClosed, HasImages;
    var sc := ScAt(f, start, dlid, sl, path, last, i);
    if i == 0 {
      FirstUsed(f, numPorts, sls, used, start, dlid, sl, path, last);
    } else {
      ScStaysUsed(f, numPorts, sls, used, start, dlid, sl, path, last, i - 1);
      SwitchOnWay(f, start, dlid, path, last, i);
      ExitLeaves(f, start, dlid, path, last, i);
      TableStaysUsed(f, numPorts, used, path[i - 1], ExitOf(f, start, dlid, path, last, i),
                     ScAt(f, start, dlid, sl, path, last, i - 1));
    }
  }

  lemma ExitLeaves(f: Fabric, start: Port, dlid: nat, path: seq<Port>, last: Port, i: nat)
    requires Way(f, start, dlid, path, last) && 0 < i <= |path|
    ensures ExitOf(f, start, dlid, path, last, i).node == path[i - 1].node
  {
  }

  lemma FirstUsed(f: Fabric, numPorts: map<nat, nat>, sls: set<nat>, used: set<nat>, start: Port, dlid: nat, sl: nat,
                  path: seq<Port>, last: Port)
    requires HasImages(f, sls, used) && QosKnown(f, numPorts) && sl in sls && sl < MAX_SLS
    requires Way(f, start, dlid, path, last) && ScAt(f, start, dlid, sl, path, last, 0) != INVALID_SC
    ensures ScAt(f, start, dlid, sl, path, last, 0) in used
  {
    Neighbor(f, start);
    assert IsEnd(f, start);
    assert Maps(f, start, sls, ScAt(f, start, dlid, sl, path, last, 0));
  }

  /** So the builder loses a route exactly where the SC tables, composed along it, first yield 15. */
  lemma LostIsRefused(f: Fabric, numPorts: map<nat, nat>, sls: set<nat>, used: set<nat>, start: Port, dlid: nat,
                      sl: nat, path: seq<Port>, last: Port, k: nat)
    requires ScsRight(f, numPorts, sls, used) && sl in WalkedSls(sls) && sl < MAX_SLS
    requires Way(f, start, dlid, path, last) && k <= |path|
    ensures k < FirstLost(f, start, dlid, sl, sls, path, last, used, 0)
            <==> Unrefused(f, start, dlid, sl, sls, path, last, k)
  {
    hide ScAt, Way, IsRecorded, ExitOf, ScsRight;
    LostAfter(f, start, dlid, sl, sls, path, last, used, 0, k);
    forall j: nat | j <= k
      ensures Unrefused(f, start, dlid, sl, sls, path, last, j) ==>
                IsRecorded(f, start, dlid, sl, sls, path, last, used, j)
      ensures IsRecorded(f, start, dlid, sl, sls, path, last, used, j) && sls != {} ==>
                ScAt(f, start, dlid, sl, path, last, j) != INVALID_SC
    {
      RecordedExact(f, numPorts, sls, used, start, dlid, sl, path, last, j);
    }
    if Unrefused(f, start, dlid, sl, sls, path, last, k) {
      forall j: nat | j <= k
        ensures Unrefused(f, start, dlid, sl, sls, path, last, j)
      {
      }
    }
    if k < FirstLost(f, start, dlid, sl, sls, path, last, used, 0) && sls != {} {
      forall j: nat | j <= k
        ensures ScAt(f, start, dlid, sl, path, last, j) != INVALID_SC
      {
        assert IsRecorded(f, start, dlid, sl, sls, path, last, used, j);
      }
    }
  }

  lemma RecordedExact(f: Fabric, numPorts: map<nat, nat>, sls: set<nat>, used: set<nat>, start: Port, dlid: nat,
                      sl: nat, path: seq<Port>, last: Port, j: nat)
    requires ScsRight(f, numPorts, sls, used) && sl in WalkedSls(sls) && sl < MAX_SLS
    requires Way(f, start, dlid, path, last) && j <= |path|
    ensures Unrefused(f, start, dlid, sl, sls, path, last, j) ==>
              IsRecorded(f, start, dlid, sl, sls, path, last, used, j)
    ensures IsRecorded(f, start, dlid, sl, sls, path, last, used, j) && sls != {} ==>
              ScAt(f, start, dlid, sl, path, last, j) != INVALID_SC
  {
    hide ScAt, RouteFrom, HasImages, Closed, LastClosed, QosKnown, PortsNumbered;
    var x := ExitOf(f, start, dlid, path, last, j);
    assert sls != {} ==> f.ports[x].qos.Some?;
    if sls != {} && Unrefused(f, start, dlid, sl, sls, path, last, j) {
      ScStaysUsed(f, numPorts, sls, used, start, dlid, sl, path, last, j);
    }
  }

  // ---- The builder's walk of a known route ----

  /** The builder's walk of a known route to the stored LID of an FI: the exits of the route, in order, on
      the channels that the SC tables give, up to the first 15; virtual lanes are not looked at. */
  lemma RouteExact(f: Fabric, numPorts: map<nat, nat>, db: Db, used: set<nat>, start: Port, dst: nat, sl: nat,
                   sls: set<nat>, path: seq<Port>, last: Port)
    requires DbOk(f, db) && Wired(f, db, used) && ScsRight(f, numPorts, sls, used)
    requires sl in WalkedSls(sls) && sl < MAX_SLS && IsNode(f, dst, FI)
    requires start.node in db.devices && dst in db.devices && start.node != dst
    requires var dlid := StoredLid(db.devices[dst].lid);
             && Way(f, start, dlid, path, last) && ExitsRouted(f, db, start, dlid, path, last)
             && (last.node == dst || !RunsAway(f, db, start.node, dst, dlid))
    ensures var dlid := StoredLid(db.devices[dst].lid); var cs := RouteChannels(f, db, start.node, dst, sl, sls);
            && |cs| <= |path| + 1 && cs == ChannelsFrom(f, start, dlid, sl, sls, path, last, 0)[..|cs|]
            && (forall k: nat {:trigger Unrefused(f, start, dlid, sl, sls, path, last, k)} :: k <= |path| ==>
                  (k < |cs| <==> Unrefused(f, start, dlid, sl, sls, path, last, k)))
            && RouteStop(f, db, start.node, dst, sl, sls) == DeviceAt(start, path, last, |cs|)
  {
    hide Way, ExitsRouted, DbOk, Wired, ScsRight, Unrefused, RunsAway, IsRecorded, ChannelAt;
    var dlid := StoredLid(db.devices[dst].lid);
    ShortEnough(f, start, dlid, path, last);
    RightQos(f, numPorts, sls, used);
    StandsAtStart(f, start, dlid, sl, sls, path, last);
    FollowsExact(f, db, start, dst, dlid, sl, sls, path, last, used, 0, None, 0, WALK_FUEL);
    forall k: nat | k <= |path|
      ensures k < FirstLost(f, start, dlid, sl, sls, path, last, used, 0)
              <==> Unrefused(f, start, dlid, sl, sls, path, last, k)
    {
      LostIsRefused(f, numPorts, sls, used, start, dlid, sl, path, last, k);
    }
  }

  lemma RightQos(f: Fabric, numPorts: map<nat, nat>, sls: set<nat>, used: set<nat>)
    requires ScsRight(f, numPorts, sls, used)
    ensures used == {} || QosLinked(f)
  {
  }

  lemma StandsAtStart(f: Fabric, x: Port, dlid: nat, sl: nat, sls: set<nat>, path: seq<Port>, last: Port)
    requires Way(f, x, dlid, path, last) && sl < MAX_SLS
    ensures Standing(f, x, dlid, sl, sls, path, last, 0, None, 0)
  {
  }

  /** Where the walk on a service level in use arrives, the builder visits the exits which that walk
      reports, in order, on the service channels the packet has there, and ends at the destination. */
  lemma BuilderRetracesWalk(f: Fabric, numPorts: map<nat, nat>, db: Db, used: set<nat>, start: Port, dst: nat, sl: nat,
                            sls: set<nat>)
    returns (path: seq<Port>, last: Port)
    requires DbOk(f, db) && Wired(f, db, used) && ScsRight(f, numPorts, sls, used)
    requires sl in WalkedSls(sls) && sl < MAX_SLS
    requires start.node in db.devices && dst in db.devices && start.node != dst
    requires FiPort(f, start) && IsNode(f, dst, FI)
    requires var dlid := StoredLid(db.devices[dst].lid);
             && dlid != 0 && dlid in f.lidMap && f.lidMap[dlid].node == dst && RouteKnown(f, db, start, dlid)
             && Walk(f, start, dlid, sl).outcome == Arrived
    ensures var dlid := StoredLid(db.devices[dst].lid); var cs := RouteChannels(f, db, start.node, dst, sl, sls);
            var trace := Walk(f, start, dlid, sl).trace;
            && Way(f, start, dlid, path, last) && |cs| == |path| + 1 == |trace| - 1
            && forall i: nat {:trigger cs[i]} :: i < |cs| ==>
                 && trace[i].exit == Some(Port(cs[i].node, cs[i].port))
                 && LaneAt(f, start, dlid, sl, path, last, i).Lane?
                 && cs[i].sc == if sls == {} then 0 else LaneAt(f, start, dlid, sl, path, last, i).sc
    ensures RouteStop(f, db, start.node, dst, sl, sls) == dst
  {
    hide Walk, Wired, DbOk, RouteFrom, ScsRight, WayRecorded, Unrefused, Passes, ScAt;
    var dlid := StoredLid(db.devices[dst].lid);
    path, last := WalkArrives(f, start, dlid, 0);
    EndIs(f, start, dlid, path, last, dst);
    KnownRouted(f, db, start, dlid, path, last);
    RouteExact(f, numPorts, db, used, start, dst, sl, sls, path, last);
    ArrivedUnrefused(f, start, dlid, sl, sls, path, last, |path|);
    var cs := RouteChannels(f, db, start.node, dst, sl, sls);
    WalkExits(f, start, dlid, sl, path, last, 0);
    forall i: nat | i < |cs|
      ensures Walk(f, start, dlid, sl).trace[i].exit == Some(Port(cs[i].node, cs[i].port))
      ensures LaneAt(f, start, dlid, sl, path, last, i).Lane?
      ensures cs[i].sc == if sls == {} then 0 else LaneAt(f, start, dlid, sl, path, last, i).sc
    {
      WalkExits(f, start, dlid, sl, path, last, i);
      LaneExact(f, start, dlid, sl, path, last, i);
      ChannelsIndex(f, start, dlid, sl, sls, path, last, 0, i);
    }
  }

  lemma EndIs(f: Fabric, start: Port, dlid: nat, path: seq<Port>, last: Port, dst: nat)
    requires RouteFrom(f, start, dlid, path, last) && !IsSwitch(f, start) && dlid != 0
    requires dlid in f.lidMap && f.lidMap[dlid].node == dst && IsNode(f, dst, FI)
    ensures Way(f, start, dlid, path, last) && last.node == dst
  {
    assert Registered(f, last, dlid);
  }

  // ---- What is recorded ----

  lemma WayOfRecordable(f: Fabric, ports: seq<Port>, x: Port, dlid: nat) returns (path: seq<Port>, last: Port)
    requires Recordable(f, ports, x, dlid)
    ensures Way(f, x, dlid, path, last) && last in ports && PathTo(f, x, last, dlid)
    ensures dlid in f.lidMap && f.lidMap[dlid] == last && dlid != 0
  {
    last :| last in ports && PathTo(f, x, last, dlid);
    path := WayOfPath(f, x, last, dlid);
  }

  /** Every walk between the ports goes by port numbers in range. */
  ghost predicate RoutesFit(f: Fabric, ports: seq<Port>) {
    forall x, dlid {:trigger Recordable(f, ports, x, dlid)} :: Recordable(f, ports, x, dlid) ==> Routable(f, x, dlid)
  }

  lemma PortIsOwner(f: Fabric, x: Port)
    requires FiPort(f, x) && f.ports[x].lid != 0
    ensures f.ports[x].lid in f.lidMap && f.lidMap[f.ports[x].lid] == x && IsNode(f, x.node, FI)
  {
    assert Registered(f, x, f.ports[x].lid);
  }

  lemma PathSettledAt(f: Fabric, ports: seq<Port>, db: Db, used: set<nat>, good: bool, x: Port, t: Port, dlid: nat)
    requires Collected(f, ports, db, used, good) && x in ports && t in ports && PathTo(f, x, t, dlid)
    ensures Settled(f, db, x, dlid) && (good ==> RouteKnown(f, db, x, dlid))
  {
    hide DbOk, Wired, Sourced, Settled, RouteKnown, Walk;
    var a :| 0 <= a < |ports| && ports[a] == x;
    var b :| 0 <= b < |ports| && ports[b] == t;
    assert PairSettled(f, db, ports[a], ports[b], good);
    assert PathSettled(f, db, x, t, dlid - f.ports[t].lid, good);
  }

  lemma NodeIsFi(f: Fabric, x: Port)
    requires FiPort(f, x)
    ensures x.node in f.nodes && f.nodes[x.node].kind == FI
  {
  }

  lemma LastIsOwner(f: Fabric, x: Port, dlid: nat, path: seq<Port>, last: Port)
    requires Way(f, x, dlid, path, last)
    ensures dlid in f.lidMap && f.lidMap[dlid] == last
  {
    assert Registered(f, last, dlid);
  }

  /** The far end of the last exit of a recorded route is recorded. */
  lemma LastRecorded(f: Fabric, db: Db, x: Port, dlid: nat, path: seq<Port>, last: Port)
    requires DbOk(f, db) && Way(f, x, dlid, path, last) && ExitsRouted(f, db, x, dlid, path, last)
    ensures last.node in db.devices
  {
    var e := ExitOf(f, x, dlid, path, last, |path|);
    assert Routed(db, dlid, e);
    assert RouteOk(f, db, e.node, dlid);
  }

  lemma CollectedOk(f: Fabric, ports: seq<Port>, db: Db, used: set<nat>, good: bool)
    requires Collected(f, ports, db, used, good)
    ensures DbOk(f, db) && FabricOk(f)
  {
  }

  /** A recorded entry of an FI is the first exit of a route known to its end. */
  lemma EntryIsKnown(f: Fabric, ports: seq<Port>, db: Db, used: set<nat>, good: bool, n: nat, lid: nat)
    returns (path: seq<Port>, last: Port)
    requires Collected(f, ports, db, used, good) && (good || RoutesFit(f, ports))
    requires n in db.fis && lid in db.devices[n].routes
    ensures var x := db.devices[n].routes[lid];
            && x.node == n && Way(f, x, lid, path, last) && ExitsRouted(f, db, x, lid, path, last)
            && Recordable(f, ports, x, lid)
    ensures lid in f.lidMap && f.lidMap[lid] == last && IsNode(f, last.node, FI)
  {
    hide Walk, DbOk, Wired, AllSettled, RoutesFit, Way, RouteKnown, Routable;
    FiIsNode(f, db, n);
    assert FiSourced(f, ports, db, n);
    var x := db.devices[n].routes[lid];
    path, last := WayOfRecordable(f, ports, x, lid);
    var t :| t in ports && PathTo(f, x, t, lid);
    PathSettledAt(f, ports, db, used, good, x, t, lid);
    FitsIfGood(f, ports, x, lid);
    KnownRouted(f, db, x, lid, path, last);
    NodeIsFi(f, last);
  }

  lemma FiIsNode(f: Fabric, db: Db, n: nat)
    requires DbOk(f, db) && n in db.fis
    ensures n in db.devices && n in f.nodes && f.nodes[n].kind == FI && IsNode(f, n, FI)
  {
  }

  lemma FitsIfGood(f: Fabric, ports: seq<Port>, x: Port, lid: nat)
    requires Recordable(f, ports, x, lid)
    ensures CanStart(f, x) && (RoutesFit(f, ports) ==> Routable(f, x, lid))
  {
  }

  /** An FI that has a route to a LID has an entry for it. */
  lemma LeavesByEntry(f: Fabric, ports: seq<Port>, db: Db, used: set<nat>, good: bool, n: nat, lid: nat)
    requires Collected(f, ports, db, used, good) && (good || RoutesFit(f, ports)) && LeavesFor(f, ports, n, lid)
    ensures n in db.fis && n in db.devices && lid in db.devices[n].routes
  {
    hide Walk, DbOk, Wired, AllSettled, RoutesFit, Routable, RouteKnown, Way;
    var x: Port :| x.node == n && Recordable(f, ports, x, lid);
    var t :| t in ports && PathTo(f, x, t, lid);
    PathSettledAt(f, ports, db, used, good, x, t, lid);
    FitsIfGood(f, ports, x, lid);
    if RouteKnown(f, db, x, lid) {
      var path, last := WayOfRecordable(f, ports, x, lid);
      KnownRouted(f, db, x, lid, path, last);
      StartRouted(f, db, x, lid, path, last);
    }
    NodeIsFi(f, x);
    RecordedFi(f, db, n);
  }

  lemma RecordedFi(f: Fabric, db: Db, n: nat)
    requires DbOk(f, db) && n in db.devices && n in f.nodes && f.nodes[n].kind == FI
    ensures n in db.fis
  {
    assert DeviceOk(f, db, n);
  }

  // ---- When a walk of the builder cannot run away ----

  /** Some port of FI `n` has a route to `lid`. */
  ghost predicate LeavesFor(f: Fabric, ports: seq<Port>, n: nat, lid: nat) {
    exists x: Port :: x.node == n && Recordable(f, ports, x, lid)
  }

  /** The walk from `src` to `dst` by `lid` would reach another FI that leaves for `lid` itself, by one of
      its ports for another. */
  ghost predicate GoesRound(f: Fabric, ports: seq<Port>, src: nat, dst: nat, lid: nat) {
    && LeavesFor(f, ports, src, lid)
    && lid in f.lidMap && f.lidMap[lid].node != dst && LeavesFor(f, ports, f.lidMap[lid].node, lid)
  }

  /** No walk to the stored base LID of a port goes round. */
  ghost predicate FabricSafe(f: Fabric, ports: seq<Port>) {
    forall src, t {:trigger GoesRound(f, ports, src, t.node, StoredLid(f.ports[t].lid))} ::
      t in ports && t in f.ports && src != t.node ==> !GoesRound(f, ports, src, t.node, StoredLid(f.ports[t].lid))
  }

  /** What runs away was walked. */
  lemma RunawayGoesRound(f: Fabric, ports: seq<Port>, db: Db, src: nat, dst: nat, lid: nat)
    requires DbOk(f, db) && Sourced(f, ports, db) && src in db.fis && RunsAway(f, db, src, dst, lid)
    ensures GoesRound(f, ports, src, dst, lid)
  {
    hide Recordable;
    var owner := f.lidMap[lid].node;
    assert FiSourced(f, ports, db, src);
    OwnerIsFi(f, ports, db, src, lid);
    assert FiSourced(f, ports, db, owner);
  }

  /** The owner of a LID to which an FI has a route is an FI: only such paths are analyzed. */
  lemma OwnerIsFi(f: Fabric, ports: seq<Port>, db: Db, src: nat, lid: nat)
    requires DbOk(f, db) && Sourced(f, ports, db) && src in db.fis && lid in db.devices[src].routes && lid in f.lidMap
    ensures IsNode(f, f.lidMap[lid].node, FI)
  {
    assert FiSourced(f, ports, db, src);
    var path, last := WayOfRecordable(f, ports, db.devices[src].routes[lid], lid);
    NodeIsFi(f, last);
  }

  lemma SafeStays(f: Fabric, ports: seq<Port>, db: Db)
    requires DbOk(f, db) && Sourced(f, ports, db) && FabricSafe(f, ports)
    ensures NoneRunsAway(f, db)
  {
    hide GoesRound, LeavesFor, RunsAway;
    forall src <- db.fis, dst <- db.fis | src != dst && dst in db.devices
      ensures !RunsAway(f, db, src, dst, StoredLid(db.devices[dst].lid))
    {
      assert FiSourced(f, ports, db, dst);
      var t :| t in ports && t in f.ports && t.node == dst && db.devices[dst].lid == f.ports[t].lid;
      assert !GoesRound(f, ports, src, t.node, StoredLid(f.ports[t].lid));
      if RunsAway(f, db, src, dst, StoredLid(db.devices[dst].lid)) {
        RunawayGoesRound(f, ports, db, src, dst, StoredLid(db.devices[dst].lid));
      }
    }
  }

  /** No FI answers for LIDs by two ports. */
  ghost predicate SinglePort(f: Fabric) {
    forall l, m | l in f.lidMap && m in f.lidMap && f.lidMap[l].node == f.lidMap[m].node
                  && IsNode(f, f.lidMap[l].node, FI) :: f.lidMap[l] == f.lidMap[m]
  }

  /** The base LIDs of the ports survive being stored in 16 bits. */
  ghost predicate BasesStored(f: Fabric, ports: seq<Port>) {
    forall t <- ports :: t in f.ports ==> StoredLid(f.ports[t].lid) == f.ports[t].lid
  }

  /** On such a fabric two ports of an FI that have LIDs are one. */
  lemma OnePort(f: Fabric, x: Port, y: Port)
    requires SinglePort(f) && FiPort(f, x) && FiPort(f, y) && f.ports[x].lid != 0 && f.ports[y].lid != 0
    requires x.node == y.node
    ensures x == y
  {
    PortIsOwner(f, x);
    PortIsOwner(f, y);
  }

  /** No walk goes round where the base LIDs fit 16 bits, nor where no FI has two ports with LIDs. */
  lemma SafeFabrics(f: Fabric, ports: seq<Port>)
    requires FabricOk(f) && (forall p <- ports :: FiPort(f, p)) && (BasesStored(f, ports) || SinglePort(f))
    ensures FabricSafe(f, ports)
  {
    hide Walk;
    forall src: nat, t | t in ports && t in f.ports && src != t.node
      ensures !GoesRound(f, ports, src, t.node, StoredLid(f.ports[t].lid))
    {
      var l := StoredLid(f.ports[t].lid);
      if GoesRound(f, ports, src, t.node, l) {
        var x: Port :| x.node == f.lidMap[l].node && Recordable(f, ports, x, l);
        var path, last := WayOfRecordable(f, ports, x, l);
        if SinglePort(f) {
          OnePort(f, x, last);
        } else {
          PortIsOwner(f, t);
        }
      }
    }
  }

  // ---- Fabrics whose port numbers are in range ----

  predicate PortsFit(f: Fabric) {
    forall p <- f.ports :: p.num < MAX_CONNECTIONS
  }

  lemma PortsFitRoutes(f: Fabric, ports: seq<Port>)
    requires PortsFit(f)
    ensures RoutesFit(f, ports)
  {
    forall x: Port, dlid: nat | Recordable(f, ports, x, dlid)
      ensures Routable(f, x, dlid)
    {
      FitsAll(f, x, dlid);
    }
  }

  lemma FitsAll(f: Fabric, x: Port, dlid: nat)
    requires PortsFit(f) && CanStart(f, x) && Walk(f, x, dlid, 0).outcome == Arrived && !IsSwitch(f, x)
    ensures TraceFits(Walk(f, x, dlid, 0).trace)
  {
    hide Walk;
    var path, last := WalkArrives(f, x, dlid, 0);
    var trace := Walk(f, x, dlid, 0).trace;
    forall i | 0 <= i < |trace|
      ensures trace[i].entry.Some? ==> trace[i].entry.value.num < MAX_CONNECTIONS
      ensures trace[i].exit.Some? ==> trace[i].exit.value.num < MAX_CONNECTIONS
    {
      if 0 < i <= |path| {
        assert trace[1 + (i - 1 - 0)].entry == Some(path[i - 1]);
        RoutePorts(f, dlid, path, last);
      }
    }
  }
}
