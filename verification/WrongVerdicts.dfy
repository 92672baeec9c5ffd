/** Three rings on which the verdict is not that of the walks: a loop that is missed because it lies among
    routes to other LIDs than the base LIDs, one that is missed because routes are traced on service level
    0, and one that is reported although its walks are refused a lane. */
module WrongVerdicts {
  import opened Fabrics
  import opened RouteWalking
  import opened CreditRoutes
  import opened GraphViews
  import opened RouteGraphs
  import opened RouteRetrace
  import opened ServiceChannels
  import opened Splitting
  import opened FabricWalks
  import opened FabricLoops
  import opened CreditLoops
  import opened RingFabrics

  // ---- Other LIDs ----

  /** Two LIDs per FI: base LIDs are routed straight, second LIDs go round. */
  const TWO_LIDS := Kind(1, None, None)

  lemma TwoLidsNoQos()
    ensures KindOk(TWO_LIDS) && NoQos(RingFabric(TWO_LIDS))
  {
    hide RingFabric;
    forall p | p in RingFabric(TWO_LIDS).ports ensures RingFabric(TWO_LIDS).ports[p].qos == None {
      PortIn(TWO_LIDS, p);
    }
  }

  lemma TwoLidsDep(n: nat)
    requires 1 <= n <= 3
    ensures FabricDep(RingFabric(TWO_LIDS), RING_PORTS, {}, Dep(RingChannel(n, 0), RingChannel(Next(n), 0)))
  {
    hide Walk, Way, RingFabric, Pathed, NoQos;
    var f, x, lid := RingFabric(TWO_LIDS), Port(n, 1), RoundLid(TWO_LIDS, n);
    var path, t := RoundPath(n), Port(Next(Next(n)), 1);
    TwoLidsNoQos();
    RoundExits(TWO_LIDS, n);
    RoundPathed(TWO_LIDS, n);
    WayArrives(f, x, lid, 0, path, t);
    assert WalkPair(f, RING_PORTS, {}, Dep(RingChannel(n, 0), RingChannel(Next(n), 0)), x, lid, 0, path, t, 1);
    assert WalkDep(f, RING_PORTS, {}, lid, Dep(RingChannel(n, 0), RingChannel(Next(n), 0)));
  }

  /** Straight ways leave by an FI, then by a ring link, then by the link of an FI. */
  lemma StraightRises(d: Dep)
    requires BaseDep(RingFabric(TWO_LIDS), RING_PORTS, {}, d)
    ensures Rank(d.from) < Rank(d.to)
  {
    hide Way, Walk, RingFabric, ExitOf, Pathed;
    var k, f := TWO_LIDS, RingFabric(TWO_LIDS);
    var p :| p in RING_PORTS && p in f.ports && WalkDep(f, RING_PORTS, {}, f.ports[p].lid, d);
    PortIn(k, p);
    var lid := f.ports[p].lid;
    var x: Port, sl: nat, path: seq<Port>, last: Port, i: nat :|
      WalkPair(f, RING_PORTS, {}, d, x, lid, sl, path, last, i);
    PathedIn(f, RING_PORTS, x, lid);
    ExitsAt(k, x, lid, path, last, i);
  }

  /** Two exits that follow each other: by way of `path[i]`. */
  lemma ExitsAt(k: Kind, x: Port, lid: nat, path: seq<Port>, last: Port, i: nat)
    requires KindOk(k) && x in RING_PORTS && Way(RingFabric(k), x, lid, path, last) && 2 <= lid <= 7 && i < |path|
    ensures var f := RingFabric(k);
            var a, b := ExitOf(f, x, lid, path, last, i), ExitOf(f, x, lid, path, last, i + 1);
            && a in f.ports && 4 <= path[i].node <= 6 && path[i] == InfoOf(k, a).neighbor.value
            && b == Port(path[i].node, Table(k, path[i].node - 3, lid))
            && (i == 0 ==> a == x)
            && (i > 0 ==> a == Port(path[i - 1].node, Table(k, path[i - 1].node - 3, lid)) && 4 <= a.node <= 6)
  {
    hide RouteFrom, RingFabric, QosOk;
    var f := RingFabric(k);
    PortIn(k, ExitOf(f, x, lid, path, last, i));
    SwitchAt(k, x, lid, path, last, i + 1);
    if i > 0 {
      SwitchAt(k, x, lid, path, last, i);
    } else {
      ExitFirst(f, x, lid, path, last);
    }
  }

  /** The walks of this fabric use three channels in a cycle, but those to base LIDs do not; so no collected
      data of it has a credit loop, and the analysis calls its routes deadlock free. */
  lemma LoopMissed(db: Db, good: bool)
    requires Collected(RingFabric(TWO_LIDS), RING_PORTS, db, {}, good)
    ensures var f := RingFabric(TWO_LIDS);
            DbOk(f, db) && FabricLoop(f, RING_PORTS, {}) && !BaseLoop(f, RING_PORTS, {}) && !CreditLoop(f, db, {})
  {
    hide Collected, HasLoop, RingFabric, FabricDep, BaseDep, SinglePort, BasesStored, PortsFit, CreditLoop;
    var f := RingFabric(TWO_LIDS);
    TwoLidsNoQos();
    RingOk(TWO_LIDS);
    RingIsPlain(TWO_LIDS);
    forall n | 1 <= n <= 3 ensures FabricDep(f, RING_PORTS, {}, Dep(RingChannel(n, 0), RingChannel(Next(n), 0))) {
      TwoLidsDep(n);
    }
    RingIsLoop(FabricDeps(f, RING_PORTS, {}), 0);
    forall d | BaseDep(f, RING_PORTS, {}, d) ensures Rank(d.from) < Rank(d.to) {
      StraightRises(d);
    }
    RisingNeverLoops(BaseDeps(f, RING_PORTS, {}), Rank);
    VerdictExactOnFabric(f, RING_NUM_PORTS, [], RING_PORTS, db, false, good, {}, {});
  }

  // ---- Service level 0 ----

  /** Every channel stays what it is, but channel 0 becomes `zero`. */
  function Keeping(zero: nat): (t: seq<nat>)
    ensures |t| == MAX_SCS && forall sc :: 0 <= sc < MAX_SCS ==> t[sc] == if sc == 0 then zero else sc
  {
    [zero] + seq(MAX_SCS - 1, i requires 0 <= i => i + 1)
  }

  /** Lane 0 for every channel but 1. */
  function LanesBut(one: nat): (t: seq<nat>)
    ensures |t| == MAX_SCS && forall sc :: 0 <= sc < MAX_SCS ==> t[sc] == if sc == 1 then one else 0
  {
    seq(MAX_SCS, i requires 0 <= i => if i == 1 then one else 0)
  }

  function PlainQos(): Qos {
    Qos(Keeping(0), LanesBut(0), map[])
  }

  /** One LID per FI, all routes go round, level 1 is in use. What the tables at ports 3 of the switches,
      for egress 2, make of channel 0, and the lane of channel 1 there. */
  function OneLevelKind(zero: nat, lane: nat): Kind {
    Kind(0, Some(PlainQos()), Some(Qos(Keeping(0), LanesBut(lane), map[2 := Keeping(zero)])))
  }

  /** Channel 0 is refused, that of level 0. */
  const ZERO_REFUSED := OneLevelKind(INVALID_SC, 0)

  /** No channel is refused, but there is no lane for channel 1. */
  const LANE_REFUSED := OneLevelKind(0, INVALID_SC)

  predicate OneLevel(k: Kind) {
    k == ZERO_REFUSED || k == LANE_REFUSED
  }

  lemma OneLevelOk(k: Kind)
    requires OneLevel(k)
    ensures KindOk(k) && k.lmc == 0 && k.plain == Some(PlainQos()) && k.entry.Some?
    ensures k.entry.value.sl2sc == Keeping(0) && k.entry.value.sc2sc.Keys == {2}
    ensures forall sc :: 0 < sc < MAX_SCS ==> k.entry.value.sc2sc[2][sc] == sc
    ensures k.entry.value.sc2sc[2][0] == 0 || k.entry.value.sc2sc[2][0] == INVALID_SC
  {
  }

  /** The driver finds that level 1 is in use, on channel 1 only, and that is right. */
  lemma OneLevelUsed(k: Kind)
    requires OneLevel(k)
    ensures var f := RingFabric(k);
            && UsedIs(f, RING_NUM_PORTS, [Vf(1, None)], true, {1}, {1})
            && QosKnown(f, RING_NUM_PORTS) && PortsNumbered(f, RING_NUM_PORTS) && QosLinked(f)
            && LastClosed(f, RING_NUM_PORTS, {1})
  {
    hide RingFabric, OneLevel, LeastUsed, LastClosed;
    OneLevelOk(k);
    var f := RingFabric(k);
    forall p | p in f.ports
      ensures f.ports[p].qos.Some? && p.node in RING_NUM_PORTS && p.num <= RING_NUM_PORTS[p.node]
    {
      PortIn(k, p);
    }
    forall n | n in f.nodes ensures n in RING_NUM_PORTS {
      NodeIn(k, n);
    }
    OneLevelLeast(k);
  }

  lemma NodeIn(k: Kind, n: nat)
    ensures n in RingFabric(k).nodes ==> 1 <= n <= 6
  {
  }

  lemma OneLevelLeast(k: Kind)
    requires OneLevel(k)
    ensures LeastUsed(RingFabric(k), RING_NUM_PORTS, {1}, {}, {1}) && LastClosed(RingFabric(k), RING_NUM_PORTS, {1})
  {
    hide RingFabric, OneLevel;
    OneLevelOk(k);
    var f := RingFabric(k);
    forall p, sc | Maps(f, p, {1}, sc)
      ensures sc == 1
    {
      PortIn(k, p);
    }
    forall p: Port, e: nat, sc: nat, next: nat | Switches(f, RING_NUM_PORTS, p, e, sc, next) && sc == 1
      ensures next == 1
    {
      PortIn(k, p);
    }
    assert Closed(f, RING_NUM_PORTS, {1}) by {
      forall p, e, sc, next | Moves(f, RING_NUM_PORTS, p, e, sc, next) && sc in {1}
        ensures next in {1}
      {
        assert Switches(f, RING_NUM_PORTS, p, e, sc, next);
      }
    }
    PortIn(k, Port(1, 1));
    NodeIs(k, 1);
    assert Maps(f, Port(1, 1), {1}, 1);
  }

  lemma NodeIs(k: Kind, n: nat)
    requires 1 <= n <= 6
    ensures n in RingFabric(k).nodes && RingFabric(k).nodes[n] == NodeOf(k, n)
  {
  }

  /** The channel all along the way round is that of the level, unless it is 0 and refused. */
  lemma RoundSc(k: Kind, n: nat, sl: nat, i: nat)
    requires OneLevel(k) && 1 <= n <= 3 && sl <= 1 && i <= 3
    ensures Way(RingFabric(k), Port(n, 1), RoundLid(k, n), RoundPath(n), Port(Next(Next(n)), 1))
    ensures var f, x, lid, t := RingFabric(k), Port(n, 1), RoundLid(k, n), Port(Next(Next(n)), 1);
            && (sl == 1 || k == LANE_REFUSED ==> ScAt(f, x, lid, sl, RoundPath(n), t, i) == sl)
            && (if i == 0 then Passes(f, x, lid, sl, RoundPath(n), t, i)
                else sl == 1 || k == LANE_REFUSED ==>
                  (Passes(f, x, lid, sl, RoundPath(n), t, i) <==> !(i == 2 && k == LANE_REFUSED && sl == 1)))
  {
    hide Way, RingFabric;
    OneLevelOk(k);
    RoundExits(k, n);
    if i > 0 {
      RoundSc(k, n, sl, i - 1);
    }
    PortIn(k, Port(n, 1));
    PortIn(k, RoundPath(n)[if i == 0 then 0 else i - 1]);
  }

  /** All tables let level `sl` go round. */
  lemma RoundArrives(k: Kind, n: nat, sl: nat)
    requires OneLevel(k) && 1 <= n <= 3 && sl <= 1 && (k == ZERO_REFUSED <==> sl == 1)
    ensures CanStart(RingFabric(k), Port(n, 1))
    ensures Walk(RingFabric(k), Port(n, 1), RoundLid(k, n), sl).outcome == Arrived
  {
    hide Way, RingFabric, Walk, Passes, ScAt, OneLevelKind;
    KindsDiffer();
    OneLevelOk(k);
    RoundPathed(k, n);
    RoundExits(k, n);
    var f, x, lid, t := RingFabric(k), Port(n, 1), RoundLid(k, n), Port(Next(Next(n)), 1);
    forall j: nat | j <= |RoundPath(n)|
      ensures Passes(f, x, lid, sl, RoundPath(n), t, j)
    {
      RoundSc(k, n, sl, j);
    }
    ArrivesExact(f, x, lid, sl, RoundPath(n), t);
  }

  lemma KindsDiffer()
    ensures ZERO_REFUSED != LANE_REFUSED
  {
    assert ZERO_REFUSED.entry.value.sc2vl[1] != LANE_REFUSED.entry.value.sc2vl[1];
  }

  /** The channels of level 1 on the way round. */
  lemma RoundChannels(k: Kind, n: nat)
    requires OneLevel(k) && 1 <= n <= 3
    ensures var f, x, lid, t := RingFabric(k), Port(n, 1), RoundLid(k, n), Port(Next(Next(n)), 1);
            && Way(f, x, lid, RoundPath(n), t)
            && ChannelAt(f, x, lid, 1, {1}, RoundPath(n), t, 1) == RingChannel(n, 1)
            && ChannelAt(f, x, lid, 1, {1}, RoundPath(n), t, 2) == RingChannel(Next(n), 1)
            && Unrefused(f, x, lid, 1, {1}, RoundPath(n), t, 2)
  {
    hide Way, RingFabric, ScAt, OneLevelKind;
    OneLevelOk(k);
    RoundExits(k, n);
    RoundSc(k, n, 1, 0);
    RoundSc(k, n, 1, 1);
    RoundSc(k, n, 1, 2);
  }

  /** On any way the channel stays that of the level, unless channel 0 is refused. */
  lemma {:induction false} LevelSc(k: Kind, x: Port, lid: nat, sl: nat, path: seq<Port>, last: Port, j: nat)
    requires OneLevel(k) && x in RING_PORTS && Way(RingFabric(k), x, lid, path, last) && 2 <= lid <= 7
    requires sl <= 1 && j <= |path|
    ensures var sc := ScAt(RingFabric(k), x, lid, sl, path, last, j); sc == sl || (sl == 0 && sc == INVALID_SC)
    decreases j
  {
    hide RouteFrom, RingFabric, OneLevel;
    OneLevelOk(k);
    PortIn(k, x);
    if j > 0 {
      LevelSc(k, x, lid, sl, path, last, j - 1);
      SwitchOnWay(RingFabric(k), x, lid, path, last, j);
      PortIn(k, path[j - 1]);
    }
  }

  /** From port 3 to port 2 of a switch one of the levels does not pass. */
  lemma CrossingBlocks(k: Kind, x: Port, lid: nat, path: seq<Port>, last: Port, i: nat)
    requires OneLevel(k) && x in RING_PORTS && Way(RingFabric(k), x, lid, path, last) && 2 <= lid <= 7 && i < |path|
    requires 4 <= path[i].node <= 6 && path[i].num == 3
    requires ExitOf(RingFabric(k), x, lid, path, last, i + 1) == Port(path[i].node, 2)
    ensures k == ZERO_REFUSED ==> !Passes(RingFabric(k), x, lid, 0, path, last, i + 1)
    ensures k == LANE_REFUSED ==> !Passes(RingFabric(k), x, lid, 1, path, last, i + 1)
  {
    hide RouteFrom, RingFabric, ExitOf;
    OneLevelOk(k);
    PortIn(k, path[i]);
    LevelSc(k, x, lid, 0, path, last, i);
    LevelSc(k, x, lid, 1, path, last, i + 1);
  }

  /** Ways without such a crossing rise. */
  lemma NoCrossingRises(k: Kind, x: Port, lid: nat, path: seq<Port>, last: Port, i: nat)
    requires OneLevel(k) && x in RING_PORTS && Way(RingFabric(k), x, lid, path, last) && 2 <= lid <= 7 && i < |path|
    requires Walk(RingFabric(k), x, lid, if k == ZERO_REFUSED then 0 else 1).outcome == Arrived
    ensures var f := RingFabric(k);
            var a, b := ExitOf(f, x, lid, path, last, i), ExitOf(f, x, lid, path, last, i + 1);
            Rank(Channel(a.node, a.num, 0)) < Rank(Channel(b.node, b.num, 0))
  {
    hide Way, RingFabric, ExitOf, OneLevelKind, Passes;
    OneLevelOk(k);
    KindsDiffer();
    var f := RingFabric(k);
    ExitsAt(k, x, lid, path, last, i);
    PortIn(k, x);
    var b := ExitOf(f, x, lid, path, last, i + 1);
    if path[i].num == 3 && b.num == 2 {
      CrossingBlocks(k, x, lid, path, last, i);
      ArrivesExact(f, x, lid, if k == ZERO_REFUSED then 0 else 1, path, last);
    }
  }

  lemma LidOnRing(k: Kind, x: Port, lid: nat, path: seq<Port>, last: Port)
    requires Way(RingFabric(k), x, lid, path, last)
    ensures 2 <= lid <= 7
  {
    hide RingFabric, Way;
    LastIsOwner(RingFabric(k), x, lid, path, last);
    LidIn(k, lid);
  }

  // ---- A loop that is missed ----

  lemma ZeroBaseDep(n: nat)
    requires 1 <= n <= 3
    ensures BaseDep(RingFabric(ZERO_REFUSED), RING_PORTS, {1}, Dep(RingChannel(n, 1), RingChannel(Next(n), 1)))
  {
    hide Walk, Way, RingFabric, Pathed, Unrefused, ChannelAt, OneLevelKind;
    var k, t := ZERO_REFUSED, Port(Next(Next(n)), 1);
    OneLevelOk(k);
    RoundPathed(k, n);
    RoundArrives(k, n, 1);
    RoundChannels(k, n);
    PortIn(k, t);
    var f, x, lid, d := RingFabric(k), Port(n, 1), RoundLid(k, n), Dep(RingChannel(n, 1), RingChannel(Next(n), 1));
    assert RING_PORTS[Next(Next(n)) - 1] == t;
    assert WalkPair(f, RING_PORTS, {1}, d, x, lid, 1, RoundPath(n), t, 1);
    assert WalkDep(f, RING_PORTS, {1}, f.ports[t].lid, d);
  }

  lemma ZeroTablesRise(d: Dep)
    requires StoredDep(RingFabric(ZERO_REFUSED), RING_PORTS, {1}, d)
    ensures Rank(d.from) < Rank(d.to)
  {
    hide Way, Walk, RingFabric, ExitOf, Recordable, OneLevelKind, ScAt;
    var k, f := ZERO_REFUSED, RingFabric(ZERO_REFUSED);
    var p :| p in RING_PORTS && p in f.ports && TableDep(f, RING_PORTS, {1}, StoredLid(f.ports[p].lid), d);
    var lid := StoredLid(f.ports[p].lid);
    var x: Port, sl: nat, path: seq<Port>, last: Port, i: nat :|
      TablePair(f, RING_PORTS, {1}, d, x, lid, sl, path, last, i);
    RecordableIs(f, RING_PORTS, x, lid);
    LidOnRing(k, x, lid, path, last);
    NoCrossingRises(k, x, lid, path, last, i);
  }

  lemma RecordableIs(f: Fabric, ports: seq<Port>, x: Port, lid: nat)
    requires Recordable(f, ports, x, lid)
    ensures x in ports && CanStart(f, x) && Walk(f, x, lid, 0).outcome == Arrived
  {
  }

  /** Level 1 is in use, and its walks use three channels in a cycle. But routes are traced on level 0, which
      does not get past one ring link; so no collected data has a credit loop. */
  lemma ZeroMissed(db: Db, good: bool)
    requires Collected(RingFabric(ZERO_REFUSED), RING_PORTS, db, {1}, good)
    ensures var f := RingFabric(ZERO_REFUSED);
            && UsedIs(f, RING_NUM_PORTS, [Vf(1, None)], true, {1}, {1})
            && DbOk(f, db) && BaseLoop(f, RING_PORTS, {1}) && FabricLoop(f, RING_PORTS, {1}) && !CreditLoop(f, db, {1})
  {
    hide Collected, HasLoop, RingFabric, BaseDep, StoredDep, SinglePort, BasesStored, PortsFit, CreditLoop, UsedIs,
      OneLevelKind, QosKnown, PortsNumbered, QosLinked, LastClosed, FabricDeps, FiPort;
    var k, f := ZERO_REFUSED, RingFabric(ZERO_REFUSED);
    OneLevelOk(k);
    OneLevelUsed(k);
    RingOk(k);
    RingIsPlain(k);
    forall n | 1 <= n <= 3 ensures BaseDep(f, RING_PORTS, {1}, Dep(RingChannel(n, 1), RingChannel(Next(n), 1))) {
      ZeroBaseDep(n);
    }
    RingIsLoop(BaseDeps(f, RING_PORTS, {1}), 1);
    BaseIsFabric(f, RING_PORTS, {1});
    forall d | StoredDep(f, RING_PORTS, {1}, d) ensures Rank(d.from) < Rank(d.to) {
      ZeroTablesRise(d);
    }
    RisingNeverLoops(TableDeps(f, RING_PORTS, {1}), Rank);
    VerdictExactOnFabric(f, RING_NUM_PORTS, [Vf(1, None)], RING_PORTS, db, true, good, {1}, {1});
  }

  // ---- A false alarm ----

  lemma LaneTableDep(n: nat)
    requires 1 <= n <= 3
    ensures StoredDep(RingFabric(LANE_REFUSED), RING_PORTS, {1}, Dep(RingChannel(n, 1), RingChannel(Next(n), 1)))
  {
    hide Walk, Way, RingFabric, Pathed, Unrefused, ChannelAt, Recordable, OneLevelKind;
    var k, t := LANE_REFUSED, Port(Next(Next(n)), 1);
    KindsDiffer();
    OneLevelOk(k);
    RoundPathed(k, n);
    RoundArrives(k, n, 0);
    RoundChannels(k, n);
    PortIn(k, t);
    var f, x, lid, d := RingFabric(k), Port(n, 1), RoundLid(k, n), Dep(RingChannel(n, 1), RingChannel(Next(n), 1));
    assert RING_PORTS[Next(Next(n)) - 1] == t;
    assert TablePair(f, RING_PORTS, {1}, d, x, lid, 1, RoundPath(n), t, 1);
    assert TableDep(f, RING_PORTS, {1}, StoredLid(f.ports[t].lid), d);
  }

  lemma LaneWalksRise(d: Dep)
    requires FabricDep(RingFabric(LANE_REFUSED), RING_PORTS, {1}, d)
    ensures Rank(d.from) < Rank(d.to)
  {
    hide Way, Walk, RingFabric, ExitOf, Pathed, OneLevelKind, ScAt;
    var k, f := LANE_REFUSED, RingFabric(LANE_REFUSED);
    KindsDiffer();
    var lid: nat :| WalkDep(f, RING_PORTS, {1}, lid, d);
    var x: Port, sl: nat, path: seq<Port>, last: Port, i: nat :|
      WalkPair(f, RING_PORTS, {1}, d, x, lid, sl, path, last, i);
    PathedIn(f, RING_PORTS, x, lid);
    LidOnRing(k, x, lid, path, last);
    NoCrossingRises(k, x, lid, path, last, i);
  }

  /** Level 1 is in use, and its walks that arrive use no channels in a cycle: none gets past one ring link,
      for want of a lane. But lanes are not looked at; so all collected data has a credit loop, and the
      analysis reports a deadlock. */
  lemma FalseAlarm(db: Db, good: bool)
    requires Collected(RingFabric(LANE_REFUSED), RING_PORTS, db, {1}, good)
    ensures var f := RingFabric(LANE_REFUSED);
            && UsedIs(f, RING_NUM_PORTS, [Vf(1, None)], true, {1}, {1})
            && DbOk(f, db) && CreditLoop(f, db, {1}) && !FabricLoop(f, RING_PORTS, {1})
  {
    hide Collected, HasLoop, RingFabric, FabricDep, StoredDep, SinglePort, BasesStored, PortsFit, CreditLoop, UsedIs,
      OneLevelKind, QosKnown, PortsNumbered, QosLinked, LastClosed, FiPort;
    var k, f := LANE_REFUSED, RingFabric(LANE_REFUSED);
    OneLevelOk(k);
    OneLevelUsed(k);
    RingOk(k);
    RingIsPlain(k);
    forall n | 1 <= n <= 3 ensures StoredDep(f, RING_PORTS, {1}, Dep(RingChannel(n, 1), RingChannel(Next(n), 1))) {
      LaneTableDep(n);
    }
    RingIsLoop(TableDeps(f, RING_PORTS, {1}), 1);
    forall d | FabricDep(f, RING_PORTS, {1}, d) ensures Rank(d.from) < Rank(d.to) {
      LaneWalksRise(d);
    }
    RisingNeverLoops(FabricDeps(f, RING_PORTS, {1}), Rank);
    VerdictExactOnFabric(f, RING_NUM_PORTS, [Vf(1, None)], RING_PORTS, db, true, good, {1}, {1});
  }
}
