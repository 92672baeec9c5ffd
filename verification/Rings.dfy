/** Small fabrics: three switches in a ring, each with an FI. */
module RingFabrics {
  import opened Fabrics
  import opened RouteWalking
  import opened CreditRoutes
  import opened GraphViews
  import opened RouteGraphs
  import opened RouteRetrace
  import opened Splitting
  import opened FabricWalks
  import opened FabricLoops

  // The switches are nodes 4, 5, 6, with port 2 of each linked to port 3 of the next; on port 1 of each is
  // an FI, nodes 1, 2, 3, with base LIDs 2, 4, 6. With LMC 0 all routes go round by port 2. With LMC 1
  // routes to the base LIDs go straight to the switch of the destination, and only those to the second
  // LIDs, 3, 5, 7, go round. `plain` are the tables of all ports but those numbered 3 of the switches.

  datatype Kind = Kind(lmc: nat, plain: Option<Qos>, entry: Option<Qos>)

  predicate KindOk(k: Kind) {
    && k.lmc <= 1 && (k.plain.Some? ==> QosOk(k.plain.value)) && (k.entry.Some? ==> QosOk(k.entry.value))
    && (k.plain.Some? <==> k.entry.Some?)
  }

  function Next(n: nat): nat {
    if n == 3 then 1 else n + 1
  }

  /** The exit port of the switch of FI `n` for a LID of FI `lid / 2`. */
  function Table(k: Kind, n: nat, lid: nat): nat {
    if lid < 2 then NO_ROUTE else if lid / 2 == n then 1
    else if k.lmc == 0 || lid % 2 == 1 || lid / 2 == Next(n) then 2 else 3
  }

  function NodeOf(k: Kind, n: nat): Node {
    if n <= 3 then Node(FI, false, NopMode, None)
    else Node(SW, true, LinearMode, Some(seq(8, lid requires 0 <= lid < 8 => Table(k, n - 3, lid))))
  }

  function FarEnd(n: nat, num: nat): Port {
    if num == 1 then Port(n, 1) else if num == 2 then Port(Next(n) + 3, 3) else Port(Next(Next(n)) + 3, 2)
  }

  function InfoOf(k: Kind, p: Port): PortInfo {
    if p.node <= 3 then PortInfo(Some(Port(p.node + 3, 1)), 2 * p.node, k.lmc, true, k.plain)
    else PortInfo(Some(FarEnd(p.node - 3, p.num)), 0, 0, true, if p.num == 3 then k.entry else k.plain)
  }

  const ALL_PORTS := {Port(1, 1), Port(2, 1), Port(3, 1), Port(4, 1), Port(4, 2), Port(4, 3),
                      Port(5, 1), Port(5, 2), Port(5, 3), Port(6, 1), Port(6, 2), Port(6, 3)}

  predicate HasOwner(k: Kind, lid: nat) {
    2 <= lid <= 7 && (k.lmc == 1 || lid % 2 == 0)
  }

  function RingFabric(k: Kind): Fabric {
    Fabric(map n: nat | 1 <= n <= 6 :: NodeOf(k, n), map p <- ALL_PORTS :: InfoOf(k, p),
           map lid: nat | 2 <= lid <= 7 && HasOwner(k, lid) :: Port(lid / 2, 1))
  }

  const RING_PORTS := [Port(1, 1), Port(2, 1), Port(3, 1)]

  const RING_NUM_PORTS: map<nat, nat> := map[1 := 1, 2 := 1, 3 := 1, 4 := 3, 5 := 3, 6 := 3]

  lemma PortIn(k: Kind, p: Port)
    ensures var f := RingFabric(k);
            && (p in f.ports <==> (1 <= p.node <= 3 && p.num == 1) || (4 <= p.node <= 6 && 1 <= p.num <= 3))
            && (p in f.ports ==>
                  f.ports[p] == InfoOf(k, p) && p.node in f.nodes && f.nodes[p.node] == NodeOf(k, p.node))
  {
  }

  lemma LidIn(k: Kind, lid: nat)
    ensures lid in RingFabric(k).lidMap <==> HasOwner(k, lid)
    ensures lid in RingFabric(k).lidMap ==> RingFabric(k).lidMap[lid] == Port(lid / 2, 1)
  {
  }

  lemma RingPortOk(k: Kind, p: Port)
    requires KindOk(k) && p in RingFabric(k).ports
    ensures PortOk(RingFabric(k), p) && p.num < MAX_CONNECTIONS
  {
    hide RingFabric, QosOk;
    PortIn(k, p);
    PortIn(k, InfoOf(k, p).neighbor.value);
  }

  lemma RingRegistered(k: Kind, p: Port, lid: nat)
    requires KindOk(k)
    ensures Registered(RingFabric(k), p, lid)
  {
    hide RingFabric, QosOk;
    PortIn(k, p);
    LidIn(k, lid);
    assert Pow2(0) == 1 && Pow2(1) == 2;
  }

  lemma RingOk(k: Kind)
    requires KindOk(k)
    ensures FabricOk(RingFabric(k)) && PortsFit(RingFabric(k))
  {
    hide RingFabric, KindOk, PortOk, Registered;
    forall p | p in RingFabric(k).ports ensures PortOk(RingFabric(k), p) && p.num < MAX_CONNECTIONS {
      RingPortOk(k, p);
    }
    forall p, lid: nat ensures Registered(RingFabric(k), p, lid) {
      RingRegistered(k, p, lid);
    }
  }

  /** Each FI has one port, base LIDs fit 16 bits, and analysis may start at the FI ports. */
  lemma RingIsPlain(k: Kind)
    requires KindOk(k)
    ensures SinglePort(RingFabric(k)) && BasesStored(RingFabric(k), RING_PORTS)
    ensures forall p <- RING_PORTS :: FiPort(RingFabric(k), p)
  {
    hide RingFabric, QosOk;
    var f := RingFabric(k);
    RingOk(k);
    forall l, m | l in f.lidMap && m in f.lidMap && f.lidMap[l].node == f.lidMap[m].node
      ensures f.lidMap[l] == f.lidMap[m]
    {
      LidIn(k, l);
      LidIn(k, m);
    }
    forall p | p in RING_PORTS
      ensures FiPort(f, p) && StoredLid(f.ports[p].lid) == f.ports[p].lid
    {
      PortIn(k, p);
    }
  }

  /** Where a switch sends a LID. */
  lemma RingRoute(k: Kind, n: nat, lid: nat)
    requires 1 <= n <= 3 && 2 <= lid <= 7
    ensures var f := RingFabric(k);
            && n + 3 in f.nodes && HasTables(f.nodes[n + 3])
            && LookupRoute(f, n + 3, lid) == Some(Port(n + 3, Table(k, n, lid)))
  {
    hide RingFabric;
    PortIn(k, Port(n + 3, Table(k, n, lid)));
  }

  // ---- The way round ----

  /** By port 2 of the switch of FI `n`. */
  function RingChannel(n: nat, sc: nat): Channel {
    Channel(n + 3, 2, sc)
  }

  /** The way from FI `n` to the FI after the next one, by two ring links. */
  function RoundPath(n: nat): seq<Port> {
    [Port(n + 3, 1), Port(Next(n) + 3, 3), Port(Next(Next(n)) + 3, 3)]
  }

  /** The LID of that FI which is routed so. */
  function RoundLid(k: Kind, n: nat): nat {
    2 * Next(Next(n)) + k.lmc
  }

  /** One crossing of a switch. */
  lemma RingHop(k: Kind, p: Port, lid: nat)
    requires 4 <= p.node <= 6 && p in RingFabric(k).ports && 2 <= lid <= 7
    ensures var f := RingFabric(k); var x := Port(p.node, Table(k, p.node - 3, lid));
            && Forwards(f, p, lid) && Exit(f, p, lid) == x && IsSwitch(f, p)
            && NextEntry(f, x) == Some(FarEnd(p.node - 3, x.num))
  {
    hide RingFabric;
    PortIn(k, p);
    RingRoute(k, p.node - 3, lid);
    PortIn(k, Port(p.node, Table(k, p.node - 3, lid)));
  }

  lemma RoundTrail(k: Kind, n: nat)
    requires KindOk(k) && 1 <= n <= 3
    ensures Trail(RingFabric(k), RoundLid(k, n), RoundPath(n), Port(Next(Next(n)), 1)) && AllDistinct(RoundPath(n))
  {
    hide RingFabric, LookupRoute, Exit, NextEntry, Forwards, QosOk;
    var f, path, lid, t := RingFabric(k), RoundPath(n), RoundLid(k, n), Port(Next(Next(n)), 1);
    forall i | 0 <= i < 3
      ensures path[i] in f.ports && path[i].node in f.nodes && IsSwitch(f, path[i]) && path[i].num != 0
      ensures Forwards(f, path[i], lid)
      ensures NextEntry(f, Exit(f, path[i], lid)) == Some(After(path, t, i))
    {
      PortIn(k, path[i]);
      RingHop(k, path[i], lid);
    }
    PortIn(k, t);
  }

  lemma RoundRoute(k: Kind, n: nat)
    requires KindOk(k) && 1 <= n <= 3
    ensures Way(RingFabric(k), Port(n, 1), RoundLid(k, n), RoundPath(n), Port(Next(Next(n)), 1))
  {
    hide RingFabric, Trail, AllDistinct, KindOk;
    RingOk(k);
    RoundTrail(k, n);
    assert Pow2(0) == 1 && Pow2(1) == 2;
    assert k.lmc <= 1 by {
      LmcSmall(k);
    }
    PortIn(k, Port(n, 1));
    PortIn(k, Port(Next(Next(n)), 1));
  }

  lemma LmcSmall(k: Kind)
    requires KindOk(k)
    ensures k.lmc <= 1
  {
  }

  lemma RoundPathed(k: Kind, n: nat)
    requires KindOk(k) && 1 <= n <= 3
    ensures var f := RingFabric(k);
            && CanStart(f, Port(n, 1)) && Pathed(f, RING_PORTS, Port(n, 1), RoundLid(k, n))
            && (Walk(f, Port(n, 1), RoundLid(k, n), 0).outcome == Arrived ==>
                  Recordable(f, RING_PORTS, Port(n, 1), RoundLid(k, n)))
  {
    hide Walk, RingFabric, QosOk;
    var f, x, t := RingFabric(k), Port(n, 1), Port(Next(Next(n)), 1);
    RingOk(k);
    PortIn(k, x);
    PortIn(k, t);
    assert Pow2(0) == 1 && Pow2(1) == 2;
    assert RING_PORTS[n - 1] == x && RING_PORTS[Next(Next(n)) - 1] == t;
    assert Walk(f, x, RoundLid(k, n), 0).outcome == Arrived ==> PathTo(f, x, t, RoundLid(k, n));
  }

  /** Any switch on a way. */
  lemma SwitchAt(k: Kind, x: Port, lid: nat, path: seq<Port>, last: Port, i: nat)
    requires Way(RingFabric(k), x, lid, path, last) && 2 <= lid <= 7 && 0 < i <= |path|
    ensures 4 <= path[i - 1].node <= 6 && 1 <= path[i - 1].num <= 3
    ensures ExitOf(RingFabric(k), x, lid, path, last, i) == Port(path[i - 1].node, Table(k, path[i - 1].node - 3, lid))
  {
    hide RouteFrom, RingFabric;
    SwitchOnWay(RingFabric(k), x, lid, path, last, i);
    PortIn(k, path[i - 1]);
    RingRoute(k, path[i - 1].node - 3, lid);
  }

  /** The exits of the way round. */
  lemma RoundExits(k: Kind, n: nat)
    requires KindOk(k) && 1 <= n <= 3
    ensures var f, x, lid, t := RingFabric(k), Port(n, 1), RoundLid(k, n), Port(Next(Next(n)), 1);
            && Way(f, x, lid, RoundPath(n), t)
            && ExitOf(f, x, lid, RoundPath(n), t, 0) == x
            && ExitOf(f, x, lid, RoundPath(n), t, 1) == Port(n + 3, 2)
            && ExitOf(f, x, lid, RoundPath(n), t, 2) == Port(Next(n) + 3, 2)
            && ExitOf(f, x, lid, RoundPath(n), t, 3) == Port(Next(Next(n)) + 3, 1)
  {
    hide Way, RingFabric, QosOk;
    var f, x, lid, t := RingFabric(k), Port(n, 1), RoundLid(k, n), Port(Next(Next(n)), 1);
    RoundRoute(k, n);
    SwitchAt(k, x, lid, RoundPath(n), t, 1);
    SwitchAt(k, x, lid, RoundPath(n), t, 2);
    SwitchAt(k, x, lid, RoundPath(n), t, 3);
    ExitFirst(f, x, lid, RoundPath(n), t);
  }

  lemma ExitFirst(f: Fabric, x: Port, lid: nat, path: seq<Port>, last: Port)
    requires Way(f, x, lid, path, last)
    ensures ExitOf(f, x, lid, path, last, 0) == x
  {
  }

  /** A ring of dependencies between the channels of the ring links is a loop. */
  lemma RingIsLoop(deps: iset<Dep>, sc: nat)
    requires forall n :: 1 <= n <= 3 ==> Dep(RingChannel(n, sc), RingChannel(Next(n), sc)) in deps
    ensures HasLoop(deps)
  {
    var cs := [RingChannel(1, sc), RingChannel(2, sc), RingChannel(3, sc), RingChannel(1, sc)];
    forall i | 0 <= i && i + 1 < |cs|
      ensures DepAt(cs, i) in deps
    {
      assert DepAt(cs, i) == Dep(RingChannel(i + 1, sc), RingChannel(Next(i + 1), sc));
    }
    assert RingIn(deps, cs);
  }

  /** An FI, a ring link, the link of an FI. */
  function Rank(c: Channel): nat {
    if c.node <= 3 then 0 else if c.port == 1 then 2 else 1
  }
}
