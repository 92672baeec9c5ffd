/** getSLSCInfo: the service levels in use, and the service channels they can turn into. */
module ServiceChannels {
  import opened Fabrics
  import opened RouteWalking

  type Scs = set<nat>

  /** A virtual fabric: its base SL and its response SL, if specified. */
  datatype Vf = Vf(slBase: nat, slResponse: Option<nat>)

  /** The value at which the scan of the end ports stops early: SCs 0 to 15 but 7, so SC 15 too. */
  const EARLY: Scs := {0, 1, 2, 3, 4, 5, 6, 8, 9, 10, 11, 12, 13, 14, 15}

  predicate IsEnd(f: Fabric, p: Port) {
    p.node in f.nodes && p in f.ports && IsEndPort(f, p)
  }

  /** End ports have QoS data, and node port counts are known. */
  ghost predicate QosKnown(f: Fabric, numPorts: map<nat, nat>) {
    && (forall p <- f.ports :: IsEnd(f, p) ==> f.ports[p].qos.Some?)
    && (forall n <- f.nodes :: n in numPorts)
  }

  /** An end port puts some used SL on `sc`. */
  predicate Maps(f: Fabric, p: Port, sls: Scs, sc: nat) {
    && IsEnd(f, p) && f.ports[p].qos.Some? && sc != INVALID_SC
    && exists sl <- sls :: sl < |f.ports[p].qos.value.sl2sc| && f.ports[p].qos.value.sl2sc[sl] == sc
  }

  /** Ingress port `p` of a switch moves `sc` to `next` on its way to egress `e`. */
  predicate Moves(f: Fabric, numPorts: map<nat, nat>, p: Port, e: nat, sc: nat, next: nat) {
    && IsNode(f, p.node, SW) && p.num != 0 && p in f.ports && f.ports[p].qos.Some?
    && p.node in numPorts && e < numPorts[p.node] && next != INVALID_SC
    && var q := f.ports[p].qos.value;
       e in q.sc2sc && sc < |q.sc2sc[e]| && q.sc2sc[e][sc] == next
  }

  ghost predicate Closed(f: Fabric, numPorts: map<nat, nat>, s: Scs) {
    forall p, e, sc, next {:trigger Moves(f, numPorts, p, e, sc, next)} ::
      Moves(f, numPorts, p, e, sc, next) && sc in s ==> next in s
  }

  ghost predicate HasImages(f: Fabric, sls: Scs, s: Scs) {
    forall p, sc {:trigger Maps(f, p, sls, sc)} :: Maps(f, p, sls, sc) ==> sc in s
  }

  /** `s` holds nothing that a closed set around `base` need not hold. */
  ghost predicate Needed(f: Fabric, numPorts: map<nat, nat>, base: Scs, s: Scs) {
    forall t {:trigger Closed(f, numPorts, t)} :: base <= t && Closed(f, numPorts, t) ==> s <= t
  }

  /** The least set that holds `start` and every image of a used SL and is closed under the tables. */
  ghost predicate LeastUsed(f: Fabric, numPorts: map<nat, nat>, sls: Scs, start: Scs, s: Scs) {
    && start <= s && HasImages(f, sls, s) && Closed(f, numPorts, s)
    && forall t {:trigger Closed(f, numPorts, t)} ::
         start <= t && HasImages(f, sls, t) && Closed(f, numPorts, t) ==> s <= t
  }

  lemma LeastUsedUnique(f: Fabric, numPorts: map<nat, nat>, sls: Scs, start: Scs, s: Scs, t: Scs)
    requires LeastUsed(f, numPorts, sls, start, s) && LeastUsed(f, numPorts, sls, start, t)
    ensures s == t
  {
    assert s <= t;
    assert t <= s;
  }

  /** Channel 15 is never found. */
  lemma InvalidUnused(f: Fabric, numPorts: map<nat, nat>, sls: Scs, s: Scs)
    requires LeastUsed(f, numPorts, sls, {}, s)
    ensures INVALID_SC !in s
  {
    var t := s - {INVALID_SC};
    assert HasImages(f, sls, t) && Closed(f, numPorts, t);
  }

  // ---- What the set holds ----

  /** The egress tables of a switch are numbered 0 to the number of its ports; the scan leaves out the
      last one. */
  predicate Switches(f: Fabric, numPorts: map<nat, nat>, p: Port, e: nat, sc: nat, next: nat) {
    && IsNode(f, p.node, SW) && p.num != 0 && p in f.ports && f.ports[p].qos.Some?
    && p.node in numPorts && e <= numPorts[p.node] && next != INVALID_SC
    && var q := f.ports[p].qos.value;
       e in q.sc2sc && sc < |q.sc2sc[e]| && q.sc2sc[e][sc] == next
  }

  /** No table for the last egress port of a switch leads out of `s`. */
  ghost predicate LastClosed(f: Fabric, numPorts: map<nat, nat>, s: Scs) {
    forall p: Port, sc, next {:trigger Switches(f, numPorts, p, numPorts[p.node], sc, next)} ::
      p.node in numPorts && Switches(f, numPorts, p, numPorts[p.node], sc, next) && sc in s ==> next in s
  }

  /** A way of a packet of a used SL: from end port `p` by the tables `way` to the channels `scs`. */
  ghost predicate ScWay(f: Fabric, numPorts: map<nat, nat>, sls: Scs, p: Port, way: seq<(Port, nat)>, scs: seq<nat>) {
    && |scs| == |way| + 1 && Maps(f, p, sls, scs[0])
    && forall i {:trigger way[i]} :: 0 <= i < |way| ==>
         Switches(f, numPorts, way[i].0, way[i].1, scs[i], scs[i + 1])
  }

  lemma {:induction false} WayStaysUsed(f: Fabric, numPorts: map<nat, nat>, sls: Scs, s: Scs, p: Port,
                                        way: seq<(Port, nat)>, scs: seq<nat>)
    requires HasImages(f, sls, s) && Closed(f, numPorts, s) && LastClosed(f, numPorts, s)
    requires ScWay(f, numPorts, sls, p, way, scs)
    ensures scs[|way|] in s
    decreases |way|
  {
    if way != [] {
      var n := |way| - 1;
      WayStaysUsed(f, numPorts, sls, s, p, way[..n], scs[..n + 1]);
      var (q, e) := way[n];
      assert Switches(f, numPorts, q, e, scs[n], scs[n + 1]);
      if e < numPorts[q.node] {
        assert Moves(f, numPorts, q, e, scs[n], scs[n + 1]);
      }
    }
  }

  ghost predicate HasWay(f: Fabric, numPorts: map<nat, nat>, sls: Scs, sc: nat) {
    exists p, way: seq<(Port, nat)>, scs: seq<nat> :: ScWay(f, numPorts, sls, p, way, scs) && scs[|way|] == sc
  }

  lemma WayGoesOn(f: Fabric, numPorts: map<nat, nat>, sls: Scs, sc: nat, q: Port, e: nat, next: nat)
    requires HasWay(f, numPorts, sls, sc) && Switches(f, numPorts, q, e, sc, next)
    ensures HasWay(f, numPorts, sls, next)
  {
    var p, way: seq<(Port, nat)>, scs: seq<nat> :| ScWay(f, numPorts, sls, p, way, scs) && scs[|way|] == sc;
    var way', scs' := way + [(q, e)], scs + [next];
    forall i | 0 <= i < |way'|
      ensures Switches(f, numPorts, way'[i].0, way'[i].1, scs'[i], scs'[i + 1])
    {
      assert i < |way| ==> Switches(f, numPorts, way[i].0, way[i].1, scs[i], scs[i + 1]);
    }
    assert ScWay(f, numPorts, sls, p, way', scs') && scs'[|way'|] == next;
  }

  /** Nothing is in the least set without a way. */
  lemma UsedHasWay(f: Fabric, numPorts: map<nat, nat>, sls: Scs, s: Scs, sc: nat)
    requires LeastUsed(f, numPorts, sls, {}, s) && sc in s
    ensures HasWay(f, numPorts, sls, sc)
  {
    ghost var t := set x | x in s && HasWay(f, numPorts, sls, x);
    forall p, x | Maps(f, p, sls, x)
      ensures x in t
    {
      assert ScWay(f, numPorts, sls, p, [], [x]);
    }
    forall p, e, x, next | Moves(f, numPorts, p, e, x, next) && x in t
      ensures next in t
    {
      WayGoesOn(f, numPorts, sls, x, p, e, next);
    }
    assert HasImages(f, sls, t) && Closed(f, numPorts, t);
    assert s <= t;
  }

  /** The set holds every channel that a packet of a used SL can be switched to, on a way of any length,
      if and only if no table for a last egress port leads out of it. */
  lemma UsedExact(f: Fabric, numPorts: map<nat, nat>, sls: Scs, s: Scs)
    requires LeastUsed(f, numPorts, sls, {}, s)
    ensures (forall sc :: HasWay(f, numPorts, sls, sc) ==> sc in s) <==> LastClosed(f, numPorts, s)
  {
    if LastClosed(f, numPorts, s) {
      forall sc | HasWay(f, numPorts, sls, sc)
        ensures sc in s
      {
        var p, way: seq<(Port, nat)>, scs: seq<nat> :| ScWay(f, numPorts, sls, p, way, scs) && scs[|way|] == sc;
        WayStaysUsed(f, numPorts, sls, s, p, way, scs);
      }
    }
    if forall sc :: HasWay(f, numPorts, sls, sc) ==> sc in s {
      forall p: Port, sc, next | p.node in numPorts && Switches(f, numPorts, p, numPorts[p.node], sc, next) && sc in s
        ensures next in s
      {
        UsedHasWay(f, numPorts, sls, s, sc);
        WayGoesOn(f, numPorts, sls, sc, p, numPorts[p.node], next);
      }
    }
  }

  /** Switch ports are numbered up to the port count of their node. */
  ghost predicate PortsNumbered(f: Fabric, numPorts: map<nat, nat>) {
    forall p <- f.ports :: IsNode(f, p.node, SW) ==> p.node in numPorts && p.num <= numPorts[p.node]
  }

  /** So every channel a packet of a used SL takes on a route of the fabric is in the set. */
  lemma {:induction false} PacketsStayUsed(f: Fabric, numPorts: map<nat, nat>, sls: Scs, s: Scs, start: Port, dlid: nat,
                                           sl: nat, path: seq<Port>, last: Port, i: nat)
    requires HasImages(f, sls, s) && Closed(f, numPorts, s) && LastClosed(f, numPorts, s)
    requires QosKnown(f, numPorts) && PortsNumbered(f, numPorts)
    requires RouteFrom(f, start, dlid, path, last) && !IsSwitch(f, start) && sl in sls && sl < MAX_SLS && i <= |path|
    ensures var lane := LaneAt(f, start, dlid, sl, path, last, i); lane.Lane? ==> lane.sc in s && lane.sc != INVALID_SC
  {
    FirstLaneInRange(f, start, sl);
    assert path[..0] == [];
    if i == 0 {
      assert IsEnd(f, start);
      assert LaneAt(f, start, dlid, sl, path, last, 0) == FirstLane(f.ports[start], sl);
      assert FirstLane(f.ports[start], sl).Lane? ==> Maps(f, start, sls, FirstLane(f.ports[start], sl).sc);
    } else {
      PacketsStayUsed(f, numPorts, sls, s, start, dlid, sl, path, last, i - 1);
      LaneAtNext(f, start, dlid, sl, path, last, i - 1);
      var lane := LaneAt(f, start, dlid, sl, path, last, i - 1);
      if lane.Lane? {
        LaneStaysUsed(f, numPorts, s, path[i - 1], Exit(f, path[i - 1], dlid), lane.sc, lane.vl);
        assert !Stops(f, path[i - 1], i - 1 == 0);
      }
    }
  }

  lemma LaneStaysUsed(f: Fabric, numPorts: map<nat, nat>, s: Scs, entry: Port, exit: Port, sc: nat, vl: nat)
    requires Closed(f, numPorts, s) && LastClosed(f, numPorts, s) && PortsNumbered(f, numPorts)
    requires entry in f.ports && exit in f.ports && entry.node == exit.node && PortOk(f, entry) && sc in s
    requires sc < MAX_SCS
    requires sc != INVALID_SC
    ensures var lane := NextLane(f, entry, exit, sc, vl);
            IsSwitch(f, entry) && lane.Lane? ==> lane.sc in s && lane.sc != INVALID_SC
  {
    var lane := NextLane(f, entry, exit, sc, vl);
    if IsSwitch(f, entry) && lane.Lane? && lane != Lane(sc, vl) {
      assert Switches(f, numPorts, entry, exit.num, sc, lane.sc);
      assert exit.num < numPorts[exit.node] ==> Moves(f, numPorts, entry, exit.num, sc, lane.sc);
    }
  }

  // The last egress port matters: an FI (node 1) and an FI (node 3) on the two ports of a switch, whose
  // first port turns channel 0 into channel 1 on the way to the second.

  function Plain(sc: nat): seq<nat>
    requires sc < MAX_SCS
  {
    seq(MAX_SCS, _ => sc)
  }

  const PLAIN_VLS: seq<nat> := seq(MAX_SCS, _ => 0)

  const LAST_EGRESS_FABRIC := Fabric(
    map[1 := Node(FI, false, NopMode, None), 3 := Node(FI, false, NopMode, None),
        2 := Node(SW, true, LinearMode, Some([0xff, 0xff, 0xff, 2]))],
    map[Port(1, 1) := PortInfo(Some(Port(2, 1)), 1, 0, true, Some(Qos(Plain(0), PLAIN_VLS, map[]))),
        Port(3, 1) := PortInfo(Some(Port(2, 2)), 3, 0, true, Some(Qos(Plain(0), PLAIN_VLS, map[]))),
        Port(2, 1) := PortInfo(Some(Port(1, 1)), 0, 0, true, Some(Qos(Plain(0), PLAIN_VLS, map[2 := Plain(1)]))),
        Port(2, 2) := PortInfo(Some(Port(3, 1)), 0, 0, true, Some(Qos(Plain(0), PLAIN_VLS, map[])))],
    map[1 := Port(1, 1), 3 := Port(3, 1)])

  const LAST_EGRESS_PORTS: map<nat, nat> := map[1 := 1, 2 := 2, 3 := 1]

  lemma LastEgressRegistered(p: Port, lid: nat)
    ensures Registered(LAST_EGRESS_FABRIC, p, lid)
  {
    hide Plain;
    assert Pow2(0) == 1;
  }

  lemma LastEgressPort(p: Port)
    requires p in LAST_EGRESS_FABRIC.ports
    ensures var f := LAST_EGRESS_FABRIC;
            && PortOk(f, p) && f.ports[p].qos.Some? && p.node in LAST_EGRESS_PORTS && p.num <= LAST_EGRESS_PORTS[p.node]
  {
    assert p == Port(1, 1) || p == Port(3, 1) || p == Port(2, 1) || p == Port(2, 2);
    assert QosOk(LAST_EGRESS_FABRIC.ports[p].qos.value);
  }

  lemma LastEgressOk()
    ensures FabricOk(LAST_EGRESS_FABRIC) && QosKnown(LAST_EGRESS_FABRIC, LAST_EGRESS_PORTS)
    ensures PortsNumbered(LAST_EGRESS_FABRIC, LAST_EGRESS_PORTS)
  {
    hide Registered, PortOk, Plain;
    var f := LAST_EGRESS_FABRIC;
    forall p | p in f.ports
      ensures PortOk(f, p) && f.ports[p].qos.Some? && p.node in LAST_EGRESS_PORTS && p.num <= LAST_EGRESS_PORTS[p.node]
    {
      LastEgressPort(p);
    }
    forall p, lid: nat
      ensures Registered(f, p, lid)
    {
      LastEgressRegistered(p, lid);
    }
  }

  /** With SL 0 in use the set is {0}, but the packet from node 1 to node 3 leaves the switch on channel
      1. */
  lemma LastEgressMissed()
    ensures var f := LAST_EGRESS_FABRIC;
            && FabricOk(f) && LeastUsed(f, LAST_EGRESS_PORTS, {0}, {}, {0})
            && RouteFrom(f, Port(1, 1), 3, [Port(2, 1)], Port(3, 1))
            && LaneAt(f, Port(1, 1), 3, 0, [Port(2, 1)], Port(3, 1), 1) == Lane(1, 0)
  {
    var f, path := LAST_EGRESS_FABRIC, [Port(2, 1)];
    LastEgressOk();
    assert Maps(f, Port(1, 1), {0}, 0);
    assert HasImages(f, {0}, {0}) && Closed(f, LAST_EGRESS_PORTS, {0});
    assert Pow2(0) == 1;
    assert LookupRoute(f, 2, 3) == Some(Port(2, 2));
    assert Exit(f, Port(2, 1), 3) == Port(2, 2) && After(path, Port(3, 1), 0) == Port(3, 1);
    assert RouteFrom(f, Port(1, 1), 3, path, Port(3, 1));
    LaneAtNext(f, Port(1, 1), 3, 0, path, Port(3, 1), 0);
    assert path[..0] == [];
    assert LaneAt(f, Port(1, 1), 3, 0, path, Port(3, 1), 0) == Lane(0, 0);
  }

  // ---- The computation ----

  predicate IsSc(x: nat) {
    x < MAX_SCS
  }

  ghost function AllScs(): Scs {
    set x: nat {:trigger IsSc(x)} | x < MAX_SCS && IsSc(x)
  }

  /** The base SLs of the virtual fabrics, and their response SLs where one is specified. */
  method UsedSls(vfs: seq<Vf>, start: Scs) returns (sls: Scs)
    ensures forall sl :: sl in sls <==> sl in start || exists vf <- vfs :: vf.slBase == sl || vf.slResponse == Some(sl)
  {
    sls := start;
    var i := 0;
    while i < |vfs|
      invariant 0 <= i <= |vfs|
      invariant forall sl ::
                  sl in sls <==> sl in start || exists vf <- vfs[..i] :: vf.slBase == sl || vf.slResponse == Some(sl)
    {
      assert vfs[..i + 1] == vfs[..i] + [vfs[i]];
      sls := sls + {vfs[i].slBase};
      if vfs[i].slResponse.Some? {
        sls := sls + {vfs[i].slResponse.value};
      }
      i := i + 1;
    }
    assert vfs[..i] == vfs;
  }

  /** What has been added to `start` are images of used SLs. */
  ghost predicate AddedImages(f: Fabric, sls: Scs, start: Scs, s: Scs) {
    && start <= s <= AllScs()
    && forall sc <- s :: sc in start || exists p {:trigger Maps(f, p, sls, sc)} :: Maps(f, p, sls, sc)
  }

  ghost predicate PortImages(f: Fabric, sls: Scs, s: Scs, p: Port) {
    forall sc {:trigger Maps(f, p, sls, sc)} :: Maps(f, p, sls, sc) ==> sc in s
  }

  method ScanEnd(f: Fabric, p: Port, sls: Scs, start: Scs, ghost origin: Scs) returns (s: Scs)
    requires FabricOk(f) && IsEnd(f, p) && f.ports[p].qos.Some? && AddedImages(f, sls, origin, start)
    ensures start <= s && AddedImages(f, sls, origin, s) && PortImages(f, sls, s, p)
  {
    assert PortOk(f, p);
    var map0 := f.ports[p].qos.value.sl2sc;
    s := start;
    var sl := 0;
    while sl < MAX_SLS
      invariant 0 <= sl <= MAX_SLS && start <= s && AddedImages(f, sls, origin, s)
      invariant forall l <- sls :: l < sl && map0[l] != INVALID_SC ==> map0[l] in s
    {
      if sl in sls {
        var sc := map0[sl];
        if sc != INVALID_SC {
          assert Maps(f, p, sls, sc);
          s := s + {sc};
        }
      }
      sl := sl + 1;
    }
  }

  method ScanEnds(f: Fabric, l: Lists, numPorts: map<nat, nat>, sls: Scs, start: Scs) returns (s: Scs)
    requires FabricOk(f) && ListsOk(f, l) && QosKnown(f, numPorts) && start <= AllScs()
    ensures AddedImages(f, sls, start, s)
    ensures INVALID_SC !in start ==> HasImages(f, sls, s)
  {
    s := start;
    var i := 0;
    while i < |l.nodes| && s != EARLY
      invariant 0 <= i <= |l.nodes| && AddedImages(f, sls, start, s)
      invariant forall p: Port {:trigger PortImages(f, sls, s, p)} ::
                  p in f.ports && p.node in l.nodes[..i] ==> PortImages(f, sls, s, p)
      decreases |l.nodes| - i
    {
      var n := l.nodes[i];
      var ports := l.ports[n];
      var j := 0;
      while j < |ports|
        invariant 0 <= j <= |ports| && AddedImages(f, sls, start, s)
        invariant forall p: Port {:trigger PortImages(f, sls, s, p)} ::
                    (p in f.ports && p.node in l.nodes[..i]) || p in ports[..j] ==> PortImages(f, sls, s, p)
      {
        var p := ports[j];
        ghost var before := s;
        if f.nodes[n].kind == SW && p.num != 0 {
          assert PortImages(f, sls, s, p);
        } else {
          s := ScanEnd(f, p, sls, s, start);
        }
        ImagesKept(f, sls, before, s);
        j := j + 1;
      }
      i := i + 1;
    }
    if INVALID_SC !in start {
      assert INVALID_SC in EARLY && INVALID_SC !in s;
      forall p, sc | Maps(f, p, sls, sc)
        ensures sc in s
      {
        assert PortImages(f, sls, s, p);
      }
    }
  }

  lemma ImagesKept(f: Fabric, sls: Scs, s: Scs, t: Scs)
    requires s <= t
    ensures forall p {:trigger PortImages(f, sls, t, p)} :: PortImages(f, sls, s, p) ==> PortImages(f, sls, t, p)
  {
  }

  /** The images of `s` under egress tables below `bound` of ingress `p` are in `t`. */
  ghost predicate PortMoved(f: Fabric, numPorts: map<nat, nat>, p: Port, bound: nat, s: Scs, t: Scs) {
    forall e: nat, sc, next {:trigger Moves(f, numPorts, p, e, sc, next)} ::
      e < bound && Moves(f, numPorts, p, e, sc, next) && sc in s ==> next in t
  }

  ghost predicate Grown(f: Fabric, numPorts: map<nat, nat>, start: Scs, s: Scs) {
    start <= s <= AllScs() && Needed(f, numPorts, start, s)
  }

  lemma GrownMore(f: Fabric, numPorts: map<nat, nat>, a: Scs, b: Scs, c: Scs)
    requires Grown(f, numPorts, a, b) && Grown(f, numPorts, b, c)
    ensures Grown(f, numPorts, a, c)
  {
  }

  /** The scan of the SCs in use: the set may grow behind and ahead of the scan. */
  method ScanTable(f: Fabric, numPorts: map<nat, nat>, p: Port, e: nat, start: Scs) returns (s: Scs)
    requires FabricOk(f) && p in f.ports && IsNode(f, p.node, SW) && p.num != 0 && start <= AllScs()
    requires p.node in numPorts && e < numPorts[p.node]
    ensures Grown(f, numPorts, start, s)
    ensures forall sc, next :: Moves(f, numPorts, p, e, sc, next) && sc in start ==> next in s
  {
    assert PortOk(f, p);
    s := start;
    var sc := 0;
    while exists x <- s :: x >= sc
      invariant Grown(f, numPorts, start, s)
      invariant forall x: nat, next :: x < sc && Moves(f, numPorts, p, e, x, next) && x in start ==> next in s
      decreases MAX_SCS - sc
    {
      assert sc < MAX_SCS;
      if sc in s {
        var q := f.ports[p].qos;
        if q.Some? && e in q.value.sc2sc {
          var next := q.value.sc2sc[e][sc];
          if next != INVALID_SC {
            assert Moves(f, numPorts, p, e, sc, next);
            s := s + {next};
          }
        }
      }
      sc := sc + 1;
    }
  }

  method ScanIngress(f: Fabric, numPorts: map<nat, nat>, p: Port, start: Scs) returns (s: Scs)
    requires FabricOk(f) && p in f.ports && IsNode(f, p.node, SW) && p.num != 0 && start <= AllScs()
    requires p.node in numPorts
    ensures Grown(f, numPorts, start, s)
    ensures PortMoved(f, numPorts, p, numPorts[p.node], start, s)
  {
    s := start;
    var e := 0;
    while e < numPorts[p.node]
      invariant 0 <= e <= numPorts[p.node]
      invariant Grown(f, numPorts, start, s) && PortMoved(f, numPorts, p, e, start, s)
    {
      var next := ScanTable(f, numPorts, p, e, s);
      GrownMore(f, numPorts, start, s, next);
      s := next;
      e := e + 1;
    }
  }

  ghost predicate PortClosed(f: Fabric, numPorts: map<nat, nat>, p: Port, s: Scs, t: Scs) {
    p.num != 0 && IsNode(f, p.node, SW) && p.node in numPorts ==> PortMoved(f, numPorts, p, numPorts[p.node], s, t)
  }

  method Pass(f: Fabric, l: Lists, numPorts: map<nat, nat>, start: Scs) returns (s: Scs)
    requires FabricOk(f) && ListsOk(f, l) && QosKnown(f, numPorts) && start <= AllScs()
    ensures Grown(f, numPorts, start, s)
    ensures s == start ==> Closed(f, numPorts, s)
  {
    s := start;
    var i := 0;
    while i < |l.switches|
      invariant 0 <= i <= |l.switches| && Grown(f, numPorts, start, s)
      invariant forall p: Port {:trigger PortClosed(f, numPorts, p, start, s)} ::
                  p in f.ports && p.node in l.switches[..i] ==> PortClosed(f, numPorts, p, start, s)
    {
      var n := l.switches[i];
      assert IsNode(f, n, SW);
      var ports := l.ports[n];
      var j := 0;
      while j < |ports|
        invariant 0 <= j <= |ports| && Grown(f, numPorts, start, s)
        invariant forall p: Port {:trigger PortClosed(f, numPorts, p, start, s)} ::
                    (p in f.ports && p.node in l.switches[..i]) || p in ports[..j] ==>
                      PortClosed(f, numPorts, p, start, s)
      {
        var p := ports[j];
        ghost var before := s;
        if p.num != 0 {
          var next := ScanIngress(f, numPorts, p, s);
          GrownMore(f, numPorts, start, s, next);
          s := next;
        }
        ClosedKept(f, numPorts, start, before, s);
        j := j + 1;
      }
      i := i + 1;
    }
    if s == start {
      forall p, e, sc, next | Moves(f, numPorts, p, e, sc, next) && sc in s
        ensures next in s
      {
        assert PortClosed(f, numPorts, p, start, s);
      }
    }
  }

  lemma ClosedKept(f: Fabric, numPorts: map<nat, nat>, start: Scs, s: Scs, t: Scs)
    requires s <= t
    ensures forall p {:trigger PortClosed(f, numPorts, p, start, t)} ::
              PortClosed(f, numPorts, p, start, s) ==> PortClosed(f, numPorts, p, start, t)
  {
  }

  /** `usedSCs` None asks for the SLs only. The scan of the end ports is cut short only if the caller
      passes SC 15 in. */
  method GetSLSCInfo(f: Fabric, l: Lists, numPorts: map<nat, nat>, vfs: seq<Vf>, startSLs: Scs, startSCs: Option<Scs>)
    returns (sls: Scs, scs: Option<Scs>)
    requires FabricOk(f) && ListsOk(f, l) && QosKnown(f, numPorts)
    requires startSCs.Some? ==> startSCs.value <= AllScs()
    ensures forall sl ::
              sl in sls <==> sl in startSLs || exists vf <- vfs :: vf.slBase == sl || vf.slResponse == Some(sl)
    ensures startSCs == None ==> scs == None
    ensures startSCs.Some? ==>
              && scs.Some? && startSCs.value <= scs.value <= AllScs() && Closed(f, numPorts, scs.value)
              && (INVALID_SC !in startSCs.value ==> LeastUsed(f, numPorts, sls, startSCs.value, scs.value))
  {
    sls := UsedSls(vfs, startSLs);
    if startSCs == None {
      return sls, None;
    }
    var s := ScanEnds(f, l, numPorts, sls, startSCs.value);
    ghost var base := s;
    var save := s;
    s := Pass(f, l, numPorts, save);
    ghost var rest := AllScs() - save;
    while s != save
      invariant save <= s && Grown(f, numPorts, base, s)
      invariant s == save ==> Closed(f, numPorts, s)
      invariant rest == AllScs() - save
      decreases rest
    {
      save := s;
      rest := AllScs() - save;
      s := Pass(f, l, numPorts, save);
      GrownMore(f, numPorts, base, save, s);
    }
    scs := Some(s);
  }
}
