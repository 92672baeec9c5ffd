/** The fabric as route analysis sees it: nodes, ports, links, forwarding tables and the LID map. */
module Fabrics {

  datatype Option<+T> = None | Some(value: T)

  /** Identity of a port record: the node and the port number it is filed under. */
  datatype Port = Port(node: nat, num: nat)

  datatype NodeType = FI | SW

  datatype RoutingMode = NopMode | LinearMode | OtherMode

  /** `hasSwitchData` is the switch record, `fdb` its linear forwarding table. */
  datatype Node = Node(kind: NodeType, hasSwitchData: bool, mode: RoutingMode, fdb: Option<seq<nat>>)

  /** SL to SC, SC to VL, and per egress port an SC to SC table. */
  datatype Qos = Qos(sl2sc: seq<nat>, sc2vl: seq<nat>, sc2sc: map<nat, seq<nat>>)

  datatype PortInfo = PortInfo(neighbor: Option<Port>, lid: nat, lmc: nat, initialized: bool, qos: Option<Qos>)

  datatype Fabric = Fabric(nodes: map<nat, Node>, ports: map<Port, PortInfo>, lidMap: map<nat, Port>)

  const NO_ROUTE := 0xff
  const INVALID_SC := 15
  const MAX_SCS := 32
  const MAX_SLS := 32

  function Pow2(n: nat): nat
    ensures Pow2(n) > 0
  {
    if n == 0 then 1 else 2 * Pow2(n - 1)
  }

  predicate IsSwitch(f: Fabric, p: Port)
    requires p.node in f.nodes
  {
    f.nodes[p.node].kind == SW
  }

  /** The LID range of a port: its base LID, aligned to 2^LMC, and the 2^LMC - 1 LIDs after it. */
  predicate Holds(f: Fabric, p: Port, lid: nat)
    requires p in f.ports
  {
    f.ports[p].lid <= lid < f.ports[p].lid + Pow2(f.ports[p].lmc)
  }

  /** Where a route can end: a port of an FI, or port 0 of a switch. */
  predicate IsEndPort(f: Fabric, p: Port)
    requires p.node in f.nodes
  {
    !IsSwitch(f, p) || p.num == 0
  }

  /** A table of service channels. */
  predicate ScTable(t: seq<nat>, n: nat) {
    |t| == n && forall i :: 0 <= i < n ==> t[i] < MAX_SCS
  }

  predicate QosOk(q: Qos) {
    && ScTable(q.sl2sc, MAX_SLS) && |q.sc2vl| == MAX_SCS
    && forall e <- q.sc2sc :: ScTable(q.sc2sc[e], MAX_SCS)
  }

  predicate PortOk(f: Fabric, p: Port)
    requires p in f.ports
  {
    var info := f.ports[p];
    && p.node in f.nodes
    && (info.qos.Some? ==> QosOk(info.qos.value))
    && (info.neighbor.Some? ==>
          && !(IsSwitch(f, p) && p.num == 0)
          && info.neighbor.value != p && info.neighbor.value in f.ports
          && f.ports[info.neighbor.value].neighbor == Some(p))
  }

  /** Links are symmetric, irreflexive and never at port 0 of a switch, tables have their full size, and
      every end port is registered under each of its LIDs. */
  ghost predicate FabricOk(f: Fabric) {
    && (forall p {:trigger PortOk(f, p)} :: p in f.ports ==> PortOk(f, p))
    && (forall p, lid {:trigger Registered(f, p, lid)} :: Registered(f, p, lid))
  }

  predicate Registered(f: Fabric, p: Port, lid: nat) {
    p in f.ports && p.node in f.nodes && IsEndPort(f, p) && lid != 0 && Holds(f, p, lid) ==>
      lid in f.lidMap && f.lidMap[lid] == p
  }

  lemma Neighbor(f: Fabric, p: Port)
    requires FabricOk(f) && p in f.ports
    ensures PortOk(f, p)
    ensures f.ports[p].neighbor.Some? ==>
              var q := f.ports[p].neighbor.value;
              && q in f.ports && PortOk(f, q) && q != p && f.ports[q].neighbor == Some(p)
  {
    assert PortOk(f, p);
    if f.ports[p].neighbor.Some? {
      assert PortOk(f, f.ports[p].neighbor.value);
    }
  }

  /** The far end of the link at `p`, if any. */
  function Peer(f: Fabric, p: Port): Option<Port> {
    if p in f.ports then f.ports[p].neighbor else None
  }

  /** A LID belongs to at most one end port. */
  lemma LidOwner(f: Fabric, p: Port, q: Port, lid: nat)
    requires FabricOk(f) && p in f.ports && q in f.ports && p.node in f.nodes && q.node in f.nodes
    requires IsEndPort(f, p) && IsEndPort(f, q) && lid != 0 && Holds(f, p, lid) && Holds(f, q, lid)
    ensures p == q
  {
    assert Registered(f, p, lid) && Registered(f, q, lid);
  }

  // ---- Lists ----

  predicate IsNode(f: Fabric, n: nat, kind: NodeType) {
    n in f.nodes && f.nodes[n].kind == kind
  }

  /** The lists the analyses run over: all nodes, FIs, switches, and the ports of each node. */
  datatype Lists = Lists(nodes: seq<nat>, fis: seq<nat>, switches: seq<nat>, ports: map<nat, seq<Port>>)

  ghost predicate ListsOk(f: Fabric, l: Lists) {
    && (forall n :: n in l.nodes <==> n in f.nodes)
    && (forall n :: n in l.fis <==> IsNode(f, n, FI))
    && (forall n :: n in l.switches <==> IsNode(f, n, SW))
    && l.ports.Keys == f.nodes.Keys
    && (forall n <- l.ports :: forall p :: p in l.ports[n] <==> p in f.ports && p.node == n)
  }

  // ---- Forwarding ----

  /** Whether a switch has the tables the walk needs. */
  predicate HasTables(n: Node) {
    n.hasSwitchData && (n.fdb.None? ==> n.mode == OtherMode)
  }

  /** The exit port of a switch for a destination LID. The entry port, service channel and virtual
      lane play no part. */
  function LookupRoute(f: Fabric, node: nat, dlid: nat): (r: Option<Port>)
    requires node in f.nodes && HasTables(f.nodes[node])
    ensures r.Some? ==> r.value in f.ports && r.value.node == node
  {
    if dlid == 0 then None else
    var n := f.nodes[node];
    var portNum :=
      if n.mode == LinearMode && dlid < |n.fdb.value| then n.fdb.value[dlid] else NO_ROUTE;
    if portNum == NO_ROUTE then None else
    var p := Port(node, portNum);
    if p !in f.ports || !f.ports[p].initialized || (portNum != 0 && f.ports[p].neighbor.None?) then None
    else Some(p)
  }

  /** The entry port of the next device: switch port 0 is its own, otherwise the far end of the link. */
  function NextEntry(f: Fabric, exit: Port): Option<Port>
    requires exit in f.ports
  {
    if exit.num == 0 then Some(exit) else f.ports[exit].neighbor
  }
}
