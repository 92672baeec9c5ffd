/** CLGetRoute: replay a traced route and record its connections and forwarding entries. */
module CreditRoutes {
  import opened Fabrics
  import opened RouteWalking

  const MAX_CONNECTIONS := 66

  /** Index of a connection in its device: egress port and service channel. */
  datatype Slot = Slot(num: nat, sc: nat)

  datatype Conn = Conn(from: Port, to: Port)

  datatype Device = Device(lid: nat, connections: map<Slot, Conn>, routes: map<nat, Port>)

  /** The credit-loop data of the fabric, by node. */
  datatype Db = Db(devices: map<nat, Device>, fis: seq<nat>, switches: seq<nat>,
                   connectionCount: nat, routeCount: nat)

  // ---- Recording ----

  function AddDevice(f: Fabric, db: Db, node: nat, lid: nat): Db
    requires node in f.nodes
  {
    if node in db.devices then db else
    var added := db.(devices := db.devices[node := Device(lid, map[], map[])]);
    if f.nodes[node].kind == FI then added.(fis := db.fis + [node])
    else added.(switches := db.switches + [node])
  }

  /** Fails for an unknown device, a port number out of range, or a different existing connection. */
  function AddConnection(db: Db, from: Port, to: Port, sc: nat): (Db, bool) {
    if from.node !in db.devices || from.num >= MAX_CONNECTIONS then (db, false) else
    var d := db.devices[from.node];
    var slot := Slot(from.num, sc);
    if slot in d.connections then (db, d.connections[slot] == Conn(from, to))
    else (db.(devices := db.devices[from.node := d.(connections := d.connections[slot := Conn(from, to)])],
              connectionCount := db.connectionCount + 1), true)
  }

  /** Fails for an unknown device or a different existing route. */
  function AddRoute(db: Db, dlid: nat, exit: Port): (Db, bool) {
    if exit.node !in db.devices then (db, false) else
    var d := db.devices[exit.node];
    if dlid in d.routes then (db, d.routes[dlid] == exit)
    else (db.(devices := db.devices[exit.node := d.(routes := d.routes[dlid := exit])],
              routeCount := db.routeCount + 1), true)
  }

  /** Both directions of a link. */
  function AddLink(db: Db, from: Port, to: Port, sc: nat): (Db, bool) {
    var (db1, ok) := AddConnection(db, from, to, sc);
    if ok then AddConnection(db1, to, from, sc) else (db1, false)
  }

  /** The links of the used service channels below `n`, in order. */
  function AddLinks(db: Db, from: Port, to: Port, used: set<nat>, n: nat): (Db, bool) {
    if n == 0 then (db, true) else
    var (db1, ok) := AddLinks(db, from, to, used, n - 1);
    if ok && n - 1 in used then AddLink(db1, from, to, n - 1) else (db1, ok)
  }

  /** What the replay records for one link of the route. */
  function AddHop(f: Fabric, db: Db, from: Port, to: Port, used: set<nat>, dlid: nat): (Db, bool)
    requires from in f.ports
  {
    var (db1, ok) := if used != {} && f.ports[from].qos.Some? then AddLinks(db, from, to, used, MAX_SCS)
                     else AddLink(db, from, to, 0);
    if ok then AddRoute(db1, dlid, from) else (db1, false)
  }

  // ---- The invariant of the recorded data ----

  /** A node answers for a LID: the end port registered for it is one of its ports. */
  predicate HasLid(f: Fabric, node: nat, lid: nat) {
    && lid != 0 && lid in f.lidMap && f.lidMap[lid] in f.ports && f.lidMap[lid].node == node
    && Holds(f, f.lidMap[lid], lid)
  }

  ghost predicate LeadsTo(f: Fabric, p: Port, dlid: nat)
    requires FabricOk(f)
  {
    p in f.ports && p.node in f.nodes && exists n: nat :: n <= MAX_HOPS && Delivered(f, p, dlid, false, n)
  }

  predicate DeviceOk(f: Fabric, db: Db, node: nat)
    requires node in db.devices
  {
    node in f.nodes && (f.nodes[node].kind == FI ==> HasLid(f, node, db.devices[node].lid) && node in db.fis)
  }

  /** A recorded connection is a link of the fabric between recorded devices. */
  predicate ConnectionOk(f: Fabric, db: Db, node: nat, slot: Slot)
    requires node in db.devices && slot in db.devices[node].connections
  {
    var c := db.devices[node].connections[slot];
    && c.from == Port(node, slot.num) && slot.num < MAX_CONNECTIONS
    && c.from in f.ports && f.ports[c.from].neighbor == Some(c.to) && c.to.node in db.devices
  }

  /** A recorded route leaves by a linked port, agrees with the forwarding table of a switch, and
      leads to the destination LID. */
  ghost predicate RouteOk(f: Fabric, db: Db, node: nat, dlid: nat)
    requires FabricOk(f) && node in db.devices && dlid in db.devices[node].routes
  {
    var x := db.devices[node].routes[dlid];
    && dlid != 0 && x.node == node && x in f.ports && x.num < MAX_CONNECTIONS && node in f.nodes
    && f.ports[x].neighbor.Some? && f.ports[x].neighbor.value.node in db.devices
    && (f.nodes[node].kind == SW ==> HasTables(f.nodes[node]) && LookupRoute(f, node, dlid) == Some(x))
    && LeadsTo(f, f.ports[x].neighbor.value, dlid)
  }

  /** The connections recorded, each by its device and its slot there. */
  function ConnectionKeys(db: Db): set<(nat, Slot)> {
    set n, s | n in db.devices && s in db.devices[n].connections :: (n, s)
  }

  /** The routes recorded, each by its device and its destination LID. */
  function RouteKeys(db: Db): set<(nat, nat)> {
    set n, d | n in db.devices && d in db.devices[n].routes :: (n, d)
  }

  /** The two counters are right. */
  predicate CountsOk(db: Db) {
    db.connectionCount == |ConnectionKeys(db)| && db.routeCount == |RouteKeys(db)|
  }

  lemma DeviceCounted(f: Fabric, db: Db, node: nat, lid: nat)
    requires CountsOk(db) && node in f.nodes
    ensures CountsOk(AddDevice(f, db, node, lid))
  {
    var r := AddDevice(f, db, node, lid);
    assert ConnectionKeys(r) == ConnectionKeys(db);
    assert RouteKeys(r) == RouteKeys(db);
  }

  lemma ConnectionCounted(db: Db, from: Port, to: Port, sc: nat)
    requires CountsOk(db)
    ensures CountsOk(AddConnection(db, from, to, sc).0)
  {
    hide ConnectionKeys, RouteKeys;
    var r := AddConnection(db, from, to, sc).0;
    if r != db {
      OneConnectionMore(db, from, to, sc);
    }
  }

  lemma OneConnectionMore(db: Db, from: Port, to: Port, sc: nat)
    requires var r := AddConnection(db, from, to, sc).0; r != db
    ensures var r, key := AddConnection(db, from, to, sc).0, (from.node, Slot(from.num, sc));
            && key !in ConnectionKeys(db) && ConnectionKeys(r) == ConnectionKeys(db) + {key}
            && RouteKeys(r) == RouteKeys(db)
  {
    var r := AddConnection(db, from, to, sc).0;
    assert r.devices.Keys == db.devices.Keys;
    forall n | n in db.devices
      ensures r.devices[n].routes == db.devices[n].routes
      ensures r.devices[n].connections.Keys
              == db.devices[n].connections.Keys + (if n == from.node then {Slot(from.num, sc)} else {})
    {
    }
    hide AddConnection;
  }

  lemma RouteCounted(db: Db, dlid: nat, exit: Port)
    requires CountsOk(db)
    ensures CountsOk(AddRoute(db, dlid, exit).0)
  {
    hide ConnectionKeys, RouteKeys;
    var r := AddRoute(db, dlid, exit).0;
    if r != db {
      OneRouteMore(db, dlid, exit);
    }
  }

  lemma OneRouteMore(db: Db, dlid: nat, exit: Port)
    requires var r := AddRoute(db, dlid, exit).0; r != db
    ensures var r, key := AddRoute(db, dlid, exit).0, (exit.node, dlid);
            && key !in RouteKeys(db) && RouteKeys(r) == RouteKeys(db) + {key}
            && ConnectionKeys(r) == ConnectionKeys(db)
  {
    var r := AddRoute(db, dlid, exit).0;
    assert r.devices.Keys == db.devices.Keys;
    forall n | n in db.devices
      ensures r.devices[n].connections == db.devices[n].connections
      ensures r.devices[n].routes.Keys == db.devices[n].routes.Keys + (if n == exit.node then {dlid} else {})
    {
    }
    hide AddRoute;
  }

  ghost predicate DbOk(f: Fabric, db: Db) {
    && FabricOk(f) && CountsOk(db)
    && (forall n {:trigger DeviceOk(f, db, n)} :: n in db.devices ==> DeviceOk(f, db, n))
    && (forall n, slot {:trigger ConnectionOk(f, db, n, slot)} ::
          n in db.devices && slot in db.devices[n].connections ==> ConnectionOk(f, db, n, slot))
    && (forall n, dlid {:trigger RouteOk(f, db, n, dlid)} ::
          n in db.devices && dlid in db.devices[n].routes ==> RouteOk(f, db, n, dlid))
    && (forall n <- db.fis :: n in db.devices && n in f.nodes && f.nodes[n].kind == FI)
    && (forall i, j :: 0 <= i < j < |db.fis| ==> db.fis[i] != db.fis[j])
  }

  const NO_DATA := Db(map[], [], [], 0, 0)

  lemma NoDataOk(f: Fabric)
    requires FabricOk(f)
    ensures DbOk(f, NO_DATA)
  {
  }

  /** `db'` only adds to `db`. */
  predicate Grows(db: Db, db': Db) {
    && db.devices.Keys <= db'.devices.Keys
    && (forall n <- db.devices :: forall dlid <- db.devices[n].routes ::
          dlid in db'.devices[n].routes && db'.devices[n].routes[dlid] == db.devices[n].routes[dlid])
  }

  lemma AddDeviceOk(f: Fabric, db: Db, node: nat, lid: nat)
    requires DbOk(f, db) && node in f.nodes
    requires f.nodes[node].kind == FI ==> node in db.devices || HasLid(f, node, lid)
    ensures DbOk(f, AddDevice(f, db, node, lid)) && Grows(db, AddDevice(f, db, node, lid))
    ensures node in AddDevice(f, db, node, lid).devices
  {
    hide CountsOk;
    DeviceCounted(f, db, node, lid);
    var r := AddDevice(f, db, node, lid);
    if node !in db.devices {
      forall n | n in r.devices ensures DeviceOk(f, r, n) {
        assert n != node ==> DeviceOk(f, db, n);
      }
      forall n, slot | n in r.devices && slot in r.devices[n].connections ensures ConnectionOk(f, r, n, slot) {
        assert ConnectionOk(f, db, n, slot);
      }
      forall n, dlid | n in r.devices && dlid in r.devices[n].routes ensures RouteOk(f, r, n, dlid) {
        assert RouteOk(f, db, n, dlid);
      }
    }
  }

  /** Recording the connection of a link keeps the invariant and fails only for a port number out of
      range: a link never disagrees with what is recorded. */
  lemma AddConnectionOk(f: Fabric, db: Db, from: Port, to: Port, sc: nat)
    requires DbOk(f, db) && from in f.ports && f.ports[from].neighbor == Some(to)
    requires from.node in db.devices && to.node in db.devices
    ensures var (r, ok) := AddConnection(db, from, to, sc);
            && DbOk(f, r) && Grows(db, r) && r.devices.Keys == db.devices.Keys
            && (ok <==> from.num < MAX_CONNECTIONS)
            && (forall n <- db.devices :: r.devices[n].routes == db.devices[n].routes)
  {
    hide CountsOk;
    ConnectionCounted(db, from, to, sc);
    var (r, ok) := AddConnection(db, from, to, sc);
    var slot := Slot(from.num, sc);
    if slot in db.devices[from.node].connections {
      assert ConnectionOk(f, db, from.node, slot);
    } else if ok {
      forall n | n in r.devices ensures DeviceOk(f, r, n) {
        assert DeviceOk(f, db, n);
      }
      forall n, s | n in r.devices && s in r.devices[n].connections ensures ConnectionOk(f, r, n, s) {
        assert (n != from.node || s != slot) ==> ConnectionOk(f, db, n, s);
      }
      forall n, dlid | n in r.devices && dlid in r.devices[n].routes ensures RouteOk(f, r, n, dlid) {
        assert RouteOk(f, db, n, dlid);
      }
    }
  }

  /** Recording a route keeps the invariant; it fails exactly when the device already leaves for that
      destination by another port. */
  lemma AddRouteOk(f: Fabric, db: Db, dlid: nat, exit: Port)
    requires DbOk(f, db) && dlid != 0 && exit in f.ports && exit.node in f.nodes && exit.num < MAX_CONNECTIONS
    requires exit.node in db.devices && f.ports[exit].neighbor.Some?
    requires f.ports[exit].neighbor.value.node in db.devices
    requires f.nodes[exit.node].kind == SW ==>
               HasTables(f.nodes[exit.node]) && LookupRoute(f, exit.node, dlid) == Some(exit)
    requires LeadsTo(f, f.ports[exit].neighbor.value, dlid)
    ensures var (r, ok) := AddRoute(db, dlid, exit);
            && DbOk(f, r) && Grows(db, r) && r.devices.Keys == db.devices.Keys
            && (ok <==> dlid in db.devices[exit.node].routes ==> db.devices[exit.node].routes[dlid] == exit)
            && (f.nodes[exit.node].kind == SW ==> ok)
            && (ok ==> dlid in r.devices[exit.node].routes && r.devices[exit.node].routes[dlid] == exit)
            && (forall n <- db.devices :: n != exit.node ==> r.devices[n].routes == db.devices[n].routes)
  {
    hide CountsOk;
    RouteCounted(db, dlid, exit);
    var (r, ok) := AddRoute(db, dlid, exit);
    if dlid in db.devices[exit.node].routes {
      assert RouteOk(f, db, exit.node, dlid);
    } else {
      forall n | n in r.devices ensures DeviceOk(f, r, n) {
        assert DeviceOk(f, db, n);
      }
      forall n, s | n in r.devices && s in r.devices[n].connections ensures ConnectionOk(f, r, n, s) {
        assert ConnectionOk(f, db, n, s);
      }
      forall n, d | n in r.devices && d in r.devices[n].routes ensures RouteOk(f, r, n, d) {
        assert (n != exit.node || d != dlid) ==> RouteOk(f, db, n, d);
      }
    }
  }

  predicate LinkFits(from: Port, to: Port) {
    from.num < MAX_CONNECTIONS && to.num < MAX_CONNECTIONS
  }

  lemma AddLinkOk(f: Fabric, db: Db, from: Port, to: Port, sc: nat)
    requires DbOk(f, db) && from in f.ports && f.ports[from].neighbor == Some(to)
    requires from.node in db.devices && to.node in db.devices
    ensures var (r, ok) := AddLink(db, from, to, sc);
            && DbOk(f, r) && Grows(db, r) && r.devices.Keys == db.devices.Keys
            && (ok <==> LinkFits(from, to))
            && (forall n <- db.devices :: r.devices[n].routes == db.devices[n].routes)
  {
    hide DbOk;
    Linked(f, db, from);
    AddConnectionOk(f, db, from, to, sc);
    var (db1, ok) := AddConnection(db, from, to, sc);
    if ok {
      AddConnectionOk(f, db1, to, from, sc);
    }
  }

  lemma Linked(f: Fabric, db: Db, p: Port)
    requires DbOk(f, db) && p in f.ports
    ensures PortOk(f, p)
  {
    Neighbor(f, p);
  }

  lemma {:induction false} AddLinksOk(f: Fabric, db: Db, from: Port, to: Port, used: set<nat>, n: nat)
    requires DbOk(f, db) && from in f.ports && f.ports[from].neighbor == Some(to)
    requires from.node in db.devices && to.node in db.devices
    ensures var (r, ok) := AddLinks(db, from, to, used, n);
            && DbOk(f, r) && Grows(db, r) && r.devices.Keys == db.devices.Keys
            && (LinkFits(from, to) ==> ok)
            && (ok && (exists sc <- used :: sc < n) ==> LinkFits(from, to))
            && (forall m <- db.devices :: r.devices[m].routes == db.devices[m].routes)
  {
    hide DbOk, Grows, AddLink;
    if n == 0 {
      GrowsSelf(db);
    } else {
      AddLinksOk(f, db, from, to, used, n - 1);
      var (db1, ok) := AddLinks(db, from, to, used, n - 1);
      if ok && n - 1 in used {
        AddLinkOk(f, db1, from, to, n - 1);
        GrowsTwice(db, db1, AddLink(db1, from, to, n - 1).0);
      }
    }
  }

  /** Recording one link of a delivered route: succeeds when the port numbers fit and, at the FI the
      route starts from, no other port is recorded for the destination. */
  lemma AddHopOk(f: Fabric, db: Db, from: Port, to: Port, used: set<nat>, dlid: nat)
    requires DbOk(f, db) && from in f.ports && from.node in f.nodes && f.ports[from].neighbor == Some(to)
    requires from.node in db.devices && to.node in db.devices && (forall sc <- used :: sc < MAX_SCS)
    requires f.nodes[from.node].kind == SW ==>
               HasTables(f.nodes[from.node]) && LookupRoute(f, from.node, dlid) == Some(from)
    requires LeadsTo(f, to, dlid) && dlid != 0
    ensures var (r, ok) := AddHop(f, db, from, to, used, dlid);
            && DbOk(f, r) && Grows(db, r) && r.devices.Keys == db.devices.Keys
            && (ok <==> LinkFits(from, to)
                        && (dlid in db.devices[from.node].routes ==> db.devices[from.node].routes[dlid] == from))
            && (LinkFits(from, to) && f.nodes[from.node].kind == SW ==> ok)
            && (ok ==> dlid in r.devices[from.node].routes && r.devices[from.node].routes[dlid] == from)
            && (forall n <- db.devices :: n != from.node ==> r.devices[n].routes == db.devices[n].routes)
  {
    hide DbOk;
    var (db1, ok) := if used != {} && f.ports[from].qos.Some? then AddLinks(db, from, to, used, MAX_SCS)
                     else AddLink(db, from, to, 0);
    if used != {} && f.ports[from].qos.Some? {
      AddLinksOk(f, db, from, to, used, MAX_SCS);
      var sc :| sc in used;
      assert sc < MAX_SCS;
    } else {
      AddLinkOk(f, db, from, to, 0);
    }
    if ok {
      AddRouteOk(f, db1, dlid, from);
    }
  }

  // ---- Every route has its connections ----

  /** The service channels for which a hop that leaves by `p` is recorded: those in use, or only channel
      0 if service channels are ignored or unknown. */
  function SlotScs(f: Fabric, p: Port, used: set<nat>): set<nat> {
    if used != {} && p in f.ports && f.ports[p].qos.Some? then used else {0}
  }

  predicate LinkWired(f: Fabric, d: Device, p: Port, used: set<nat>) {
    forall sc <- SlotScs(f, p, used) :: Slot(p.num, sc) in d.connections
  }

  predicate RouteWired(f: Fabric, db: Db, used: set<nat>, n: nat, dlid: nat)
    requires n in db.devices && dlid in db.devices[n].routes
  {
    LinkWired(f, db.devices[n], db.devices[n].routes[dlid], used)
  }

  /** Connections of `p` are recorded for the channels of one of the two ends of its link. */
  predicate SlotUsed(f: Fabric, used: set<nat>, p: Port, sc: nat) {
    sc in SlotScs(f, p, used)
    || (p in f.ports && f.ports[p].neighbor.Some? && sc in SlotScs(f, f.ports[p].neighbor.value, used))
  }

  ghost predicate Slotted(f: Fabric, db: Db, used: set<nat>) {
    forall n, slot {:trigger SlotUsed(f, used, Port(n, slot.num), slot.sc)} ::
      n in db.devices && slot in db.devices[n].connections ==> SlotUsed(f, used, Port(n, slot.num), slot.sc)
  }

  /** Every recorded route leaves by a recorded connection, on every service channel in use, and no
      connection is recorded on another. */
  ghost predicate Wired(f: Fabric, db: Db, used: set<nat>) {
    && (forall n, dlid {:trigger RouteWired(f, db, used, n, dlid)} ::
          n in db.devices && dlid in db.devices[n].routes ==> RouteWired(f, db, used, n, dlid))
    && Slotted(f, db, used)
  }

  lemma NoDataWired(f: Fabric, used: set<nat>)
    ensures Wired(f, NO_DATA, used)
  {
  }

  /** `db'` has the routes of `db` and at least its connections. */
  predicate MoreWires(db: Db, db': Db) {
    && db'.devices.Keys == db.devices.Keys
    && forall n <- db.devices ::
         db'.devices[n].routes == db.devices[n].routes
           && db.devices[n].connections.Keys <= db'.devices[n].connections.Keys
  }

  /** The only new connections of `db'` are those between `from` and `to` on channels `scs`. */
  predicate NewSlots(db: Db, db': Db, from: Port, to: Port, scs: set<nat>) {
    forall n <- db'.devices :: forall slot <- db'.devices[n].connections ::
      (n in db.devices && slot in db.devices[n].connections)
      || (slot.sc in scs && (Port(n, slot.num) == from || Port(n, slot.num) == to))
  }

  lemma SlottedMore(f: Fabric, db: Db, db': Db, used: set<nat>, from: Port, to: Port)
    requires Slotted(f, db, used) && NewSlots(db, db', from, to, SlotScs(f, from, used))
    requires to in f.ports && f.ports[to].neighbor == Some(from)
    ensures Slotted(f, db', used)
  {
    hide SlotScs;
    forall n, slot | n in db'.devices && slot in db'.devices[n].connections
      ensures SlotUsed(f, used, Port(n, slot.num), slot.sc)
    {
      assert n in db.devices && slot in db.devices[n].connections ==> SlotUsed(f, used, Port(n, slot.num), slot.sc);
    }
  }

  lemma WiredMore(f: Fabric, db: Db, db': Db, used: set<nat>)
    requires Wired(f, db, used) && MoreWires(db, db') && Slotted(f, db', used)
    ensures Wired(f, db', used)
  {
    hide Slotted;
    forall n, dlid | n in db'.devices && dlid in db'.devices[n].routes
      ensures RouteWired(f, db', used, n, dlid)
    {
      assert RouteWired(f, db, used, n, dlid);
    }
  }

  lemma WiredDevice(f: Fabric, db: Db, used: set<nat>, node: nat, lid: nat)
    requires node in f.nodes && Wired(f, db, used)
    ensures Wired(f, AddDevice(f, db, node, lid), used)
  {
    var r := AddDevice(f, db, node, lid);
    forall n, dlid | n in r.devices && dlid in r.devices[n].routes
      ensures RouteWired(f, r, used, n, dlid)
    {
      assert RouteWired(f, db, used, n, dlid);
    }
    forall n, slot | n in r.devices && slot in r.devices[n].connections
      ensures SlotUsed(f, used, Port(n, slot.num), slot.sc)
    {
      assert n in db.devices && slot in db.devices[n].connections;
    }
  }

  lemma ConnectionWires(db: Db, from: Port, to: Port, sc: nat)
    ensures var (r, ok) := AddConnection(db, from, to, sc);
            MoreWires(db, r) && (ok ==>
              from.node in r.devices && Slot(from.num, sc) in r.devices[from.node].connections)
  {
  }

  lemma ConnectionSlots(db: Db, from: Port, to: Port, sc: nat)
    ensures NewSlots(db, AddConnection(db, from, to, sc).0, from, to, {sc})
  {
  }

  lemma NewSlotsTwice(a: Db, b: Db, c: Db, from: Port, to: Port, scs: set<nat>, more: set<nat>, all: set<nat>)
    requires NewSlots(a, b, from, to, scs) && scs + more <= all
    requires NewSlots(b, c, from, to, more) || NewSlots(b, c, to, from, more)
    ensures NewSlots(a, c, from, to, all)
  {
  }

  lemma LinkSlots(db: Db, from: Port, to: Port, sc: nat)
    ensures NewSlots(db, AddLink(db, from, to, sc).0, from, to, {sc})
  {
    hide NewSlots, AddConnection;
    var r := AddConnection(db, from, to, sc).0;
    ConnectionSlots(db, from, to, sc);
    ConnectionSlots(r, to, from, sc);
    NewSlotsTwice(db, r, AddConnection(r, to, from, sc).0, from, to, {sc}, {sc}, {sc});
  }

  lemma NoNewSlots(db: Db, from: Port, to: Port, scs: set<nat>)
    ensures NewSlots(db, db, from, to, scs)
  {
  }

  lemma {:induction false} LinksSlots(db: Db, from: Port, to: Port, used: set<nat>, n: nat)
    ensures NewSlots(db, AddLinks(db, from, to, used, n).0, from, to, used)
  {
    hide NewSlots, AddLink;
    NoNewSlots(db, from, to, used);
    if n > 0 {
      LinksSlots(db, from, to, used, n - 1);
      var r := AddLinks(db, from, to, used, n - 1).0;
      if n - 1 in used {
        LinkSlots(r, from, to, n - 1);
        NewSlotsTwice(db, r, AddLink(r, from, to, n - 1).0, from, to, used, {n - 1}, used);
      }
    }
  }

  lemma LinkWires(db: Db, from: Port, to: Port, sc: nat)
    ensures var (r, ok) := AddLink(db, from, to, sc);
            MoreWires(db, r) && (ok ==>
              from.node in r.devices && Slot(from.num, sc) in r.devices[from.node].connections)
  {
    hide AddConnection;
    ConnectionWires(db, from, to, sc);
    ConnectionWires(AddConnection(db, from, to, sc).0, to, from, sc);
  }

  lemma {:induction false} LinksWire(db: Db, from: Port, to: Port, used: set<nat>, n: nat)
    ensures var (r, ok) := AddLinks(db, from, to, used, n);
            && MoreWires(db, r)
            && (ok ==> forall sc <- used :: sc < n ==>
                         from.node in r.devices && Slot(from.num, sc) in r.devices[from.node].connections)
  {
    hide AddLink;
    if n > 0 {
      LinksWire(db, from, to, used, n - 1);
      LinkWires(AddLinks(db, from, to, used, n - 1).0, from, to, n - 1);
    }
  }

  lemma WiredRoute(f: Fabric, db: Db, used: set<nat>, dlid: nat, exit: Port)
    requires Wired(f, db, used) && exit.node in db.devices && LinkWired(f, db.devices[exit.node], exit, used)
    ensures Wired(f, AddRoute(db, dlid, exit).0, used)
  {
    var r := AddRoute(db, dlid, exit).0;
    forall n, d | n in r.devices && d in r.devices[n].routes
      ensures RouteWired(f, r, used, n, d)
    {
      assert (n != exit.node || d in db.devices[n].routes) ==> RouteWired(f, db, used, n, d);
    }
    forall n, slot | n in r.devices && slot in r.devices[n].connections
      ensures SlotUsed(f, used, Port(n, slot.num), slot.sc)
    {
      assert n in db.devices && slot in db.devices[n].connections;
    }
  }

  /** Recording a hop records its connections on all service channels in use before its route. */
  lemma WiredHop(f: Fabric, db: Db, used: set<nat>, from: Port, to: Port, dlid: nat)
    requires Wired(f, db, used) && from in f.ports && from.node in db.devices && forall sc <- used :: sc < MAX_SCS
    requires to in f.ports && f.ports[to].neighbor == Some(from)
    ensures Wired(f, AddHop(f, db, from, to, used, dlid).0, used)
  {
    hide AddLink, AddLinks, AddRoute, Slotted, NewSlots, RouteWired;
    LinksWire(db, from, to, used, MAX_SCS);
    LinkWires(db, from, to, 0);
    LinksSlots(db, from, to, used, MAX_SCS);
    LinkSlots(db, from, to, 0);
    var (r, ok) := if used != {} && f.ports[from].qos.Some? then AddLinks(db, from, to, used, MAX_SCS)
                   else AddLink(db, from, to, 0);
    SlottedMore(f, db, r, used, from, to);
    WiredMore(f, db, r, used);
    if ok {
      WiredRoute(f, r, used, dlid, from);
    }
  }

  // ---- What a hop leaves alone ----

  /** Every FI of `db'` is one of `db`, with the same LID, and its only new route is that of `start` to
      `dlid`. */
  predicate FiKept(f: Fabric, db: Db, db': Db, start: Port, dlid: nat) {
    forall n <- db'.devices :: n in f.nodes && f.nodes[n].kind == FI ==>
      && n in db.devices && db'.devices[n].lid == db.devices[n].lid
      && forall d <- db'.devices[n].routes ::
           (d in db.devices[n].routes && db'.devices[n].routes[d] == db.devices[n].routes[d])
           || (n == start.node && d == dlid && db'.devices[n].routes[d] == start)
  }

  /** The only new route of `db'` is `exit` to `dlid`, and no device or LID is new. */
  predicate OneRoute(db: Db, db': Db, exit: Port, dlid: nat) {
    && db'.devices.Keys == db.devices.Keys
    && forall n <- db'.devices ::
         && db'.devices[n].lid == db.devices[n].lid
         && forall d <- db'.devices[n].routes ::
              (d in db.devices[n].routes && db'.devices[n].routes[d] == db.devices[n].routes[d])
              || (n == exit.node && d == dlid && db'.devices[n].routes[d] == exit)
  }

  lemma ConnectionKeeps(db: Db, from: Port, to: Port, sc: nat, exit: Port, dlid: nat)
    ensures OneRoute(db, AddConnection(db, from, to, sc).0, exit, dlid)
  {
  }

  lemma OneRouteTwice(a: Db, b: Db, c: Db, exit: Port, dlid: nat)
    requires OneRoute(a, b, exit, dlid) && OneRoute(b, c, exit, dlid)
    ensures OneRoute(a, c, exit, dlid)
  {
  }

  lemma LinkKeeps(db: Db, from: Port, to: Port, sc: nat, exit: Port, dlid: nat)
    ensures OneRoute(db, AddLink(db, from, to, sc).0, exit, dlid)
  {
    hide OneRoute, AddConnection;
    ConnectionKeeps(db, from, to, sc, exit, dlid);
    var r := AddConnection(db, from, to, sc).0;
    ConnectionKeeps(r, to, from, sc, exit, dlid);
    OneRouteTwice(db, r, AddConnection(r, to, from, sc).0, exit, dlid);
  }

  lemma {:induction false} LinksKeep(db: Db, from: Port, to: Port, used: set<nat>, n: nat, exit: Port, dlid: nat)
    ensures OneRoute(db, AddLinks(db, from, to, used, n).0, exit, dlid)
  {
    hide OneRoute, AddLink;
    OneRouteSelf(db, exit, dlid);
    if n > 0 {
      LinksKeep(db, from, to, used, n - 1, exit, dlid);
      var r := AddLinks(db, from, to, used, n - 1).0;
      LinkKeeps(r, from, to, n - 1, exit, dlid);
      OneRouteTwice(db, r, AddLink(r, from, to, n - 1).0, exit, dlid);
    }
  }

  lemma OneRouteSelf(db: Db, exit: Port, dlid: nat)
    ensures OneRoute(db, db, exit, dlid)
  {
  }

  lemma RouteKeeps(db: Db, dlid: nat, exit: Port)
    ensures OneRoute(db, AddRoute(db, dlid, exit).0, exit, dlid)
  {
  }

  lemma HopKeeps(f: Fabric, db: Db, used: set<nat>, from: Port, to: Port, dlid: nat)
    requires from in f.ports
    ensures OneRoute(db, AddHop(f, db, from, to, used, dlid).0, from, dlid)
  {
    hide OneRoute, AddLink, AddLinks, AddRoute;
    LinksKeep(db, from, to, used, MAX_SCS, from, dlid);
    LinkKeeps(db, from, to, 0, from, dlid);
    var (r, ok) := if used != {} && f.ports[from].qos.Some? then AddLinks(db, from, to, used, MAX_SCS)
                   else AddLink(db, from, to, 0);
    RouteKeeps(r, dlid, from);
    if ok {
      OneRouteTwice(db, r, AddRoute(r, dlid, from).0, from, dlid);
    }
  }

  // ---- Trace records ----

  /** The fields of a trace record that the replay reads. */
  datatype Record = Record(kind: NodeType, exitPort: nat)

  /** A callback names a port of a known node. */
  predicate Named(f: Fabric, t: Hop) {
    var p := if t.entry.Some? then t.entry else t.exit; p.Some? && p.value.node in f.nodes
  }

  /** The record made for one callback of the walk. */
  function RecordOf(f: Fabric, hop: Hop): Record
    requires Named(f, hop)
  {
    var nodep := if hop.entry.Some? then hop.entry.value.node else hop.exit.value.node;
    if f.nodes[nodep].kind == SW then Record(SW, if hop.exit.Some? then hop.exit.value.num else 0)
    else Record(FI, 0)
  }

  /** The port at which record `i` of a route finds the replay. */
  function Position(start: Port, path: seq<Port>, last: Port, i: nat): Port {
    if i == 0 then start else if i - 1 < |path| then path[i - 1] else last
  }

  /** `records` are those of a walk from the FI port `start` along `path` to the FI port `last`. */
  ghost predicate Traced(f: Fabric, start: Port, dlid: nat, path: seq<Port>, last: Port, records: seq<Record>) {
    && Route(f, dlid, path, last) && start in f.ports && start.node in f.nodes && dlid != 0
    && !IsSwitch(f, start) && !IsSwitch(f, last) && last != start
    && f.ports[start].neighbor == Some(Position(start, path, last, 1))
    && |records| == |path| + 2 && records[0].kind == FI && records[|path| + 1].kind == FI
    && forall i {:trigger path[i]} {:trigger ExitMatches(f, dlid, path, records, i)} :: 0 <= i < |path| ==>
         ExitMatches(f, dlid, path, records, i)
  }

  /** Record `i + 1` is that of the switch entered at `path[i]`, with the exit the switch routes to. */
  predicate ExitMatches(f: Fabric, dlid: nat, path: seq<Port>, records: seq<Record>, i: int)
    requires 0 <= i < |path| && |records| == |path| + 2
  {
    && Forwards(f, path[i], dlid)
    && records[i + 1].kind == SW && records[i + 1].exitPort == Exit(f, path[i], dlid).num
  }

  /** On the way of a traced route: the exit of record `i` leads to the position of record `i + 1`. */
  lemma TracedStep(f: Fabric, start: Port, dlid: nat, path: seq<Port>, last: Port, records: seq<Record>, i: nat)
    requires Traced(f, start, dlid, path, last, records) && i <= |path|
    ensures var p := Position(start, path, last, i); var q := Position(start, path, last, i + 1);
            var exit := if i == 0 then start else Port(p.node, records[i].exitPort);
            && p in f.ports && p.node in f.nodes && q in f.ports && q.node in f.nodes
            && exit in f.ports && exit.node == p.node && f.ports[exit].neighbor == Some(q)
            && f.ports[q].neighbor == Some(exit) && q != start && LeadsTo(f, q, dlid)
            && (i > 0 ==> IsSwitch(f, p) && exit.num != 0 && HasTables(f.nodes[p.node])
                          && LookupRoute(f, p.node, dlid) == Some(exit))
            && IsSwitch(f, q) == (i < |path|)
  {
    var q := Position(start, path, last, i + 1);
    RouteDelivers(f, dlid, path, last, i);
    Neighbor(f, start);
    if i > 0 {
      var p := path[i - 1];
      var exit := Exit(f, p, dlid);
      assert NextEntry(f, exit) == Some(After(path, last, i - 1));
      assert q == After(path, last, i - 1);
      Neighbor(f, exit);
      assert exit.num == 0 ==> q == exit;
    } else {
      LinkedEntry(f, q, dlid, |path|);
    }
    assert Delivered(f, q, dlid, false, |path| - i);
  }

  // ---- The replay ----

  class RouteStore {
    var devices: map<nat, Device>
    var fis: seq<nat>
    var switches: seq<nat>
    var connectionCount: nat
    var routeCount: nat

    function View(): Db
      reads this
    {
      Db(devices, fis, switches, connectionCount, routeCount)
    }

    constructor ()
      ensures View() == NO_DATA
    {
      devices, fis, switches, connectionCount, routeCount := map[], [], [], 0, 0;
    }

    method RecordDevice(f: Fabric, node: nat, lid: nat)
      requires node in f.nodes
      modifies this
      ensures View() == AddDevice(f, old(View()), node, lid)
    {
      if node in devices {
        return;
      }
      devices := devices[node := Device(lid, map[], map[])];
      if f.nodes[node].kind == FI {
        fis := fis + [node];
      } else {
        switches := switches + [node];
      }
    }

    method RecordConnection(from: Port, to: Port, sc: nat) returns (ok: bool)
      modifies this
      ensures (View(), ok) == AddConnection(old(View()), from, to, sc)
    {
      if from.node !in devices || from.num >= MAX_CONNECTIONS {
        return false;
      }
      var d := devices[from.node];
      if Slot(from.num, sc) in d.connections {
        ok := d.connections[Slot(from.num, sc)] == Conn(from, to);
      } else {
        devices := devices[from.node := d.(connections := d.connections[Slot(from.num, sc) := Conn(from, to)])];
        connectionCount := connectionCount + 1;
        ok := true;
      }
    }

    method RecordRoute(dlid: nat, exit: Port) returns (ok: bool)
      modifies this
      ensures (View(), ok) == AddRoute(old(View()), dlid, exit)
    {
      if exit.node !in devices {
        return false;
      }
      var d := devices[exit.node];
      if dlid in d.routes {
        ok := d.routes[dlid] == exit;
      } else {
        devices := devices[exit.node := d.(routes := d.routes[dlid := exit])];
        routeCount := routeCount + 1;
        ok := true;
      }
    }

    method RecordLink(from: Port, to: Port, sc: nat) returns (ok: bool)
      modifies this
      ensures (View(), ok) == AddLink(old(View()), from, to, sc)
    {
      ok := RecordConnection(from, to, sc);
      if ok {
        ok := RecordConnection(to, from, sc);
      }
    }

    method RecordHop(f: Fabric, from: Port, to: Port, used: set<nat>, dlid: nat) returns (ok: bool)
      requires from in f.ports
      modifies this
      ensures (View(), ok) == AddHop(f, old(View()), from, to, used, dlid)
    {
      if used != {} && f.ports[from].qos.Some? {
        ok := true;
        var sc := 0;
        while sc < MAX_SCS && ok
          invariant 0 <= sc <= MAX_SCS
          invariant ok ==> (View(), ok) == AddLinks(old(View()), from, to, used, sc)
          invariant !ok ==> (View(), ok) == AddLinks(old(View()), from, to, used, MAX_SCS)
          decreases MAX_SCS - sc, ok
        {
          if sc in used {
            ok := RecordLink(from, to, sc);
          }
          if !ok {
            FailedLinks(old(View()), from, to, used, sc + 1, MAX_SCS);
          }
          sc := sc + 1;
        }
      } else {
        ok := RecordLink(from, to, 0);
      }
      if ok {
        ok := RecordRoute(dlid, from);
      }
    }
  }

  lemma {:induction false} FailedLinks(db: Db, from: Port, to: Port, used: set<nat>, m: nat, n: nat)
    requires m <= n && !AddLinks(db, from, to, used, m).1
    ensures AddLinks(db, from, to, used, n) == AddLinks(db, from, to, used, m)
    decreases n
  {
    if m < n {
      FailedLinks(db, from, to, used, m, n - 1);
    }
  }

  /** The exit that leads to position `i` of a traced route. */
  function ExitTo(start: Port, path: seq<Port>, last: Port, records: seq<Record>, i: nat): Port
    requires 1 <= i <= |records|
  {
    if i == 1 then start else Port(Position(start, path, last, i - 1).node, records[i - 1].exitPort)
  }

  predicate HopFits(start: Port, path: seq<Port>, last: Port, records: seq<Record>, i: nat)
    requires 1 <= i <= |records|
  {
    LinkFits(ExitTo(start, path, last, records, i), Position(start, path, last, i))
  }

  predicate AllHopsFit(start: Port, path: seq<Port>, last: Port, records: seq<Record>) {
    forall j {:trigger HopFits(start, path, last, records, j)} ::
      1 <= j < |records| ==> HopFits(start, path, last, records, j)
  }

  predicate Routed(db: Db, dlid: nat, exit: Port) {
    exit.node in db.devices && dlid in db.devices[exit.node].routes && db.devices[exit.node].routes[dlid] == exit
  }

  /** The source FI has no route for the destination by another port. */
  predicate Agrees(db: Db, dlid: nat, start: Port) {
    start.node in db.devices && (dlid in db.devices[start.node].routes ==> db.devices[start.node].routes[dlid] == start)
  }

  /** How far the replay of a traced route has got: it is where the walk was, and every link behind it
      is recorded. */
  ghost predicate OnRoute(f: Fabric, db0: Db, db: Db, start: Port, dlid: nat, path: seq<Port>, last: Port,
                          records: seq<Record>, i: nat, p: Port, from: Port)
  {
    && Traced(f, start, dlid, path, last, records) && i < |records|
    && DbOk(f, db) && Grows(db0, db) && start.node in db.devices && last.node in db.devices
    && p == Position(start, path, last, i)
    && (i > 0 ==> from == ExitTo(start, path, last, records, i) && from.node in db.devices)
    && (i == 0 ==> from == start)
    && (i <= 1 ==> start.node in db0.devices && db.devices[start.node].routes == db0.devices[start.node].routes)
    && (i >= 2 ==> Agrees(db0, dlid, start))
    && (forall j {:trigger HopFits(start, path, last, records, j)} :: 1 <= j < i ==>
          HopFits(start, path, last, records, j))
    && (forall j {:trigger ExitTo(start, path, last, records, j)} :: 1 <= j < i ==>
          Routed(db, dlid, ExitTo(start, path, last, records, j)))
  }

  lemma RoutedGrows(db: Db, db': Db, dlid: nat, exit: Port)
    requires Grows(db, db') && Routed(db, dlid, exit)
    ensures Routed(db', dlid, exit)
  {
  }

  lemma GrowsTwice(a: Db, b: Db, c: Db)
    requires Grows(a, b) && Grows(b, c)
    ensures Grows(a, c)
  {
  }

  /** One round of the replay before it moves on: the device is recorded, then the link behind it. */
  lemma OnRouteRecord(f: Fabric, db0: Db, db: Db, start: Port, dlid: nat, path: seq<Port>, last: Port,
                      records: seq<Record>, i: nat, p: Port, from: Port, used: set<nat>)
    requires OnRoute(f, db0, db, start, dlid, path, last, records, i, p, from)
    requires forall sc <- used :: sc < MAX_SCS
    ensures p.node in f.nodes && from in f.ports
    ensures var db1 := AddDevice(f, db, p.node, 0);
            var (db2, ok) := AddHop(f, db1, from, p, used, dlid);
            && DbOk(f, db1) && Grows(db0, db1)
            && OnRoute(f, db0, db1, start, dlid, path, last, records, i, p, from)
            && p.node in db1.devices
            && (i > 0 ==>
                  && DbOk(f, db2) && Grows(db0, db2) && db2.devices.Keys == db1.devices.Keys
                  && (ok <==> HopFits(start, path, last, records, i) && (i == 1 ==> Agrees(db0, dlid, start)))
                  && (ok ==> Routed(db2, dlid, from))
                  && (forall n <- db1.devices :: n != from.node ==> db2.devices[n].routes == db1.devices[n].routes)
                  && Grows(db1, db2))
  {
    hide DbOk, Grows;
    var db1 := AddDevice(f, db, p.node, 0);
    TracedStep(f, start, dlid, path, last, records, if i == 0 then 0 else i - 1);
    AddDeviceOk(f, db, p.node, 0);
    GrowsTwice(db0, db, db1);
    DeviceRoutes(f, db, p.node, 0);
    forall j | 1 <= j < i
      ensures Routed(db1, dlid, ExitTo(start, path, last, records, j))
    {
      RoutedGrows(db, db1, dlid, ExitTo(start, path, last, records, j));
    }
    if i > 0 {
      AddHopOk(f, db1, from, p, used, dlid);
      var (db2, ok) := AddHop(f, db1, from, p, used, dlid);
      GrowsTwice(db0, db1, db2);
    }
  }

  lemma DeviceRoutes(f: Fabric, db: Db, node: nat, lid: nat)
    requires node in f.nodes
    ensures db.devices.Keys <= AddDevice(f, db, node, lid).devices.Keys
    ensures forall n <- db.devices :: AddDevice(f, db, node, lid).devices[n] == db.devices[n]
  {
  }

  /** What the round establishes about the link behind position `i`. */
  ghost predicate Recorded(f: Fabric, db0: Db, db: Db, start: Port, dlid: nat, path: seq<Port>, last: Port,
                           records: seq<Record>, i: nat)
  {
    && Traced(f, start, dlid, path, last, records) && i < |records|
    && DbOk(f, db) && Grows(db0, db) && start.node in db.devices && last.node in db.devices
    && Position(start, path, last, i).node in db.devices
    && (i == 0 ==> start.node in db0.devices && db.devices[start.node].routes == db0.devices[start.node].routes)
    && (i >= 1 ==> Agrees(db0, dlid, start))
    && (forall j {:trigger HopFits(start, path, last, records, j)} :: 1 <= j <= i ==>
          HopFits(start, path, last, records, j))
    && (forall j {:trigger ExitTo(start, path, last, records, j)} :: 1 <= j <= i ==>
          Routed(db, dlid, ExitTo(start, path, last, records, j)))
  }

  lemma RoundRecords(f: Fabric, db0: Db, db: Db, start: Port, dlid: nat, path: seq<Port>, last: Port,
                     records: seq<Record>, i: nat, p: Port, from: Port, used: set<nat>)
    requires OnRoute(f, db0, db, start, dlid, path, last, records, i, p, from)
    requires forall sc <- used :: sc < MAX_SCS
    ensures p.node in f.nodes && from in f.ports && (p == start <==> i == 0) && (i == 0 ==> from == start)
    ensures p == Position(start, path, last, i)
    ensures i + 1 == |records| ==> i > 0 && p == last && records[i].kind == FI
    ensures var db1 := AddDevice(f, db, p.node, 0);
            var (db2, ok) := AddHop(f, db1, from, p, used, dlid);
            if i == 0 then Recorded(f, db0, db1, start, dlid, path, last, records, i)
            else
              && DbOk(f, db2) && Grows(db0, db2)
              && (ok <==> HopFits(start, path, last, records, i) && Agrees(db0, dlid, start))
              && (ok ==> Recorded(f, db0, db2, start, dlid, path, last, records, i))
  {
    hide DbOk, Grows;
    OnRouteRecord(f, db0, db, start, dlid, path, last, records, i, p, from, used);
    if i > 0 {
      TracedStep(f, start, dlid, path, last, records, i - 1);
      var db1 := AddDevice(f, db, p.node, 0);
      var (db2, ok) := AddHop(f, db1, from, p, used, dlid);
      forall j | 1 <= j < i
        ensures Routed(db2, dlid, ExitTo(start, path, last, records, j))
      {
        RoutedGrows(db1, db2, dlid, ExitTo(start, path, last, records, j));
      }
    }
  }

  /** From position `i` the replay finds the exit the walk took and moves to the next position. */
  lemma RoundMoves(f: Fabric, db0: Db, db: Db, start: Port, dlid: nat, path: seq<Port>, last: Port,
                   records: seq<Record>, i: nat)
    requires Recorded(f, db0, db, start, dlid, path, last, records, i) && i + 1 < |records|
    ensures var p := Position(start, path, last, i);
            var exit := if i == 0 then start else Port(p.node, records[i].exitPort);
            && (records[i].kind == FI <==> i == 0)
            && exit in f.ports && exit != last && (i > 0 ==> exit.num != 0) && f.ports[exit].neighbor.Some?
            && OnRoute(f, db0, db, start, dlid, path, last, records, i + 1, f.ports[exit].neighbor.value, exit)
  {
    hide DbOk, Grows;
    TracedStep(f, start, dlid, path, last, records, i);
  }

  lemma TracedStart(f: Fabric, start: Port, dlid: nat, path: seq<Port>, last: Port, records: seq<Record>)
    requires exists db: Db :: OnRoute(f, db, db, start, dlid, path, last, records, 0, start, start)
    ensures records[0].kind == FI
  {
  }

  /** What every round of the replay of a traced route keeps: connections before routes, and no FI
      route but that of the start. */
  ghost predicate RoundKept(f: Fabric, db0: Db, db: Db, used: set<nat>, start: Port, dlid: nat) {
    (Wired(f, db0, used) ==> Wired(f, db, used)) && FiKept(f, db0, db, start, dlid)
  }

  lemma NothingKept(f: Fabric, db: Db, used: set<nat>, start: Port, dlid: nat)
    ensures RoundKept(f, db, db, used, start, dlid)
  {
  }

  /** Where a traced route stands: at an FI only at its ends, and left by an FI port only at its start. */
  lemma OnRouteEnds(f: Fabric, db0: Db, db: Db, start: Port, dlid: nat, path: seq<Port>, last: Port,
                    records: seq<Record>, i: nat, p: Port, from: Port)
    requires OnRoute(f, db0, db, start, dlid, path, last, records, i, p, from)
    ensures p.node in f.nodes && (f.nodes[p.node].kind == FI ==> p.node in db.devices)
    ensures from in f.ports && from.node in db.devices
    ensures i > 0 ==> from == start || (from.node in f.nodes && f.nodes[from.node].kind == SW)
    ensures i > 0 ==> p in f.ports && f.ports[p].neighbor == Some(from)
  {
    hide DbOk, Grows;
    TracedStep(f, start, dlid, path, last, records, if i == 0 then 0 else i - 1);
  }

  lemma KeptDevice(f: Fabric, db0: Db, db: Db, start: Port, dlid: nat, node: nat)
    requires FiKept(f, db0, db, start, dlid) && node in f.nodes && (f.nodes[node].kind == FI ==> node in db.devices)
    ensures FiKept(f, db0, AddDevice(f, db, node, 0), start, dlid)
  {
  }

  lemma KeptHop(f: Fabric, db0: Db, db: Db, db': Db, start: Port, dlid: nat, from: Port)
    requires FiKept(f, db0, db, start, dlid) && OneRoute(db, db', from, dlid)
    requires from == start || (from.node in f.nodes && f.nodes[from.node].kind == SW)
    ensures FiKept(f, db0, db', start, dlid)
  {
  }

  lemma RoundKeeps(f: Fabric, db0: Db, db: Db, start: Port, dlid: nat, path: seq<Port>, last: Port,
                   records: seq<Record>, i: nat, p: Port, from: Port, used: set<nat>)
    requires OnRoute(f, db0, db, start, dlid, path, last, records, i, p, from)
    requires RoundKept(f, db0, db, used, start, dlid) && forall sc <- used :: sc < MAX_SCS
    ensures p.node in f.nodes && from in f.ports
    ensures var db1 := AddDevice(f, db, p.node, 0);
            && RoundKept(f, db0, db1, used, start, dlid)
            && (i > 0 ==> RoundKept(f, db0, AddHop(f, db1, from, p, used, dlid).0, used, start, dlid))
  {
    hide OnRoute, AddHop, Wired, FiKept, OneRoute;
    OnRouteEnds(f, db0, db, start, dlid, path, last, records, i, p, from);
    var db1 := AddDevice(f, db, p.node, 0);
    KeptDevice(f, db0, db, start, dlid, p.node);
    if Wired(f, db0, used) {
      WiredDevice(f, db, used, p.node, 0);
      if i > 0 {
        WiredHop(f, db1, used, from, p, dlid);
      }
    }
    if i > 0 {
      HopKeeps(f, db1, used, from, p, dlid);
      KeptHop(f, db0, db1, AddHop(f, db1, from, p, used, dlid).0, start, dlid, from);
    }
  }

  /** CLGetRoute's replay of the trace records. For records traced by the walk it visits exactly the
      ports the walk visited and ends at the walk's last port; it is a good route if and only if the
      port numbers fit and the source FI leaves for this destination by one port only. */
  method Replay(f: Fabric, store: RouteStore, start: Port, target: Port, records: seq<Record>, used: set<nat>,
                dlid: nat, ghost traced: bool, ghost path: seq<Port>) returns (good: bool)
    requires FabricOk(f) && start in f.ports && start.node in f.nodes && target in f.ports && target.node in f.nodes
    requires !IsSwitch(f, start) && |records| > 0 && (forall sc <- used :: sc < MAX_SCS)
    requires traced ==> OnRoute(f, store.View(), store.View(), start, dlid, path, target, records, 0, start, start)
    modifies store
    ensures traced ==> RoundKept(f, old(store.View()), store.View(), used, start, dlid)
    ensures traced ==>
              && DbOk(f, store.View()) && Grows(old(store.View()), store.View())
              && (good <==>
                    && Agrees(old(store.View()), dlid, start)
                    && AllHopsFit(start, path, target, records))
              && (good ==>
                    forall j {:trigger ExitTo(start, path, target, records, j)} :: 1 <= j < |records| ==>
                      Routed(store.View(), dlid, ExitTo(start, path, target, records, j)))
  {
    hide DbOk, Grows, OnRoute, Recorded, Traced, AddDevice, AddHop, RoundKept;
    ghost var db0 := store.View();
    NothingKept(f, db0, used, start, dlid);
    var p, from := start, start;
    var shown := false;
    if traced {
      TracedStart(f, start, dlid, path, target, records);
    }
    if records[0].kind != FI {
      if f.ports[p].neighbor == None {
        return false;
      }
      Neighbor(f, p);
      p := f.ports[p].neighbor.value;
    }
    var i := 0;
    while i < |records|
      invariant 0 <= i <= |records| && p in f.ports && p.node in f.nodes && from in f.ports
      invariant traced ==> RoundKept(f, db0, store.View(), used, start, dlid)
      invariant traced && i < |records| ==>
                  OnRoute(f, db0, store.View(), start, dlid, path, target, records, i, p, from)
      invariant traced && i == |records| ==>
                  shown && p == target && Recorded(f, db0, store.View(), start, dlid, path, target, records, i - 1)
    {
      if traced {
        RoundRecords(f, db0, store.View(), start, dlid, path, target, records, i, p, from, used);
        RoundKeeps(f, db0, store.View(), start, dlid, path, target, records, i, p, from, used);
      }
      store.RecordDevice(f, p.node, 0);
      if p != start {
        var ok := store.RecordHop(f, from, p, used, dlid);
        if !ok {
          return false;
        }
        shown := true;
      }
      if traced && i + 1 < |records| {
        RoundMoves(f, db0, store.View(), start, dlid, path, target, records, i);
      }
      if records[i].kind != FI {
        var q := Port(p.node, records[i].exitPort);
        if q !in f.ports {
          return false;
        }
        Neighbor(f, q);
        p := q;
        if p.num == 0 {
          if i + 1 != |records| {
            return false;
          }
          break;
        }
        from := p;
        if p == target {
          if i + 1 != |records| {
            return false;
          }
        } else {
          if f.ports[p].neighbor == None {
            return false;
          }
          p := f.ports[p].neighbor.value;
          Neighbor(f, p);
          shown := false;
        }
      } else if i == 0 {
        Neighbor(f, start);
        if f.ports[start].neighbor == None {
          return false;
        }
        p := f.ports[start].neighbor.value;
        Neighbor(f, p);
        shown := false;
      } else if i + 1 != |records| {
        return false;
      }
      i := i + 1;
    }
    if !shown {
      var ok := store.RecordLink(from, target, 0);
      if ok {
        ok := store.RecordRoute(dlid, from);
      }
      if !ok {
        return false;
      }
    }
    if traced {
      ReplayDone(f, db0, store.View(), start, dlid, path, target, records);
    }
    return p == target;
  }

  lemma ReplayDone(f: Fabric, db0: Db, db: Db, start: Port, dlid: nat, path: seq<Port>, last: Port,
                   records: seq<Record>)
    requires |records| > 0 && Recorded(f, db0, db, start, dlid, path, last, records, |records| - 1)
    ensures DbOk(f, db) && Grows(db0, db) && |records| >= 2 && Agrees(db0, dlid, start)
    ensures forall j {:trigger HopFits(start, path, last, records, j)} :: 1 <= j < |records| ==>
              HopFits(start, path, last, records, j)
    ensures forall j {:trigger ExitTo(start, path, last, records, j)} :: 1 <= j < |records| ==>
              Routed(db, dlid, ExitTo(start, path, last, records, j))
  {
  }

  // ---- CLGetRoute ----

  function RecordsOf(f: Fabric, trace: seq<Hop>): (records: seq<Record>)
    requires forall i :: 0 <= i < |trace| ==> Named(f, trace[i])
    ensures |records| == |trace|
  {
    seq(|trace|, i requires 0 <= i < |trace| => RecordOf(f, trace[i]))
  }

  lemma RecordMatches(f: Fabric, dlid: nat, path: seq<Port>, trace: seq<Hop>, i: nat)
    requires i < |path| && |trace| == |path| + 2 && (forall j :: 0 <= j < |trace| ==> Named(f, trace[j]))
    requires path[i].node in f.nodes && IsSwitch(f, path[i]) && Forwards(f, path[i], dlid)
    requires trace[i + 1].entry == Some(path[i]) && trace[i + 1].exit == Some(Exit(f, path[i], dlid))
    ensures RecordsOf(f, trace)[i + 1] == Record(SW, Exit(f, path[i], dlid).num)
  {
  }

  lemma RecordsAtEnds(f: Fabric, trace: seq<Hop>)
    requires forall j :: 0 <= j < |trace| ==> Named(f, trace[j])
    ensures forall j :: 0 <= j < |trace| ==> RecordsOf(f, trace)[j] == RecordOf(f, trace[j])
  {
  }

  /** Record `j` is reached by the exit of call `j - 1` and the entry of call `j`. */
  predicate HopMatches(start: Port, path: seq<Port>, last: Port, records: seq<Record>, trace: seq<Hop>, j: nat)
    requires 1 <= j < |records| == |trace|
  {
    trace[j - 1].exit == Some(ExitTo(start, path, last, records, j))
      && trace[j].entry == Some(Position(start, path, last, j))
  }

  predicate TraceMatches(start: Port, path: seq<Port>, last: Port, records: seq<Record>, trace: seq<Hop>) {
    && |trace| == |records| > 0 && trace[0].entry == None && trace[|trace| - 1].exit == None
    && forall j {:trigger HopMatches(start, path, last, records, trace, j)} :: 1 <= j < |records| ==>
         HopMatches(start, path, last, records, trace, j)
  }

  /** The trace of a successful walk between FIs, as records, is a traced route. */
  lemma WalkIsTraced(f: Fabric, start: Port, target: Port, dlid: nat) returns (path: seq<Port>)
    requires CanStart(f, start) && !IsSwitch(f, start) && Walk(f, start, dlid, 0).outcome == Arrived
    requires target in f.ports && target.node in f.nodes && !IsSwitch(f, target) && target != start
    requires dlid != 0 && Holds(f, target, dlid)
    ensures var trace := Walk(f, start, dlid, 0).trace;
            && (forall i :: 0 <= i < |trace| ==> Named(f, trace[i]))
            && Traced(f, start, dlid, path, target, RecordsOf(f, trace))
            && TraceMatches(start, path, target, RecordsOf(f, trace), trace)
  {
    hide RecordsOf;
    var last;
    path, last := WalkArrives(f, start, dlid, 0);
    LidOwner(f, last, target, dlid);
    var trace := Walk(f, start, dlid, 0).trace;
    forall i | 0 <= i < |path|
      ensures trace[i + 1].entry == Some(path[i]) && trace[i + 1].exit == Some(Exit(f, path[i], dlid))
      ensures path[i].node in f.nodes && IsSwitch(f, path[i]) && Named(f, trace[i + 1])
    {
    }
    forall i | 0 <= i < |trace|
      ensures Named(f, trace[i])
    {
      if 1 <= i <= |path| {
        assert path[i - 1].node in f.nodes;
      }
    }
    var records := RecordsOf(f, trace);
    forall i | 0 <= i < |path|
      ensures ExitMatches(f, dlid, path, records, i)
    {
      RecordMatches(f, dlid, path, trace, i);
    }
    RecordsAtEnds(f, trace);
    assert records[0] == RecordOf(f, trace[0]) && records[|path| + 1] == RecordOf(f, trace[|path| + 1]);
    assert last == target && f.ports[start].neighbor == Some(Position(start, path, target, 1));
    assert Traced(f, start, dlid, path, target, records);
    forall j | 1 <= j < |records|
      ensures HopMatches(start, path, target, records, trace, j)
    {
      if j > 1 {
        assert trace[j - 2 + 1].entry == Some(path[j - 2]);
        assert ExitMatches(f, dlid, path, records, j - 2);
      }
      if j - 1 < |path| {
        assert trace[j - 1 + 1].entry == Some(path[j - 1]);
      }
    }
  }

  datatype RouteResult = NotAnalyzed | GoodRoute | BadRoute

  /** The port numbers on a route are in range. */
  predicate TraceFits(trace: seq<Hop>) {
    forall i {:trigger trace[i]} :: 0 <= i < |trace| ==>
      (trace[i].entry.Some? ==> trace[i].entry.value.num < MAX_CONNECTIONS)
      && (trace[i].exit.Some? ==> trace[i].exit.value.num < MAX_CONNECTIONS)
  }

  /** A route from `start` to `target` is recorded: at every device on its way, the exit that the
      walk took is the entry for the destination LID. */
  predicate WayRecorded(db: Db, dlid: nat, trace: seq<Hop>) {
    forall i :: 0 <= i < |trace| && trace[i].exit.Some? ==> Routed(db, dlid, trace[i].exit.value)
  }

  /** The source FI already leaves for this destination by another port. */
  predicate Elsewhere(db: Db, dlid: nat, start: Port) {
    start.node in db.devices && !Agrees(db, dlid, start)
  }

  /** The walk to `dlid` arrives, by ports whose numbers are in range. */
  ghost predicate Routable(f: Fabric, start: Port, dlid: nat)
    requires CanStart(f, start)
  {
    Walk(f, start, dlid, 0).outcome == Arrived && TraceFits(Walk(f, start, dlid, 0).trace)
  }

  /** The route to `dlid` exists and is recorded. */
  ghost predicate RouteKnown(f: Fabric, db: Db, start: Port, dlid: nat)
    requires CanStart(f, start)
  {
    Walk(f, start, dlid, 0).outcome == Arrived && WayRecorded(db, dlid, Walk(f, start, dlid, 0).trace)
  }

  /** If there is a route to `dlid`, it is recorded, or the source FI leaves by another port. */
  ghost predicate Settled(f: Fabric, db: Db, start: Port, dlid: nat)
    requires CanStart(f, start)
  {
    Routable(f, start, dlid) ==> RouteKnown(f, db, start, dlid) || Elsewhere(db, dlid, start)
  }

  lemma RouteKept(f: Fabric, db: Db, db': Db, start: Port, dlid: nat)
    requires CanStart(f, start) && Grows(db, db')
    ensures RouteKnown(f, db, start, dlid) ==> RouteKnown(f, db', start, dlid)
    ensures Settled(f, db, start, dlid) ==> Settled(f, db', start, dlid)
  {
    hide Walk;
    if WayRecorded(db, dlid, Walk(f, start, dlid, 0).trace) {
      var trace := Walk(f, start, dlid, 0).trace;
      forall i | 0 <= i < |trace| && trace[i].exit.Some?
        ensures Routed(db', dlid, trace[i].exit.value)
      {
        RoutedGrows(db, db', dlid, trace[i].exit.value);
      }
    }
  }

  /** What recording one route does to the FIs: the two ends get their LIDs if they are new, and the only
      new route is that of `start`, whose walk arrives. */
  ghost predicate FiRecorded(f: Fabric, db: Db, db': Db, start: Port, slid: nat, target: Port, dlid: nat)
    requires CanStart(f, start)
  {
    forall n <- db'.devices :: n in f.nodes && f.nodes[n].kind == FI ==>
      && (if n in db.devices then db'.devices[n].lid == db.devices[n].lid
          else (n == start.node && db'.devices[n].lid == slid) || (n == target.node && db'.devices[n].lid == dlid))
      && forall d <- db'.devices[n].routes ::
           (n in db.devices && d in db.devices[n].routes && db'.devices[n].routes[d] == db.devices[n].routes[d])
           || (n == start.node && d == dlid && db'.devices[n].routes[d] == start
               && Walk(f, start, dlid, 0).outcome == Arrived && f.ports[start].neighbor != Some(target)
               && start != target)
  }

  lemma EndsRecorded(f: Fabric, db: Db, db': Db, start: Port, slid: nat, target: Port, dlid: nat)
    requires CanStart(f, start) && start.node in f.nodes && target.node in f.nodes
    requires var db2 := AddDevice(f, AddDevice(f, db, start.node, slid), target.node, dlid);
             db' == db2 || (FiKept(f, db2, db', start, dlid) && Walk(f, start, dlid, 0).outcome == Arrived
                            && f.ports[start].neighbor != Some(target) && start != target)
    ensures FiRecorded(f, db, db', start, slid, target, dlid)
  {
    hide Walk;
  }

  /** Traces the route between two FI ports and records it. The route is good if and only if it exists,
      its port numbers are in range, and the source FI does not leave by another port already. */
  method GetRoute(f: Fabric, store: RouteStore, start: Port, target: Port, slid: nat, dlid: nat, used: set<nat>)
    returns (result: RouteResult)
    requires DbOk(f, store.View()) && (forall sc <- used :: sc < MAX_SCS)
    requires CanStart(f, start) && target in f.ports && target.node in f.nodes
    requires slid != 0 && dlid != 0 && Holds(f, start, slid) && Holds(f, target, dlid)
    modifies store
    ensures DbOk(f, store.View()) && Grows(old(store.View()), store.View())
    ensures Wired(f, old(store.View()), used) ==> Wired(f, store.View(), used)
    ensures result == NotAnalyzed <==>
              IsSwitch(f, start) || IsSwitch(f, target) || start == target || f.ports[start].neighbor == Some(target)
    ensures result != NotAnalyzed ==>
              && (result == GoodRoute <==> Routable(f, start, dlid) && !Elsewhere(old(store.View()), dlid, start))
              && Settled(f, store.View(), start, dlid)
    ensures result == GoodRoute ==> RouteKnown(f, store.View(), start, dlid)
    ensures !IsSwitch(f, start) && !IsSwitch(f, target) ==>
              start.node in store.View().devices && target.node in store.View().devices
    ensures FiRecorded(f, old(store.View()), store.View(), start, slid, target, dlid)
  {
    hide DbOk, Grows, Wired, Traced, Walk, RecordsOf, ExitTo, HopFits, FiKept, FiRecorded;
    ghost var db := store.View();
    if f.nodes[start.node].kind != FI || f.nodes[target.node].kind != FI {
      GrowsSelf(db);
      NothingRecorded(f, db, start, slid, target, dlid);
      return NotAnalyzed;
    }
    WiredEnds(f, db, used, start.node, slid, target.node, dlid);
    assert Registered(f, start, slid) && Registered(f, target, dlid);
    AddDeviceOk(f, store.View(), start.node, slid);
    store.RecordDevice(f, start.node, slid);
    ghost var db1 := store.View();
    AddDeviceOk(f, store.View(), target.node, dlid);
    store.RecordDevice(f, target.node, dlid);
    ghost var db2 := store.View();
    GrowsTwice(db, db1, db2);
    DeviceRoutes(f, db, start.node, slid);
    DeviceRoutes(f, db1, target.node, dlid);
    EndsRecorded(f, db, db2, start, slid, target, dlid);
    if start == target || f.ports[start].neighbor == Some(target) {
      return NotAnalyzed;
    }
    var portp := f.lidMap[slid];
    var outcome, trace := WalkRoutePort(f, portp, dlid, 0);
    if StatusOf(outcome) != Success {
      return BadRoute;
    }
    ghost var path := WalkIsTraced(f, start, target, dlid);
    var records := RecordsOf(f, trace);
    ReplayStarts(f, db2, start, dlid, path, target, records);
    AgreesOrElsewhere(f, db, db2, start, slid, target, dlid);
    FitsHopByHop(f, start, dlid, path, target, trace);
    var good := Replay(f, store, start, target, records, used, dlid, true, path);
    GrowsTwice(db, db2, store.View());
    EndsRecorded(f, db, store.View(), start, slid, target, dlid);
    GrowsKeys(db2, store.View());
    if good {
      WayByHops(store.View(), start, dlid, path, target, records, trace);
      return GoodRoute;
    }
    ElsewhereGrows(db, store.View(), dlid, start);
    return BadRoute;
  }

  lemma GrowsSelf(db: Db)
    ensures Grows(db, db)
  {
  }

  lemma GrowsKeys(db: Db, db': Db)
    requires Grows(db, db')
    ensures db.devices.Keys <= db'.devices.Keys
  {
  }

  lemma WayByHops(db: Db, start: Port, dlid: nat, path: seq<Port>, last: Port, records: seq<Record>, trace: seq<Hop>)
    requires TraceMatches(start, path, last, records, trace)
    requires forall j {:trigger ExitTo(start, path, last, records, j)} :: 1 <= j < |records| ==>
               Routed(db, dlid, ExitTo(start, path, last, records, j))
    ensures WayRecorded(db, dlid, trace)
  {
    forall i | 0 <= i < |trace| && trace[i].exit.Some?
      ensures Routed(db, dlid, trace[i].exit.value)
    {
      assert HopMatches(start, path, last, records, trace, i + 1);
    }
  }

  lemma NothingRecorded(f: Fabric, db: Db, start: Port, slid: nat, target: Port, dlid: nat)
    requires CanStart(f, start)
    ensures FiRecorded(f, db, db, start, slid, target, dlid)
  {
  }

  lemma WiredEnds(f: Fabric, db: Db, used: set<nat>, m: nat, slid: nat, n: nat, dlid: nat)
    requires m in f.nodes && n in f.nodes
    ensures Wired(f, db, used) ==> Wired(f, AddDevice(f, AddDevice(f, db, m, slid), n, dlid), used)
  {
    if Wired(f, db, used) {
      WiredDevice(f, db, used, m, slid);
      WiredDevice(f, AddDevice(f, db, m, slid), used, n, dlid);
    }
  }

  lemma AgreesOrElsewhere(f: Fabric, db: Db, db2: Db, start: Port, slid: nat, target: Port, dlid: nat)
    requires start.node in f.nodes && target.node in f.nodes
    requires db2 == AddDevice(f, AddDevice(f, db, start.node, slid), target.node, dlid)
    ensures Agrees(db2, dlid, start) <==> !Elsewhere(db, dlid, start)
  {
  }

  lemma ElsewhereGrows(db: Db, db': Db, dlid: nat, start: Port)
    requires Grows(db, db')
    ensures Elsewhere(db, dlid, start) ==> Elsewhere(db', dlid, start)
  {
  }

  lemma FitsHopByHop(f: Fabric, start: Port, dlid: nat, path: seq<Port>, last: Port, trace: seq<Hop>)
    requires forall i :: 0 <= i < |trace| ==> Named(f, trace[i])
    requires var records := RecordsOf(f, trace);
             Traced(f, start, dlid, path, last, records) && TraceMatches(start, path, last, records, trace)
    ensures var records := RecordsOf(f, trace);
            TraceFits(trace) <==> AllHopsFit(start, path, last, records)
  {
    var records := RecordsOf(f, trace);
    if TraceFits(trace) {
      forall j | 1 <= j < |records|
        ensures HopFits(start, path, last, records, j)
      {
        assert HopMatches(start, path, last, records, trace, j);
        assert trace[j - 1].exit.Some? && trace[j].entry.Some?;
      }
    }
    if AllHopsFit(start, path, last, records) {
      forall i | 0 <= i < |trace|
        ensures trace[i].entry.Some? ==> trace[i].entry.value.num < MAX_CONNECTIONS
        ensures trace[i].exit.Some? ==> trace[i].exit.value.num < MAX_CONNECTIONS
      {
        if i > 0 {
          assert HopMatches(start, path, last, records, trace, i) && HopFits(start, path, last, records, i);
        }
        if i + 1 < |trace| {
          assert HopMatches(start, path, last, records, trace, i + 1) && HopFits(start, path, last, records, i + 1);
        }
      }
    }
  }

  lemma ReplayStarts(f: Fabric, db: Db, start: Port, dlid: nat, path: seq<Port>, last: Port, records: seq<Record>)
    requires DbOk(f, db) && Traced(f, start, dlid, path, last, records)
    requires start.node in db.devices && last.node in db.devices
    ensures |records| > 0 && OnRoute(f, db, db, start, dlid, path, last, records, 0, start, start)
  {
    GrowsSelf(db);
  }

  // ---- All routes ----

  /** A port that analysis may start from. */
  ghost predicate FiPort(f: Fabric, p: Port) {
    CanStart(f, p) && !IsSwitch(f, p)
  }

  /** Two FI ports whose routes are analyzed: different, and not linked to each other. */
  ghost predicate Analyzed(f: Fabric, start: Port, target: Port) {
    FiPort(f, start) && FiPort(f, target) && start != target && f.ports[start].neighbor != Some(target)
    && f.ports[start].lid != 0 && f.ports[target].lid != 0
  }

  /** Paths go from the i-th LID of one port to the i-th LID of the other, as long as both have one. */
  function PathCount(f: Fabric, start: Port, target: Port): nat
    requires start in f.ports && target in f.ports
  {
    if Pow2(f.ports[start].lmc) < Pow2(f.ports[target].lmc) then Pow2(f.ports[start].lmc) else Pow2(f.ports[target].lmc)
  }

  /** The `k`-th path between two ports is dealt with; if `good`, its route is known. */
  ghost predicate PathSettled(f: Fabric, db: Db, start: Port, target: Port, k: nat, good: bool)
    requires Analyzed(f, start, target)
  {
    var dlid := f.ports[target].lid + k;
    Settled(f, db, start, dlid) && (good ==> RouteKnown(f, db, start, dlid))
  }

  /** So are the first `n` paths. */
  ghost predicate PathsSettled(f: Fabric, db: Db, start: Port, target: Port, n: nat, good: bool)
    requires Analyzed(f, start, target)
  {
    forall k: nat {:trigger PathSettled(f, db, start, target, k, good)} ::
      k < n ==> PathSettled(f, db, start, target, k, good)
  }

  lemma PathsKept(f: Fabric, db: Db, db': Db, start: Port, target: Port, n: nat, good: bool)
    requires Analyzed(f, start, target) && Grows(db, db') && PathsSettled(f, db, start, target, n, good)
    ensures PathsSettled(f, db', start, target, n, good) && PathsSettled(f, db', start, target, n, false)
  {
    hide Settled, RouteKnown, Grows;
    forall k: nat | k < n
      ensures PathSettled(f, db', start, target, k, good) && PathSettled(f, db', start, target, k, false)
    {
      assert PathSettled(f, db, start, target, k, good);
      RouteKept(f, db, db', start, f.ports[target].lid + k);
    }
  }

  lemma NoPaths(f: Fabric, db: Db, start: Port, target: Port)
    ensures Analyzed(f, start, target) ==>
              && PathsSettled(f, db, start, target, 0, true)
              && PathsOf(f, db, start, target, 0, true) == PathsOf(f, db, start, target, 0, false) == {}
  {
  }

  lemma PathsNext(f: Fabric, db: Db, start: Port, target: Port, n: nat, good: bool)
    requires Analyzed(f, start, target) && PathsSettled(f, db, start, target, n, good)
    requires PathSettled(f, db, start, target, n, good)
    ensures PathsSettled(f, db, start, target, n + 1, good)
  {
    hide PathSettled;
  }

  /** `dlid` is one of the LIDs of `target` to which a path from `start` is analyzed, and the walk to it
      arrives. */
  ghost predicate PathTo(f: Fabric, start: Port, target: Port, dlid: nat) {
    && Analyzed(f, start, target) && f.ports[target].lid <= dlid < f.ports[target].lid + PathCount(f, start, target)
    && Walk(f, start, dlid, 0).outcome == Arrived
  }

  /** What recording all paths between two ports does to the FIs. */
  ghost predicate PairRecorded(f: Fabric, db: Db, db': Db, start: Port, target: Port)
    requires start in f.ports && target in f.ports
  {
    forall n <- db'.devices :: n in f.nodes && f.nodes[n].kind == FI ==>
      && (if n in db.devices then db'.devices[n].lid == db.devices[n].lid
          else (n == start.node && db'.devices[n].lid == f.ports[start].lid)
               || (n == target.node && db'.devices[n].lid == f.ports[target].lid))
      && forall d <- db'.devices[n].routes ::
           (n in db.devices && d in db.devices[n].routes && db'.devices[n].routes[d] == db.devices[n].routes[d])
           || (n == start.node && db'.devices[n].routes[d] == start && PathTo(f, start, target, d))
  }

  lemma NoPairRecorded(f: Fabric, db: Db, start: Port, target: Port)
    requires start in f.ports && target in f.ports
    ensures PairRecorded(f, db, db, start, target)
  {
  }

  lemma PairRecordedNext(f: Fabric, db: Db, db1: Db, db2: Db, start: Port, target: Port, k: nat)
    requires FiPort(f, start) && FiPort(f, target) && start != target && PairRecorded(f, db, db1, start, target)
    requires db.devices.Keys <= db1.devices.Keys
    requires f.ports[start].lid != 0 && f.ports[target].lid != 0 && k < PathCount(f, start, target)
    requires FiRecorded(f, db1, db2, start, f.ports[start].lid + k, target, f.ports[target].lid + k)
    requires k > 0 ==> start.node in db1.devices && target.node in db1.devices
    ensures PairRecorded(f, db, db2, start, target)
  {
    hide Walk;
    forall n | n in db2.devices && n in f.nodes && f.nodes[n].kind == FI
      ensures if n in db.devices then db2.devices[n].lid == db.devices[n].lid
              else (n == start.node && db2.devices[n].lid == f.ports[start].lid)
                   || (n == target.node && db2.devices[n].lid == f.ports[target].lid)
      ensures forall d <- db2.devices[n].routes ::
                (n in db.devices && d in db.devices[n].routes && db2.devices[n].routes[d] == db.devices[n].routes[d])
                || (n == start.node && db2.devices[n].routes[d] == start && PathTo(f, start, target, d))
    {
      forall d | d in db2.devices[n].routes
        ensures (n in db.devices && d in db.devices[n].routes && db2.devices[n].routes[d] == db.devices[n].routes[d])
                || (n == start.node && db2.devices[n].routes[d] == start && PathTo(f, start, target, d))
      {
        if !(n in db1.devices && d in db1.devices[n].routes && db2.devices[n].routes[d] == db1.devices[n].routes[d]) {
          assert d == f.ports[target].lid + k;
        }
      }
    }
  }

  lemma KnownIfGood(f: Fabric, db: Db, start: Port, target: Port, k: nat, good: bool)
    requires Analyzed(f, start, target)
    requires var dlid := f.ports[target].lid + k;
             Settled(f, db, start, dlid) && (good ==> RouteKnown(f, db, start, dlid))
    ensures PathSettled(f, db, start, target, k, good)
  {
  }

  // ---- Good paths and bad paths ----

  /** The `k`-th path between two ports is good: its walk arrives by port numbers in range, and the source
      FI does not leave for the LID by another port. */
  ghost predicate GoodPath(f: Fabric, db: Db, start: Port, target: Port, k: nat)
    requires CanStart(f, start) && target in f.ports
  {
    Routable(f, start, f.ports[target].lid + k) && !Elsewhere(db, f.ports[target].lid + k, start)
  }

  /** Of the first `n` paths between two ports, the good ones or the others. */
  ghost function PathsOf(f: Fabric, db: Db, start: Port, target: Port, n: nat, good: bool): set<nat>
    requires CanStart(f, start) && target in f.ports
  {
    set k: nat | k < n && (GoodPath(f, db, start, target, k) <==> good)
  }

  lemma OnePathMore(f: Fabric, db: Db, start: Port, target: Port, n: nat, good: bool)
    requires CanStart(f, start) && target in f.ports
    ensures |PathsOf(f, db, start, target, n + 1, good)|
            == |PathsOf(f, db, start, target, n, good)|
             + (if GoodPath(f, db, start, target, n) <==> good then 1 else 0)
  {
    hide GoodPath, CanStart;
    assert PathsOf(f, db, start, target, n + 1, good)
        == PathsOf(f, db, start, target, n, good) + (if GoodPath(f, db, start, target, n) <==> good then {n} else {});
  }

  /** New routes of the source FI leave by the start port, so no path between the two ports spoils another. */
  lemma ElsewhereKept(f: Fabric, db: Db, db': Db, start: Port, target: Port, dlid: nat)
    requires FiPort(f, start) && target in f.ports && PairRecorded(f, db, db', start, target) && Grows(db, db')
    ensures Elsewhere(db', dlid, start) <==> Elsewhere(db, dlid, start)
  {
    hide Walk, PathTo;
  }

  lemma GoodPathKept(f: Fabric, db: Db, db': Db, start: Port, target: Port, k: nat)
    requires FiPort(f, start) && target in f.ports && PairRecorded(f, db, db', start, target) && Grows(db, db')
    ensures GoodPath(f, db', start, target, k) <==> GoodPath(f, db, start, target, k)
  {
    hide Routable, PairRecorded, Grows;
    ElsewhereKept(f, db, db', start, target, f.ports[target].lid + k);
  }

  /** A known route leaves by its start port. */
  lemma KnownLeaves(f: Fabric, db: Db, start: Port, dlid: nat)
    requires FiPort(f, start) && RouteKnown(f, db, start, dlid)
    ensures !Elsewhere(db, dlid, start)
  {
    hide Walk;
    var path, last := WalkArrives(f, start, dlid, 0);
    assert Walk(f, start, dlid, 0).trace[0].exit == Some(start);
    assert Routed(db, dlid, start);
  }

  /** Once a path is settled, what comes later does not change whether it is good. */
  lemma GoodPathStays(f: Fabric, db: Db, db': Db, start: Port, target: Port, k: nat)
    requires FiPort(f, start) && target in f.ports && Settled(f, db, start, f.ports[target].lid + k) && Grows(db, db')
    ensures GoodPath(f, db', start, target, k) <==> GoodPath(f, db, start, target, k)
  {
    hide Routable, RouteKnown, Grows;
    var dlid := f.ports[target].lid + k;
    ElsewhereGrows(db, db', dlid, start);
    if GoodPath(f, db, start, target, k) {
      RouteKept(f, db, db', start, dlid);
      KnownLeaves(f, db', start, dlid);
    }
  }

  /** Every path between two ports: the i-th LID of one to the i-th LID of the other. */
  method GetRoutes(f: Fabric, store: RouteStore, start: Port, target: Port, used: set<nat>)
    returns (paths: nat, badPaths: nat)
    requires DbOk(f, store.View()) && (forall sc <- used :: sc < MAX_SCS)
    requires FiPort(f, start) && FiPort(f, target) && start != target
    modifies store
    ensures DbOk(f, store.View()) && Grows(old(store.View()), store.View())
    ensures Wired(f, old(store.View()), used) ==> Wired(f, store.View(), used)
    ensures PairRecorded(f, old(store.View()), store.View(), start, target)
    ensures if Analyzed(f, start, target)
            then paths == |PathsOf(f, old(store.View()), start, target, PathCount(f, start, target), true)|
                 && badPaths == |PathsOf(f, old(store.View()), start, target, PathCount(f, start, target), false)|
                 && PathsSettled(f, store.View(), start, target, PathCount(f, start, target), badPaths == 0)
            else paths == badPaths == 0
  {
    hide DbOk, Grows, Wired, Settled, RouteKnown, Routable, Walk, PathsSettled, PathSettled, FiRecorded, PairRecorded,
      Elsewhere, PathsOf;
    paths, badPaths := 0, 0;
    ghost var db := store.View();
    GrowsSelf(db);
    NoPairRecorded(f, db, start, target);
    var from, to := f.ports[start], f.ports[target];
    if from.lid == 0 || to.lid == 0 {
      return;
    }
    var offset := 0;
    NoPaths(f, db, start, target);
    while offset < Pow2(from.lmc) && offset < Pow2(to.lmc)
      invariant 0 <= offset <= PathCount(f, start, target)
      invariant DbOk(f, store.View()) && Grows(db, store.View())
      invariant Wired(f, db, used) ==> Wired(f, store.View(), used)
      invariant PairRecorded(f, db, store.View(), start, target)
      invariant offset > 0 ==> start.node in store.View().devices && target.node in store.View().devices
      invariant if Analyzed(f, start, target)
                then paths == |PathsOf(f, db, start, target, offset, true)|
                     && badPaths == |PathsOf(f, db, start, target, offset, false)|
                     && PathsSettled(f, store.View(), start, target, offset, badPaths == 0)
                else paths == badPaths == 0
      decreases Pow2(from.lmc) - offset
    {
      ghost var db1 := store.View();
      GoodPathKept(f, db, db1, start, target, offset);
      OnePathMore(f, db, start, target, offset, true);
      OnePathMore(f, db, start, target, offset, false);
      var result := GetRoute(f, store, start, target, from.lid + offset, to.lid + offset, used);
      GrowsTwice(db, db1, store.View());
      GrowsKeys(db, db1);
      PairRecordedNext(f, db, db1, store.View(), start, target, offset);
      if Analyzed(f, start, target) {
        PathsKept(f, db1, store.View(), start, target, offset, badPaths == 0);
        KnownIfGood(f, store.View(), start, target, offset, badPaths == 0 && result == GoodRoute);
        PathsNext(f, store.View(), start, target, offset, badPaths == 0 && result == GoodRoute);
      }
      if result == GoodRoute {
        paths := paths + 1;
      } else if result == BadRoute {
        badPaths := badPaths + 1;
      }
      offset := offset + 1;
    }
  }

  /** All paths from one port to another are dealt with. */
  ghost predicate PairSettled(f: Fabric, db: Db, start: Port, target: Port, good: bool) {
    Analyzed(f, start, target) ==> PathsSettled(f, db, start, target, PathCount(f, start, target), good)
  }

  lemma PairDone(f: Fabric, db: Db, start: Port, target: Port, fine: bool, good: bool)
    requires Analyzed(f, start, target) ==> PathsSettled(f, db, start, target, PathCount(f, start, target), fine)
    requires good ==> fine
    ensures PairSettled(f, db, start, target, good)
  {
    if Analyzed(f, start, target) {
      GrowsSelf(db);
      PathsKept(f, db, db, start, target, PathCount(f, start, target), fine);
    }
  }

  /** So are those from the first `i` ports, and from port `i` to the first `j`. */
  ghost predicate AllSettled(f: Fabric, db: Db, ports: seq<Port>, i: nat, j: nat, good: bool) {
    forall a: nat, b: nat {:trigger PairSettled(f, db, ports[a], ports[b], good)} ::
      a < |ports| && b < |ports| && (a < i || (a == i && b < j)) ==> PairSettled(f, db, ports[a], ports[b], good)
  }

  lemma AllSettledNext(f: Fabric, db: Db, db': Db, ports: seq<Port>, i: nat, j: nat, good: bool, good': bool)
    requires i < |ports| && j < |ports| && Grows(db, db') && AllSettled(f, db, ports, i, j, good) && (good' ==> good)
    requires PairSettled(f, db', ports[i], ports[j], good')
    ensures AllSettled(f, db', ports, i, j + 1, good')
  {
    hide PathsSettled, Grows;
    forall a: nat, b: nat | a < |ports| && b < |ports| && (a < i || (a == i && b < j))
      ensures PairSettled(f, db', ports[a], ports[b], good')
    {
      assert PairSettled(f, db, ports[a], ports[b], good);
      if Analyzed(f, ports[a], ports[b]) {
        PathsKept(f, db, db', ports[a], ports[b], PathCount(f, ports[a], ports[b]), good);
      }
    }
  }

  lemma RowSettled(f: Fabric, db: Db, ports: seq<Port>, i: nat, good: bool)
    ensures AllSettled(f, db, ports, i, |ports|, good) <==> AllSettled(f, db, ports, i + 1, 0, good)
    ensures AllSettled(f, db, ports, 0, 0, good)
  {
    hide PairSettled;
  }

  /** The good paths, or the bad ones, from the first `i` ports, and from port `i` to the first `j`: the
      `k`-th path from `ports[a]` to `ports[b]`, for each `k` for which both have a LID. */
  ghost function PathSet(f: Fabric, db: Db, ports: seq<Port>, i: nat, j: nat, good: bool): set<(nat, nat, nat)> {
    set a: nat, b: nat, k: nat | a < |ports| && b < |ports| && (a < i || (a == i && b < j))
                                 && Analyzed(f, ports[a], ports[b])
                                 && k < Pow2(f.ports[ports[a]].lmc) && k < Pow2(f.ports[ports[b]].lmc)
                                 && (GoodPath(f, db, ports[a], ports[b], k) <==> good) :: (a, b, k)
  }

  function Tagged(ks: set<nat>, i: nat, j: nat): set<(nat, nat, nat)> {
    set k <- ks :: (i, j, k)
  }

  lemma {:induction false} TagCount(ks: set<nat>, i: nat, j: nat)
    ensures |Tagged(ks, i, j)| == |ks|
    decreases |ks|
  {
    if ks != {} {
      var k :| k in ks;
      TagCount(ks - {k}, i, j);
      assert Tagged(ks, i, j) == Tagged(ks - {k}, i, j) + {(i, j, k)};
    }
  }

  /** Paths settled before stay what they were. */
  lemma PathSetKept(f: Fabric, db: Db, db': Db, ports: seq<Port>, i: nat, j: nat, good: bool, fine: bool)
    requires i < |ports| && j < |ports| && Grows(db, db') && AllSettled(f, db, ports, i, j, fine)
    ensures PathSet(f, db', ports, i, j, good) == PathSet(f, db, ports, i, j, good)
  {
    hide Settled, RouteKnown, Grows, GoodPath, FabricOk;
    forall a: nat, b: nat, k: nat | a < |ports| && b < |ports| && (a < i || (a == i && b < j))
                                    && Analyzed(f, ports[a], ports[b]) && k < PathCount(f, ports[a], ports[b])
      ensures GoodPath(f, db', ports[a], ports[b], k) <==> GoodPath(f, db, ports[a], ports[b], k)
    {
      assert PairSettled(f, db, ports[a], ports[b], fine);
      assert PathSettled(f, db, ports[a], ports[b], k, fine);
      GoodPathStays(f, db, db', ports[a], ports[b], k);
    }
  }

  /** Those between the next two ports come in. */
  lemma PathSetNext(f: Fabric, db: Db, ports: seq<Port>, i: nat, j: nat, good: bool)
    requires i < |ports| && j < |ports|
    ensures Analyzed(f, ports[i], ports[j]) ==>
              |PathSet(f, db, ports, i, j + 1, good)|
              == |PathSet(f, db, ports, i, j, good)|
               + |PathsOf(f, db, ports[i], ports[j], PathCount(f, ports[i], ports[j]), good)|
    ensures !Analyzed(f, ports[i], ports[j]) ==>
              PathSet(f, db, ports, i, j + 1, good) == PathSet(f, db, ports, i, j, good)
  {
    hide GoodPath, FabricOk;
    if Analyzed(f, ports[i], ports[j]) {
      var news := PathsOf(f, db, ports[i], ports[j], PathCount(f, ports[i], ports[j]), good);
      assert PathSet(f, db, ports, i, j + 1, good) == PathSet(f, db, ports, i, j, good) + Tagged(news, i, j);
      TagCount(news, i, j);
    }
  }

  /** What `GetRoutes` counts for a pair is what it adds to the paths so far. */
  lemma PairCounted(f: Fabric, db: Db, db': Db, ports: seq<Port>, i: nat, j: nat, good: bool, fine: bool)
    requires i < |ports| && j < |ports| && Grows(db, db') && AllSettled(f, db, ports, i, j, fine)
    requires FiPort(f, ports[i]) && FiPort(f, ports[j]) && PairRecorded(f, db, db', ports[i], ports[j])
    ensures Analyzed(f, ports[i], ports[j]) ==>
              |PathSet(f, db', ports, i, j + 1, good)|
              == |PathSet(f, db, ports, i, j, good)|
               + |PathsOf(f, db, ports[i], ports[j], PathCount(f, ports[i], ports[j]), good)|
    ensures !Analyzed(f, ports[i], ports[j]) ==>
              PathSet(f, db', ports, i, j + 1, good) == PathSet(f, db, ports, i, j, good)
  {
    hide PathSet, GoodPath, FabricOk, Grows, PairRecorded, AllSettled;
    PathSetKept(f, db, db', ports, i, j, good, fine);
    PathSetNext(f, db', ports, i, j, good);
    var n := PathCount(f, ports[i], ports[j]);
    forall k: nat | k < n
      ensures GoodPath(f, db', ports[i], ports[j], k) <==> GoodPath(f, db, ports[i], ports[j], k)
    {
      GoodPathKept(f, db, db', ports[i], ports[j], k);
    }
    assert PathsOf(f, db', ports[i], ports[j], n, good) == PathsOf(f, db, ports[i], ports[j], n, good);
  }

  lemma RowCounted(f: Fabric, db: Db, ports: seq<Port>, i: nat, good: bool)
    ensures PathSet(f, db, ports, i, |ports|, good) == PathSet(f, db, ports, i + 1, 0, good)
    ensures PathSet(f, db, ports, 0, 0, good) == {}
  {
    hide GoodPath, Analyzed;
  }

  // ---- Where the FI data come from ----

  /** A path from FI port `x` to `dlid` is analyzed, and there is one. */
  ghost predicate Recordable(f: Fabric, ports: seq<Port>, x: Port, dlid: nat) {
    x in ports && exists t :: t in ports && PathTo(f, x, t, dlid)
  }

  /** An FI stands under the base LID of one of its ports, and every route of it was walked. */
  ghost predicate FiSourced(f: Fabric, ports: seq<Port>, db: Db, n: nat)
    requires n in db.devices
  {
    && (exists p :: p in ports && p in f.ports && p.node == n && db.devices[n].lid == f.ports[p].lid)
    && forall d <- db.devices[n].routes ::
         db.devices[n].routes[d].node == n && Recordable(f, ports, db.devices[n].routes[d], d)
  }

  ghost predicate Sourced(f: Fabric, ports: seq<Port>, db: Db) {
    forall n {:trigger FiSourced(f, ports, db, n)} ::
      n in db.devices && n in f.nodes && f.nodes[n].kind == FI ==> FiSourced(f, ports, db, n)
  }

  lemma SourcedNext(f: Fabric, ports: seq<Port>, db: Db, db': Db, start: Port, target: Port)
    requires Sourced(f, ports, db) && start in ports && target in ports && start in f.ports && target in f.ports
    requires PairRecorded(f, db, db', start, target)
    ensures Sourced(f, ports, db')
  {
    hide PathTo;
    forall n | n in db'.devices && n in f.nodes && f.nodes[n].kind == FI
      ensures FiSourced(f, ports, db', n)
    {
      assert n in db.devices ==> FiSourced(f, ports, db, n);
    }
  }

  lemma NoDataSourced(f: Fabric, ports: seq<Port>)
    ensures Sourced(f, ports, NO_DATA)
  {
  }

  /** All that collecting the routes between `ports` establishes. If `good`, no path was bad. */
  ghost predicate Collected(f: Fabric, ports: seq<Port>, db: Db, used: set<nat>, good: bool) {
    && DbOk(f, db) && Wired(f, db, used) && Sourced(f, ports, db)
    && AllSettled(f, db, ports, |ports|, 0, good)
  }

  /** What has been established once the pairs from the first `i` ports, and from port `i` to the first `j`,
      have been collected; with the numbers of their good and bad paths. */
  ghost predicate SoFar(f: Fabric, db: Db, ports: seq<Port>, used: set<nat>, i: nat, j: nat, paths: nat,
                        badPaths: nat)
  {
    && DbOk(f, db) && Wired(f, db, used) && Sourced(f, ports, db)
    && AllSettled(f, db, ports, i, j, badPaths == 0)
    && paths == |PathSet(f, db, ports, i, j, true)| && badPaths == |PathSet(f, db, ports, i, j, false)|
  }

  lemma NoneCollected(f: Fabric, ports: seq<Port>, used: set<nat>)
    requires FabricOk(f)
    ensures SoFar(f, NO_DATA, ports, used, 0, 0, 0, 0)
  {
    hide DbOk, Wired, Sourced, AllSettled, PathSet;
    NoDataOk(f);
    NoDataWired(f, used);
    NoDataSourced(f, ports);
    RowSettled(f, NO_DATA, ports, 0, true);
    RowCounted(f, NO_DATA, ports, 0, true);
    RowCounted(f, NO_DATA, ports, 0, false);
  }

  lemma RowCollected(f: Fabric, db: Db, ports: seq<Port>, used: set<nat>, i: nat, paths: nat, badPaths: nat)
    requires SoFar(f, db, ports, used, i, |ports|, paths, badPaths)
    ensures SoFar(f, db, ports, used, i + 1, 0, paths, badPaths)
  {
    hide DbOk, Wired, Sourced, AllSettled, PathSet;
    RowSettled(f, db, ports, i, badPaths == 0);
    RowCounted(f, db, ports, i, true);
    RowCounted(f, db, ports, i, false);
  }

  /** One pair of ports; nothing is done for a port and itself. */
  method CollectPair(f: Fabric, store: RouteStore, ports: seq<Port>, used: set<nat>, i: nat, j: nat, paths: nat,
                     badPaths: nat)
    returns (total: nat, totalBad: nat)
    requires i < |ports| && j < |ports| && FiPort(f, ports[i]) && FiPort(f, ports[j])
    requires SoFar(f, store.View(), ports, used, i, j, paths, badPaths) && (forall sc <- used :: sc < MAX_SCS)
    modifies store
    ensures SoFar(f, store.View(), ports, used, i, j + 1, total, totalBad)
  {
    hide DbOk, Wired, Sourced, AllSettled, PairSettled, PathsSettled, Grows, PairRecorded, FabricOk, PathSet, PathsOf;
    ghost var db, good := store.View(), badPaths == 0;
    GrowsSelf(db);
    NoPairRecorded(f, db, ports[i], ports[j]);
    var more, bad := 0, 0;
    if ports[i] != ports[j] {
      more, bad := GetRoutes(f, store, ports[i], ports[j], used);
      SourcedNext(f, ports, db, store.View(), ports[i], ports[j]);
    }
    total, totalBad := paths + more, badPaths + bad;
    PairCounted(f, db, store.View(), ports, i, j, true, good);
    PairCounted(f, db, store.View(), ports, i, j, false, good);
    PairDone(f, store.View(), ports[i], ports[j], bad == 0, totalBad == 0);
    AllSettledNext(f, db, store.View(), ports, i, j, good, totalBad == 0);
  }

  /** Routing information between all FI ports: every route there is gets recorded, unless the FI leaves
      for the destination by another of its ports, and nothing else is; if no path is bad, every route is
      known. Good and bad paths are counted: good are those whose walk arrives by port numbers in range,
      and for whose LID the FI leaves by no other port in the end. */
  method CollectRoutes(f: Fabric, store: RouteStore, ports: seq<Port>, used: set<nat>)
    returns (paths: nat, badPaths: nat)
    requires FabricOk(f) && store.View() == NO_DATA && (forall sc <- used :: sc < MAX_SCS)
    requires forall i :: 0 <= i < |ports| ==> FiPort(f, ports[i])
    modifies store
    ensures Collected(f, ports, store.View(), used, badPaths == 0)
    ensures paths == |PathSet(f, store.View(), ports, |ports|, 0, true)|
    ensures badPaths == |PathSet(f, store.View(), ports, |ports|, 0, false)|
  {
    hide SoFar, FiPort;
    paths, badPaths := 0, 0;
    NoneCollected(f, ports, used);
    for i := 0 to |ports|
      invariant SoFar(f, store.View(), ports, used, i, 0, paths, badPaths)
    {
      for j := 0 to |ports|
        invariant SoFar(f, store.View(), ports, used, i, j, paths, badPaths)
      {
        paths, badPaths := CollectPair(f, store, ports, used, i, j, paths, badPaths);
      }
      RowCollected(f, store.View(), ports, used, i, paths, badPaths);
    }
    AllCollected(f, store.View(), ports, used, paths, badPaths);
  }

  lemma AllCollected(f: Fabric, db: Db, ports: seq<Port>, used: set<nat>, paths: nat, badPaths: nat)
    requires SoFar(f, db, ports, used, |ports|, 0, paths, badPaths)
    ensures Collected(f, ports, db, used, badPaths == 0)
    ensures paths == |PathSet(f, db, ports, |ports|, 0, true)|
    ensures badPaths == |PathSet(f, db, ports, |ports|, 0, false)|
  {
    hide DbOk, Wired, Sourced, AllSettled, PathSet;
  }
}
