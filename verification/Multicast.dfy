/** WalkMCRoute and ValidateMCRoutes: walk the multicast tables from an edge switch, flagging visited
    switches, and record what is wrong. The report is exact: an incident is recorded if and only if
    some forwarding path ends badly or two paths enter the same switch. */
module MulticastRoutes {
  import opened Fabrics

  const MAX_TREE_HOPS := 64
  const MAX_PORTS := 255
  const MASK_WIDTH := 64
  const LID_OFFSET_MODULUS := 0x4000

  /** The switch data a multicast walk reads for one MLID. `columns` are the port masks of the MLID's
      entry, one per 64 ports; a missing column is a failed table lookup. */
  datatype McTable = McTable(hasFdb: bool, top: nat, cap: nat, columns: seq<set<nat>>)

  datatype McNode = McNode(kind: NodeType, numPorts: nat, enhancedPort0: bool, table: Option<McTable>)

  datatype McPort = McPort(initialized: bool, neighbor: Option<Port>)

  /** `members` are the nodes with a member of the group, `offset` the index of its MLID. */
  datatype McFabric = McFabric(nodes: map<nat, McNode>, ports: map<Port, McPort>, members: set<nat>, offset: nat)

  predicate LinkOk(f: McFabric, p: Port)
    requires p in f.ports
  {
    f.ports[p].neighbor.Some? ==> f.ports[p].neighbor.value in f.ports && f.ports[p].neighbor.value.node in f.nodes
  }

  ghost predicate McFabricOk(f: McFabric) {
    forall p {:trigger LinkOk(f, p)} :: p in f.ports ==> LinkOk(f, p)
  }

  datatype McStatus = McSuccess | McError | McNotDone | McUnavailable | McDuplicate

  datatype Reason = NoTrace | NotAvailable | LoopFound | NoGroup

  datatype PathNode = PathNode(port: Port, entryPort: nat, exitPort: nat)

  datatype Incident = Incident(reason: Reason, path: seq<PathNode>)

  // ---- Where the multicast tables send a packet ----

  /** Standing at a device, having entered it by `port`; `entry` is the entry port number the walk uses,
      0 for the switch's own port 0. */
  datatype Arrival = Arrival(port: Port, entry: nat)

  /** The far end of a usable exit port. */
  function FarEnd(f: McFabric, exit: Port): Option<Port> {
    if exit in f.ports && f.ports[exit].initialized then f.ports[exit].neighbor else None
  }

  predicate HasColumn(t: McTable, x: nat) {
    x / MASK_WIDTH < |t.columns|
  }

  /** The table of switch `n` forwards the group out of port `x`. */
  predicate Forwarded(f: McFabric, n: nat, x: nat) {
    && n in f.nodes && f.nodes[n].table.Some? && x <= f.nodes[n].numPorts
    && var t := f.nodes[n].table.value;
       HasColumn(t, x) && x in t.columns[x / MASK_WIDTH]
  }

  /** An arrival that is forwarded: not at an FI, and not at the switch's own port 0. */
  predicate Through(f: McFabric, a: Arrival, hop: nat) {
    a.port.node in f.nodes && f.nodes[a.port.node].kind == SW && !(hop > 1 && a.entry == 0)
  }

  function Next(f: McFabric, a: Arrival, x: nat): Option<Arrival> {
    if x == 0 then Some(Arrival(a.port, 0))
    else match FarEnd(f, Port(a.port.node, x)) {
      case None => None
      case Some(q) => Some(Arrival(q, q.num))
    }
  }

  /** Where exit ports `w`, taken in order from `start`, lead. None if the tables do not forward so. */
  function Follow(f: McFabric, start: Arrival, w: seq<nat>): Option<Arrival> {
    if w == [] then Some(start) else
    var x := w[|w| - 1];
    match Follow(f, start, w[..|w| - 1]) {
      case None => None
      case Some(a) =>
        if Through(f, a, |w|) && x != a.entry && Forwarded(f, a.port.node, x) then Next(f, a, x) else None
    }
  }

  /** The recorded path of a walk: each device passed with its entry and exit port. */
  function Trail(f: McFabric, start: Arrival, w: seq<nat>): seq<PathNode>
    requires Follow(f, start, w).Some?
  {
    if w == [] then [] else
    var a := Follow(f, start, w[..|w| - 1]).value;
    Trail(f, start, w[..|w| - 1]) + [PathNode(a.port, a.entry, w[|w| - 1])]
  }

  lemma FollowOne(f: McFabric, start: Arrival, w: seq<nat>, x: nat)
    requires Follow(f, start, w).Some?
    requires var a := Follow(f, start, w).value;
             Through(f, a, |w| + 1) && x != a.entry && Forwarded(f, a.port.node, x)
    ensures Follow(f, start, w + [x]) == Next(f, Follow(f, start, w).value, x)
    ensures Follow(f, start, w + [x]).Some? ==>
              var a := Follow(f, start, w).value;
              Trail(f, start, w + [x]) == Trail(f, start, w) + [PathNode(a.port, a.entry, x)]
  {
    assert (w + [x])[..|w + [x]| - 1] == w;
  }

  // ---- When forwarding is right ----

  predicate TableOk(f: McFabric, n: McNode) {
    && n.table.Some? && n.table.value.hasFdb
    && n.table.value.top % LID_OFFSET_MODULUS <= n.table.value.cap
    && f.offset <= n.table.value.top % LID_OFFSET_MODULUS
  }

  predicate AtEnd(f: McFabric, a: Arrival, hop: nat)
    requires a.port.node in f.nodes
  {
    var n := f.nodes[a.port.node];
    n.kind == FI || (hop > 1 && n.kind == SW && a.entry == 0 && n.enhancedPort0)
  }

  /** The exit by `x` has a table column, and a link if the table uses it. */
  predicate ExitOk(f: McFabric, n: nat, x: nat)
    requires n in f.nodes && f.nodes[n].table.Some?
  {
    HasColumn(f.nodes[n].table.value, x) && (Forwarded(f, n, x) && x != 0 ==> FarEnd(f, Port(n, x)).Some?)
  }

  /** Arrival `hop` is right: near enough, and either at a group member or at a switch whose table can
      forward it on. */
  predicate ArrivalOk(f: McFabric, a: Arrival, hop: nat) {
    && hop < MAX_TREE_HOPS && a.port.node in f.nodes
    && if AtEnd(f, a, hop) then a.port.node in f.members
       else
         && Through(f, a, hop) && TableOk(f, f.nodes[a.port.node])
         && ExitsOk(f, a, f.nodes[a.port.node].numPorts + 1)
  }

  predicate ExitsOk(f: McFabric, a: Arrival, bound: nat)
    requires a.port.node in f.nodes && f.nodes[a.port.node].table.Some?
  {
    forall x: nat {:trigger ExitOk(f, a.port.node, x)} :: x < bound && x != a.entry ==> ExitOk(f, a.port.node, x)
  }

  predicate WalkOk(f: McFabric, start: Arrival, w: seq<nat>) {
    Follow(f, start, w).Some? ==> ArrivalOk(f, Follow(f, start, w).value, |w| + 1)
  }

  predicate Enters(f: McFabric, start: Arrival, w: seq<nat>, n: nat) {
    && Follow(f, start, w).Some? && Follow(f, start, w).value.port.node == n
    && Through(f, Follow(f, start, w).value, |w| + 1)
  }

  /** Every forwarding path ends well, and no switch is entered by two paths. */
  ghost predicate Sound(f: McFabric, start: Arrival) {
    && (forall w {:trigger WalkOk(f, start, w)} :: WalkOk(f, start, w))
    && (forall n, w, v {:trigger Enters(f, start, w, n), Enters(f, start, v, n)} ::
          Enters(f, start, w, n) && Enters(f, start, v, n) ==> w == v)
  }

  /** The table lacks the column of port `x`, or names `x` although that port is missing, not initialized or not
      linked. */
  predicate BadExit(f: McFabric, t: McTable, n: nat, x: nat) {
    || x / MASK_WIDTH >= |t.columns|
    || (x != 0 && x in t.columns[x / MASK_WIDTH]
        && (Port(n, x) !in f.ports || !f.ports[Port(n, x)].initialized || f.ports[Port(n, x)].neighbor == None))
  }

  /** What can be wrong where a forwarding path has come to by `hop - 1` exits: it is too long; it ends at an FI
      or at the enhanced port 0 of a switch without a member, or at a plain port 0; or the switch has no table
      that covers the group, or a bad exit. */
  ghost predicate Faulty(f: McFabric, a: Arrival, hop: nat)
    requires a.port.node in f.nodes
  {
    var n := f.nodes[a.port.node];
    || hop >= MAX_TREE_HOPS
    || match n.kind
       case FI => a.port.node !in f.members
       case SW =>
         if a.entry == 0 && hop > 1 then !n.enhancedPort0 || a.port.node !in f.members
         else match n.table
              case None => true
              case Some(t) =>
                || !t.hasFdb || t.top % LID_OFFSET_MODULUS > t.cap || f.offset > t.top % LID_OFFSET_MODULUS
                || exists x: nat :: x <= n.numPorts && x != a.entry && BadExit(f, t, a.port.node, x)
  }

  lemma FaultExact(f: McFabric, a: Arrival, hop: nat)
    requires a.port.node in f.nodes
    ensures ArrivalOk(f, a, hop) <==> !Faulty(f, a, hop)
  {
    var n := f.nodes[a.port.node];
    if n.kind == SW && (a.entry != 0 || hop <= 1) && TableOk(f, n) {
      forall x: nat | x <= n.numPorts
        ensures ExitOk(f, a.port.node, x) <==> !BadExit(f, n.table.value, a.port.node, x)
      {
      }
    }
  }

  ghost predicate FaultyPath(f: McFabric, start: Arrival, w: seq<nat>) {
    && Follow(f, start, w).Some?
    && var a := Follow(f, start, w).value; a.port.node in f.nodes && Faulty(f, a, |w| + 1)
  }

  /** The path `w` enters switch `n` by a link, or starts there. */
  predicate Into(f: McFabric, start: Arrival, w: seq<nat>, n: nat) {
    && Follow(f, start, w).Some?
    && var a := Follow(f, start, w).value;
       a.port.node == n && n in f.nodes && f.nodes[n].kind == SW && (a.entry != 0 || w == [])
  }

  /** Forwarding is sound if and only if no path is faulty, and no two paths go into one switch. */
  lemma SoundExact(f: McFabric, start: Arrival)
    requires McFabricOk(f) && start.port.node in f.nodes
    ensures Sound(f, start) <==>
            && (forall w {:trigger FaultyPath(f, start, w)} :: !FaultyPath(f, start, w))
            && (forall n, w, v {:trigger Into(f, start, w, n), Into(f, start, v, n)} ::
                  Into(f, start, w, n) && Into(f, start, v, n) ==> w == v)
  {
    forall w
      ensures WalkOk(f, start, w) <==> !FaultyPath(f, start, w)
    {
      if Follow(f, start, w).Some? {
        FollowedNode(f, start, w);
        FaultExact(f, Follow(f, start, w).value, |w| + 1);
      }
    }
    forall w, n
      ensures Enters(f, start, w, n) <==> Into(f, start, w, n)
    {
    }
    hide WalkOk, FaultyPath, Enters, Into;
  }

  lemma {:induction false} FollowedNode(f: McFabric, start: Arrival, w: seq<nat>)
    requires McFabricOk(f) && start.port.node in f.nodes && Follow(f, start, w).Some?
    ensures Follow(f, start, w).value.port.node in f.nodes
  {
    if w != [] {
      FollowedNode(f, start, w[..|w| - 1]);
      var a := Follow(f, start, w[..|w| - 1]).value;
      var p := Port(a.port.node, w[|w| - 1]);
      assert p in f.ports ==> LinkOk(f, p);
    }
  }

  /** What is wrong with the walk `w`, about to leave by `x`. */
  ghost predicate Blamed(f: McFabric, start: Arrival, w: seq<nat>, x: nat, reason: Reason)
    requires Follow(f, start, w).Some? && Follow(f, start, w).value.port.node in f.nodes
  {
    var a := Follow(f, start, w).value;
    var n := f.nodes[a.port.node];
    match reason {
      case NoTrace =>
        || |w| + 1 >= MAX_TREE_HOPS
        || (!AtEnd(f, a, |w| + 1) && n.table == None)
        || (Through(f, a, |w| + 1) && x != 0 && x != a.entry && Forwarded(f, a.port.node, x)
            && FarEnd(f, Port(a.port.node, x)).None?)
      case NotAvailable =>
        !AtEnd(f, a, |w| + 1) && n.table.Some?
        && (!TableOk(f, n)
            || exists y: nat {:trigger HasColumn(n.table.value, y)} ::
                 y <= n.numPorts && y != a.entry && !HasColumn(n.table.value, y))
      case LoopFound =>
        Enters(f, start, w, a.port.node) && exists v :: v != w && Enters(f, start, v, a.port.node)
      case NoGroup =>
        if AtEnd(f, a, |w| + 1) then a.port.node !in f.members else a.entry == 0 && |w| > 0
    }
  }

  ghost predicate Shows(f: McFabric, start: Arrival, incident: Incident, w: seq<nat>, x: nat) {
    && Follow(f, start, w).Some? && Follow(f, start, w).value.port.node in f.nodes
    && var a := Follow(f, start, w).value;
       && incident.path == Trail(f, start, w) + [PathNode(a.port, a.entry, x)]
       && Blamed(f, start, w, x, incident.reason)
  }

  /** An incident records a real forwarding path and a real fault at its end. */
  ghost predicate Justified(f: McFabric, start: Arrival, incident: Incident) {
    exists w, x :: Shows(f, start, incident, w, x)
  }

  /** Two walks that enter the same switch. */
  ghost predicate Collide(f: McFabric, start: Arrival, w: seq<nat>, v: seq<nat>, n: nat) {
    Enters(f, start, w, n) && Enters(f, start, v, n) && w != v
  }

  lemma BlamedIsWrong(f: McFabric, start: Arrival, w: seq<nat>, x: nat, reason: Reason)
    requires Follow(f, start, w).Some? && Follow(f, start, w).value.port.node in f.nodes
    requires Blamed(f, start, w, x, reason)
    ensures !WalkOk(f, start, w) || exists v :: Collide(f, start, w, v, Follow(f, start, w).value.port.node)
  {
    var a := Follow(f, start, w).value;
    var n := f.nodes[a.port.node];
    match reason {
      case NoTrace =>
        if |w| + 1 < MAX_TREE_HOPS && !(!AtEnd(f, a, |w| + 1) && n.table == None) {
          assert !ExitOk(f, a.port.node, x);
        }
      case NotAvailable =>
        if TableOk(f, n) {
          var y: nat :| y <= n.numPorts && y != a.entry && !HasColumn(n.table.value, y);
          assert !ExitOk(f, a.port.node, y);
        }
      case LoopFound =>
        var v :| v != w && Enters(f, start, v, a.port.node);
        assert Collide(f, start, w, v, a.port.node);
      case NoGroup =>
    }
  }

  /** Where there is a justified incident, forwarding is not sound. */
  lemma JustifiedUnsound(f: McFabric, start: Arrival, incident: Incident)
    requires Justified(f, start, incident)
    ensures !Sound(f, start)
  {
    var w, x :| Shows(f, start, incident, w, x);
    BlamedIsWrong(f, start, w, x, incident.reason);
  }

  // ---- What a walk without incident has established ----

  /** How each switch was first entered: by which arrival, and by which walk. */
  datatype Reach = Reach(arrival: Arrival, walk: seq<nat>)

  type Tree = map<nat, Reach>

  /** Arrival `a` by walk `w` was right, and a forwarded one is how its switch was entered. */
  predicate Arrived(f: McFabric, tree: Tree, a: Arrival, w: seq<nat>) {
    && ArrivalOk(f, a, |w| + 1)
    && (!AtEnd(f, a, |w| + 1) ==> a.port.node in tree && tree[a.port.node] == Reach(a, w))
  }

  /** The exit of switch `n` by port `x` has been followed, and led to a right arrival. */
  predicate StepOk(f: McFabric, tree: Tree, n: nat, x: nat)
    requires n in tree
  {
    var r := tree[n];
    && Next(f, r.arrival, x).Some?
    && Arrived(f, tree, Next(f, r.arrival, x).value, r.walk + [x])
  }

  /** Every port below `bound` that switch `n` forwards to, its entry port excepted, was followed. */
  predicate DoneBelow(f: McFabric, tree: Tree, n: nat, bound: nat) {
    n in tree && n in f.nodes
    && forall x: nat {:trigger StepOk(f, tree, n, x)} ::
         x < bound && x != tree[n].arrival.entry && Forwarded(f, n, x) ==> StepOk(f, tree, n, x)
  }

  predicate Done(f: McFabric, tree: Tree, n: nat) {
    n in f.nodes && DoneBelow(f, tree, n, f.nodes[n].numPorts + 1)
  }

  predicate Extends(small: Tree, big: Tree) {
    forall n <- small :: n in big && big[n] == small[n]
  }

  predicate Oversized(f: McFabric) {
    exists n <- f.nodes :: f.nodes[n].numPorts > MAX_PORTS
  }

  lemma DoneKept(f: McFabric, small: Tree, big: Tree, n: nat, bound: nat)
    requires Extends(small, big) && DoneBelow(f, small, n, bound)
    ensures DoneBelow(f, big, n, bound)
  {
    forall x: nat | x < bound && x != big[n].arrival.entry && Forwarded(f, n, x)
      ensures StepOk(f, big, n, x)
    {
      assert StepOk(f, small, n, x);
    }
  }

  /** The switches reached were entered by the walks recorded for them. */
  ghost predicate Reached(f: McFabric, start: Arrival, tree: Tree) {
    forall n <- tree ::
      Enters(f, start, tree[n].walk, n) && Follow(f, start, tree[n].walk) == Some(tree[n].arrival)
  }

  /** The switches reached since `before` were reached by walks that begin with `w`; if `clean`, they
      are done. */
  ghost predicate NewDone(f: McFabric, before: Tree, after: Tree, w: seq<nat>, clean: bool) {
    && Extends(before, after)
    && forall n <- after :: n in before || (w <= after[n].walk && (clean ==> Done(f, after, n)))
  }

  /** No switch has been reached by a walk that begins with `w`. */
  ghost predicate Untried(tree: Tree, w: seq<nat>) {
    forall n <- tree :: !(w <= tree[n].walk)
  }

  /** Among the walks that begin with `w`, only `w` itself and those that go on by a port below `x` have
      been tried. */
  ghost predicate TriedBelow(tree: Tree, w: seq<nat>, x: nat) {
    forall n <- tree :: w <= tree[n].walk && w != tree[n].walk ==> tree[n].walk[|w|] < x
  }

  lemma PrefixSplit(w: seq<nat>, x: nat, v: seq<nat>)
    ensures w + [x] <= v ==> w <= v && |w| < |v| && v[|w|] == x
  {
    assert (w + [x])[|w|] == x && w == (w + [x])[..|w|];
  }

  lemma UntriedNext(tree: Tree, w: seq<nat>, x: nat)
    requires TriedBelow(tree, w, x)
    ensures Untried(tree, w + [x])
  {
    forall n | n in tree
      ensures !(w + [x] <= tree[n].walk)
    {
      PrefixSplit(w, x, tree[n].walk);
    }
  }

  /** How far the port loop of the switch entered by `a` on walk `w` has got since `known`: the ports
      below `x` have been tried, and if `clean`, they and all switches behind them are done. */
  ghost predicate Tried(f: McFabric, known: Tree, tree: Tree, a: Arrival, w: seq<nat>, x: nat, clean: bool)
    requires a.port.node in f.nodes && f.nodes[a.port.node].table.Some?
  {
    var n := a.port.node;
    && n in known && known[n] == Reach(a, w) && Extends(known, tree) && TriedBelow(tree, w, x)
    && (forall m <- tree :: m in known || (w <= tree[m].walk && (clean ==> Done(f, tree, m))))
    && (clean ==> DoneBelow(f, tree, n, x) && ExitsOk(f, a, x))
  }

  lemma TriedNone(f: McFabric, tree: Tree, a: Arrival, w: seq<nat>)
    requires a.port.node in f.nodes && f.nodes[a.port.node].table.Some?
    requires a.port.node in tree && tree[a.port.node] == Reach(a, w) && TriedBelow(tree, w, 0)
    ensures Tried(f, tree, tree, a, w, 0, true)
  {
  }

  /** One more port has been tried. */
  lemma TriedNext(f: McFabric, known: Tree, before: Tree, after: Tree, a: Arrival, w: seq<nat>, x: nat, clean: bool,
                  fine: bool)
    requires a.port.node in f.nodes && f.nodes[a.port.node].table.Some?
    requires Tried(f, known, before, a, w, x, clean) && NewDone(f, before, after, w + [x], fine)
    requires clean && fine && x != a.entry ==>
               && ExitOk(f, a.port.node, x)
               && (Forwarded(f, a.port.node, x) ==> a.port.node in after && StepOk(f, after, a.port.node, x))
    ensures Tried(f, known, after, a, w, x + 1, clean && fine)
  {
    hide ExitOk, Forwarded, Next, StepOk;
    var n := a.port.node;
    forall m | m in after
      ensures m in known || (w <= after[m].walk && (clean && fine ==> Done(f, after, m)))
      ensures w <= after[m].walk && w != after[m].walk ==> after[m].walk[|w|] < x + 1
    {
      if m in before {
        if clean && m !in known {
          DoneKept(f, before, after, m, f.nodes[m].numPorts + 1);
        }
      } else {
        PrefixSplit(w, x, after[m].walk);
      }
    }
    if clean && fine {
      DoneKept(f, before, after, n, x);
    }
  }

  lemma TriedUnclean(f: McFabric, known: Tree, tree: Tree, a: Arrival, w: seq<nat>, x: nat, clean: bool)
    requires a.port.node in f.nodes && f.nodes[a.port.node].table.Some? && Tried(f, known, tree, a, w, x, clean)
    ensures Tried(f, known, tree, a, w, x, false)
    ensures Extends(known, tree) && a.port.node in tree && tree[a.port.node] == Reach(a, w) && TriedBelow(tree, w, x)
  {
  }

  lemma ReachedBefore(f: McFabric, start: Arrival, tree: Tree, n: nat, w: seq<nat>)
    requires Reached(f, start, tree) && Untried(tree, w) && n in tree && Enters(f, start, w, n)
    ensures exists v :: v != w && Enters(f, start, v, n)
  {
    assert Enters(f, start, tree[n].walk, n);
  }

  lemma EnterSwitch(f: McFabric, start: Arrival, tree: Tree, n: nat, a: Arrival, w: seq<nat>)
    requires Reached(f, start, tree) && Untried(tree, w)
    requires Enters(f, start, w, n) && Follow(f, start, w) == Some(a)
    ensures var after := tree[n := Reach(a, w)];
            Reached(f, start, after) && TriedBelow(after, w, 0) && Extends(after, after)
  {
  }

  /** Nothing more is known of a switch than that it was flagged and some ports were tried; if `clean`,
      its port loop ran to the end. */
  lemma SwitchDone(f: McFabric, before: Tree, after: Tree, a: Arrival, w: seq<nat>, x: nat, clean: bool)
    requires a.port.node !in before && a.port.node in f.nodes && f.nodes[a.port.node].table.Some?
    requires Tried(f, before[a.port.node := Reach(a, w)], after, a, w, x, clean)
    requires clean ==> x == f.nodes[a.port.node].numPorts + 1 && |w| + 1 < MAX_TREE_HOPS && Through(f, a, |w| + 1)
                       && TableOk(f, f.nodes[a.port.node]) && !AtEnd(f, a, |w| + 1)
    ensures NewDone(f, before, after, w, clean)
    ensures clean ==> Arrived(f, after, a, w)
  {
    var grown := before[a.port.node := Reach(a, w)];
    assert a.port.node in grown;
    forall m | m in before
      ensures m in after && after[m] == before[m]
    {
      assert m in grown && grown[m] == before[m];
    }
  }

  /** Incidents are only added, and justified. */
  ghost predicate Reported(f: McFabric, start: Arrival, before: seq<Incident>, after: seq<Incident>) {
    && before <= after
    && forall i {:trigger after[i]} :: |before| <= i < |after| ==> Justified(f, start, after[i])
  }

  lemma ReportedMore(f: McFabric, start: Arrival, a: seq<Incident>, b: seq<Incident>, c: seq<Incident>)
    requires Reported(f, start, a, b) && Reported(f, start, b, c)
    ensures Reported(f, start, a, c)
    ensures a == c ==> a == b
  {
  }

  lemma NothingNew(f: McFabric, start: Arrival, tree: Tree, w: seq<nat>, incidents: seq<Incident>)
    ensures forall clean :: NewDone(f, tree, tree, w, clean)
    ensures Reported(f, start, incidents, incidents)
  {
  }

  /** If the arrival at the start was right and every switch reached is done, then every walk ends well
      and is the one by which its switch was reached. */
  lemma {:induction false} DoneArrives(f: McFabric, start: Arrival, tree: Tree, w: seq<nat>)
    requires Arrived(f, tree, start, []) && forall n <- tree :: Done(f, tree, n)
    requires Follow(f, start, w).Some?
    ensures Arrived(f, tree, Follow(f, start, w).value, w)
  {
    if w != [] {
      var v, x := w[..|w| - 1], w[|w| - 1];
      DoneArrives(f, start, tree, v);
      var a := Follow(f, start, v).value;
      assert w == v + [x];
      assert !AtEnd(f, a, |w|) && Done(f, tree, a.port.node);
      assert StepOk(f, tree, a.port.node, x);
    }
  }

  lemma AllDoneIsSound(f: McFabric, start: Arrival, tree: Tree)
    requires Arrived(f, tree, start, []) && forall n <- tree :: Done(f, tree, n)
    ensures Sound(f, start)
  {
    forall w
      ensures WalkOk(f, start, w)
    {
      if Follow(f, start, w).Some? {
        DoneArrives(f, start, tree, w);
      }
    }
    forall n, w, v | Enters(f, start, w, n) && Enters(f, start, v, n)
      ensures w == v
    {
      DoneArrives(f, start, tree, w);
      DoneArrives(f, start, tree, v);
    }
  }

  ghost predicate ExpandedOnce(expanded: seq<nat>, visited: set<nat>) {
    && (forall n <- expanded :: n in visited)
    && forall i, j :: 0 <= i < j < |expanded| ==> expanded[i] != expanded[j]
  }

  lemma ExpandNew(expanded: seq<nat>, visited: set<nat>, n: nat)
    requires ExpandedOnce(expanded, visited) && n !in visited
    ensures ExpandedOnce(expanded + [n], visited + {n})
  {
  }

  class McWalk {
    var visited: set<nat>
    var path: seq<PathNode>
    var incidents: seq<Incident>
    var pathCount: nat
    ghost var tree: Tree
    ghost var expanded: seq<nat>  // the switches whose port loop was entered, in order

    constructor ()
      ensures path == [] && incidents == [] && pathCount == 0
    {
      visited, path, incidents, pathCount, tree, expanded := {}, [], [], 0, map[], [];
    }

    /** The visited flags are those of the switches reached, and no port loop was entered twice. */
    ghost predicate Valid(f: McFabric, start: Arrival)
      reads this
    {
      visited == tree.Keys && Reached(f, start, tree) && ExpandedOnce(expanded, visited)
    }

    /** `w` and `x` are the walk recorded in the path, and the fault at its end. */
    method Report(reason: Reason, ghost f: McFabric, ghost start: Arrival, ghost w: seq<nat>, ghost x: nat)
      requires Follow(f, start, w).Some? && Follow(f, start, w).value.port.node in f.nodes
      requires Blamed(f, start, w, x, reason)
      requires var a := Follow(f, start, w).value; path == Trail(f, start, w) + [PathNode(a.port, a.entry, x)]
      modifies `incidents
      ensures incidents == old(incidents) + [Incident(reason, path)] && incidents != old(incidents)
      ensures Reported(f, start, old(incidents), incidents)
    {
      assert Shows(f, start, Incident(reason, path), w, x);
      incidents := incidents + [Incident(reason, path)];
    }

    method RemoveTail()
      requires path != []
      modifies `path
      ensures path == old(path)[..|old(path)| - 1]
    {
      path := path[..|path| - 1];
    }

    /** Reports that the walk ends here and drops the node from the path; the walk may count as one. */
    method GiveUp(reason: Reason, counted: bool, ghost f: McFabric, ghost start: Arrival, ghost w: seq<nat>)
      requires Follow(f, start, w).Some? && Follow(f, start, w).value.port.node in f.nodes
      requires Blamed(f, start, w, 0, reason)
      requires var a := Follow(f, start, w).value; path == Trail(f, start, w) + [PathNode(a.port, a.entry, 0)]
      modifies `incidents, `path, `pathCount
      ensures Reported(f, start, old(incidents), incidents) && incidents != old(incidents)
      ensures path == old(path)[..|old(path)| - 1]
      ensures pathCount == old(pathCount) + if counted then 1 else 0
    {
      hide Blamed, Reported;
      Report(reason, f, start, w, 0);
      RemoveTail();
      if counted {
        pathCount := pathCount + 1;
      }
    }

    /** Walks the multicast route that arrives by walk `w` at port `p`, under entry port number
        `entryPort`. */
    method Walk(f: McFabric, p: Port, hop: nat, entryPort: nat, ghost start: Arrival, ghost w: seq<nat>)
      returns (status: McStatus)
      requires McFabricOk(f) && p.node in f.nodes && hop == |w| + 1
      requires Follow(f, start, w) == Some(Arrival(p, entryPort)) && path == Trail(f, start, w)
      requires Valid(f, start) && Untried(tree, w)
      modifies this
      ensures Valid(f, start) && Reported(f, start, old(incidents), incidents) && old(expanded) <= expanded
      ensures NewDone(f, old(tree), tree, w, status != McError && incidents == old(incidents))
      ensures status != McError ==> path == old(path)
      ensures status == McError ==> Oversized(f)
      ensures status != McError && incidents == old(incidents) ==>
                status == McSuccess && Arrived(f, tree, Arrival(p, entryPort), w)
      decreases (if hop < MAX_TREE_HOPS then MAX_TREE_HOPS - hop else 0), 3
    {
      hide Follow, Trail, Forwarded, FarEnd, Next, Justified, Reached, TriedBelow, Done,
        DoneBelow, ExitsOk, NewDone, Reported, Extends, ExpandedOnce, Tried, Untried;
      NothingNew(f, start, tree, w, incidents);
      path := path + [PathNode(p, entryPort, 0)];
      if hop >= MAX_TREE_HOPS {
        GiveUp(NoTrace, true, f, start, w);
        return McNotDone;
      }
      var n := f.nodes[p.node];
      if (hop > 1 && n.kind == SW && entryPort == 0 && n.enhancedPort0) || n.kind == FI {
        pathCount := pathCount + 1;
        if p.node !in f.members {
          GiveUp(NoGroup, false, f, start, w);
          return McUnavailable;
        }
        RemoveTail();
        return McSuccess;
      }
      if entryPort == 0 && hop > 1 {
        GiveUp(NoGroup, false, f, start, w);
        return McNotDone;
      }
      if n.table == None {
        GiveUp(NoTrace, true, f, start, w);
        return McNotDone;
      }
      var table := n.table.value;
      if !table.hasFdb || table.top % LID_OFFSET_MODULUS > table.cap || f.offset > table.top % LID_OFFSET_MODULUS {
        GiveUp(NotAvailable, true, f, start, w);
        return McUnavailable;
      }
      if p.node in visited {
        ReachedBefore(f, start, tree, p.node, w);
        GiveUp(LoopFound, true, f, start, w);
        return McDuplicate;
      }
      status := WalkSwitch(f, p, hop, entryPort, start, w);
    }

    /** Flags a switch entered for the first time, and walks its ports. */
    method WalkSwitch(f: McFabric, p: Port, hop: nat, entryPort: nat, ghost start: Arrival, ghost w: seq<nat>)
      returns (status: McStatus)
      requires McFabricOk(f) && p.node in f.nodes && hop == |w| + 1 < MAX_TREE_HOPS
      requires Follow(f, start, w) == Some(Arrival(p, entryPort)) && Through(f, Arrival(p, entryPort), hop)
      requires TableOk(f, f.nodes[p.node]) && !AtEnd(f, Arrival(p, entryPort), hop)
      requires path == Trail(f, start, w) + [PathNode(p, entryPort, 0)]
      requires Valid(f, start) && Untried(tree, w) && p.node !in visited
      modifies this
      ensures Valid(f, start) && Reported(f, start, old(incidents), incidents) && old(expanded) <= expanded
      ensures NewDone(f, old(tree), tree, w, status != McError && incidents == old(incidents))
      ensures status != McError ==> path == old(path)[..|old(path)| - 1]
      ensures status == McError ==> Oversized(f)
      ensures status != McError && incidents == old(incidents) ==>
                status == McSuccess && Arrived(f, tree, Arrival(p, entryPort), w)
      decreases MAX_TREE_HOPS - hop, 2
    {
      hide Follow, Trail, Justified, Reached, TriedBelow, NewDone, Reported, Extends, ExpandedOnce, Tried, Untried,
        Arrived, Through, AtEnd;
      NothingNew(f, start, tree, w, incidents);
      ghost var before, a := tree, Arrival(p, entryPort);
      visited := visited + {p.node};
      tree := tree[p.node := Reach(a, w)];
      ExpandNew(expanded, before.Keys, p.node);
      expanded := expanded + [p.node];
      EnterSwitch(f, start, before, p.node, a, w);
      TriedNone(f, tree, a, w);
      if f.nodes[p.node].numPorts > MAX_PORTS {
        TriedUnclean(f, tree, tree, a, w, 0, true);
        SwitchDone(f, before, tree, a, w, 0, false);
        return McError;
      }
      ghost var x;
      status, x := WalkPorts(f, p, hop, entryPort, start, w);
      SwitchDone(f, before, tree, a, w, x, status != McError && incidents == old(incidents));
    }

    /** Follows exit port `x` of a switch being walked. */
    method WalkExit(f: McFabric, p: Port, hop: nat, x: nat, ghost start: Arrival, ghost w: seq<nat>)
      returns (status: McStatus)
      requires McFabricOk(f) && p.node in f.nodes && hop == |w| + 1 < MAX_TREE_HOPS
      requires Follow(f, start, w).Some? && Follow(f, start, w).value.port == p
      requires Through(f, Follow(f, start, w).value, hop) && x != Follow(f, start, w).value.entry
      requires Forwarded(f, p.node, x)
      requires path != [] && path[..|path| - 1] == Trail(f, start, w)
      requires path[|path| - 1].(exitPort := 0) == PathNode(p, Follow(f, start, w).value.entry, 0)
      requires Valid(f, start) && Untried(tree, w + [x])
      requires p.node in tree && tree[p.node] == Reach(Follow(f, start, w).value, w)
      modifies this
      ensures Valid(f, start) && Reported(f, start, old(incidents), incidents) && old(expanded) <= expanded
      ensures NewDone(f, old(tree), tree, w + [x], status != McError && incidents == old(incidents))
      ensures status != McError ==> path == old(path)[|old(path)| - 1 := old(path)[|old(path)| - 1].(exitPort := x)]
      ensures status == McError ==> Oversized(f)
      ensures status != McError && incidents == old(incidents) ==>
                status == McSuccess && p.node in tree && StepOk(f, tree, p.node, x) && ExitOk(f, p.node, x)
      decreases MAX_TREE_HOPS - hop, 0
    {
      hide Trail, Reached, Done, Untried, ArrivalOk, Reported, ExpandedOnce;
      path := path[|path| - 1 := path[|path| - 1].(exitPort := x)];
      FollowOne(f, start, w, x);
      if x == 0 {
        status := Walk(f, p, hop + 1, 0, start, w + [x]);
      } else {
        var exit := Port(p.node, x);
        if exit !in f.ports || !f.ports[exit].initialized || f.ports[exit].neighbor == None {
          NothingNew(f, start, tree, w + [x], incidents);
          Report(NoTrace, f, start, w, x);
          pathCount := pathCount + 1;
          status := McNotDone;
        } else {
          assert LinkOk(f, exit);
          var next := f.ports[exit].neighbor.value;
          status := Walk(f, next, hop + 1, next.num, start, w + [x]);
        }
      }
    }

    /** Where the path stands during the port loop of a switch: at the switch, under the exit port tried
        last. */
    ghost predicate PathAt(f: McFabric, start: Arrival, w: seq<nat>, a: Arrival)
      requires Follow(f, start, w).Some?
      reads this
    {
      && path != [] && path[|path| - 1].(exitPort := 0) == PathNode(a.port, a.entry, 0)
      && path[..|path| - 1] == Trail(f, start, w)
    }

    /** The table has no column for port `x`: the port loop is given up. */
    method NoColumn(f: McFabric, x: nat, ghost start: Arrival, ghost w: seq<nat>)
      requires Follow(f, start, w).Some? && Through(f, Follow(f, start, w).value, |w| + 1)
      requires var a := Follow(f, start, w).value; var n := f.nodes[a.port.node];
               && PathAt(f, start, w, a) && TableOk(f, n) && !AtEnd(f, a, |w| + 1)
               && x <= n.numPorts && x != a.entry && !HasColumn(n.table.value, x)
      modifies `incidents, `path, `pathCount
      ensures Reported(f, start, old(incidents), incidents) && incidents != old(incidents)
      ensures path == Trail(f, start, w)
    {
      Report(NotAvailable, f, start, w, path[|path| - 1].exitPort);
      RemoveTail();
      pathCount := pathCount + 1;
    }

    /** The port loop of a switch just flagged; `x` is the port it stopped before. */
    method WalkPorts(f: McFabric, p: Port, hop: nat, entryPort: nat, ghost start: Arrival, ghost w: seq<nat>)
      returns (status: McStatus, ghost x: nat)
      requires McFabricOk(f) && p.node in f.nodes && hop == |w| + 1 < MAX_TREE_HOPS
      requires Follow(f, start, w) == Some(Arrival(p, entryPort)) && Through(f, Arrival(p, entryPort), hop)
      requires TableOk(f, f.nodes[p.node]) && !AtEnd(f, Arrival(p, entryPort), hop)
      requires path == Trail(f, start, w) + [PathNode(p, entryPort, 0)]
      requires Valid(f, start) && Tried(f, tree, tree, Arrival(p, entryPort), w, 0, true)
      modifies this
      ensures Valid(f, start) && Reported(f, start, old(incidents), incidents) && old(expanded) <= expanded
      ensures Tried(f, old(tree), tree, Arrival(p, entryPort), w, x, status != McError && incidents == old(incidents))
      ensures status != McError ==> path == Trail(f, start, w)
      ensures status == McError ==> Oversized(f)
      ensures status != McError && incidents == old(incidents) ==>
                status == McSuccess && x == f.nodes[p.node].numPorts + 1
      decreases MAX_TREE_HOPS - hop, 1
    {
      hide Follow, Trail, Justified, Reached, Done, TriedBelow, Arrived, ArrivalOk, Reported, Through, AtEnd,
        NewDone, ExpandedOnce, StepOk, Next, Untried, Tried, Extends, Oversized;
      NothingNew(f, start, tree, w, incidents);
      status, x := McSuccess, 0;
      var n := f.nodes[p.node];
      ghost var a := Arrival(p, entryPort);
      ghost var clean := true;
      var ix := 0;
      while ix <= n.numPorts
        invariant 0 <= ix <= n.numPorts + 1 && x == ix && status != McError
        invariant old(expanded) <= expanded
        invariant Valid(f, start) && Reported(f, start, old(incidents), incidents) && PathAt(f, start, w, a)
        invariant clean <==> incidents == old(incidents)
        invariant Tried(f, old(tree), tree, a, w, ix, clean) && (clean ==> status == McSuccess)
      {
        ghost var before, known := tree, incidents;
        NothingNew(f, start, tree, w + [ix], incidents);
        TriedUnclean(f, old(tree), tree, a, w, ix, clean);
        if entryPort != ix {
          if ix / MASK_WIDTH >= |n.table.value.columns| {
            NoColumn(f, ix, start, w);
            ReportedMore(f, start, old(incidents), known, incidents);
            return McUnavailable, ix;
          }
          if ix in n.table.value.columns[ix / MASK_WIDTH] {
            UntriedNext(tree, w, ix);
            status := WalkExit(f, p, hop, ix, start, w);
            ReportedMore(f, start, old(incidents), known, incidents);
          }
        }
        ghost var fine := status != McError && incidents == known;
        TriedNext(f, old(tree), before, tree, a, w, ix, clean, fine);
        if status == McError {
          return status, ix + 1;
        }
        clean := incidents == old(incidents);
        ix := ix + 1;
        x := ix;
      }
      RemoveTail();
    }

    /** Starts over from an edge switch, entered by port `p`: clears the visited flags, and walks.
        Nothing is recorded if and only if forwarding from there is sound. */
    method ValidateMCRoutes(f: McFabric, p: Port, entryPort: nat) returns (status: McStatus)
      requires McFabricOk(f) && p.node in f.nodes
      modifies this
      ensures f.nodes[p.node].table == None ==>
                status == McNotDone && incidents == old(incidents) && pathCount == old(pathCount)
      ensures status == McError ==> Oversized(f)
      ensures Reported(f, Arrival(p, entryPort), old(incidents), incidents)
      ensures status != McError && f.nodes[p.node].table.Some? ==>
                && path == []
                && (incidents == old(incidents) <==> Sound(f, Arrival(p, entryPort)))
                && (incidents == old(incidents) ==> status == McSuccess)
    {
      NothingNew(f, Arrival(p, entryPort), tree, [], incidents);
      if f.nodes[p.node].table == None {
        return McNotDone;
      }
      path, visited, tree, expanded := [], {}, map[], [];
      status := Walk(f, p, 1, entryPort, Arrival(p, entryPort), []);
      if status != McError {
        if incidents == old(incidents) {
          AllDoneIsSound(f, Arrival(p, entryPort), tree);
        } else {
          JustifiedUnsound(f, Arrival(p, entryPort), incidents[|old(incidents)|]);
        }
      }
    }
  }
}
