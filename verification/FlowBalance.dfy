/** TabulateCARoutes: count, per port, the routes that enter and leave it. Routes enter a port only
    over its link, so the counts at the two ends of a link balance, up to the incomplete routes. */
module FlowBalance {
  import opened Fabrics
  import opened RouteWalking
  import opened LidBits

  // ---- The calls of a walk ----

  /** The device reported next is the one at the far end of the exit link. */
  predicate Joined(f: Fabric, a: Hop, b: Hop) {
    a.exit.Some? && Peer(f, a.exit.value).Some? && b.entry == Peer(f, a.exit.value)
  }

  predicate PortsKnown(f: Fabric, h: Hop) {
    (h.entry.Some? ==> h.entry.value in f.ports) && (h.exit.Some? ==> h.exit.value in f.ports)
  }

  /** The calls of a walk that starts at an FI: every device but the first is entered over the link the
      one before was left by. */
  predicate Chain(f: Fabric, t: seq<Hop>) {
    && (t != [] ==> t[0].entry == None)
    && (forall i {:trigger t[i]} :: 0 <= i < |t| ==> PortsKnown(f, t[i]))
    && (forall i {:trigger JoinedAt(f, t, i)} :: 0 <= i && i + 1 < |t| ==> JoinedAt(f, t, i))
  }

  predicate JoinedAt(f: Fabric, t: seq<Hop>, i: int)
    requires 0 <= i && i + 1 < |t|
  {
    Joined(f, t[i], t[i + 1])
  }

  /** The last call left by a link, which no call has entered yet. */
  predicate Dangling(f: Fabric, t: seq<Hop>) {
    t != [] && t[|t| - 1].exit.Some? && Peer(f, t[|t| - 1].exit.value).Some?
  }

  /** The walk has come to `p`: over the link it left by, or to port 0 of the switch it is in. */
  predicate ComeTo(f: Fabric, t: seq<Hop>, p: Port, hops: seq<Port>) {
    && t != [] && t[|t| - 1].exit.Some? && t[|t| - 1].exit.value in f.ports
    && var e := t[|t| - 1].exit.value;
       || Peer(f, e) == Some(p)
       || (hops != [] && Peer(f, e) == None && e == p && p.node in f.nodes && IsSwitch(f, p) && p.num == 0)
  }

  lemma ChainOneMore(f: Fabric, t: seq<Hop>, h: Hop)
    requires Chain(f, t) && t != [] && Joined(f, t[|t| - 1], h) && PortsKnown(f, h)
    ensures Chain(f, t + [h])
  {
    forall i | 0 <= i && i + 1 < |t + [h]|
      ensures JoinedAt(f, t + [h], i)
    {
      if i + 1 < |t| {
        assert JoinedAt(f, t, i);
      }
    }
  }

  lemma {:induction false} WalkFromChain(f: Fabric, p: Port, dlid: nat, sc: nat, vl: nat, hops: seq<Port>,
                                         trace: seq<Hop>)
    requires FabricOk(f) && p in f.ports && p.node in f.nodes && sc < MAX_SCS && |hops| <= MAX_HOPS
    requires Chain(f, trace) && ComeTo(f, trace, p, hops)
    ensures var r := WalkFrom(f, p, dlid, sc, vl, hops, trace);
            Chain(f, r.trace) && (r.outcome == Arrived ==> !Dangling(f, r.trace))
    decreases MAX_HOPS - |hops|
  {
    Neighbor(f, p);
    Neighbor(f, trace[|trace| - 1].exit.value);
    if Stops(f, p, hops == []) {
      if !IsSwitch(f, p) {
        ChainOneMore(f, trace, Hop(Some(p), None, vl));
      }
    } else if |hops| < MAX_HOPS && p !in hops && HasTables(f.nodes[p.node]) {
      match LookupRoute(f, p.node, dlid) {
        case None =>
        case Some(exit) =>
          match NextLane(f, p, exit, sc, vl) {
            case Refused(_) =>
            case Lane(sc', vl') =>
              Neighbor(f, exit);
              NextLaneInRange(f, p, exit, sc, vl);
              var next := Hop(Some(p), Some(exit), vl');
              ChainOneMore(f, trace, next);
              WalkFromChain(f, NextEntry(f, exit).value, dlid, sc', vl', hops + [p], trace + [next]);
          }
      }
    }
  }

  /** A port routes are tabulated from: an FI port with a link. */
  ghost predicate IsStart(f: Fabric, p: Port) {
    CanStart(f, p) && !IsSwitch(f, p)
  }

  lemma WalkChain(f: Fabric, start: Port, dlid: nat)
    requires IsStart(f, start)
    ensures var r := Walk(f, start, dlid, 0);
            Chain(f, r.trace) && (r.outcome == Arrived ==> !Dangling(f, r.trace))
  {
    Neighbor(f, start);
    match FirstLane(f.ports[start], 0) {
      case Refused(_) =>
      case Lane(sc, vl) =>
        WalkFromChain(f, f.ports[start].neighbor.value, dlid, sc, vl, [], [Hop(None, Some(start), vl)]);
    }
  }

  // ---- Counts ----

  function Exits(log: seq<Hop>, p: Port): nat {
    if log == [] then 0 else Exits(log[..|log| - 1], p) + (if log[|log| - 1].exit == Some(p) then 1 else 0)
  }

  function Entries(log: seq<Hop>, p: Port): nat {
    if log == [] then 0 else Entries(log[..|log| - 1], p) + (if log[|log| - 1].entry == Some(p) then 1 else 0)
  }

  lemma {:induction false} CountsAdd(a: seq<Hop>, b: seq<Hop>, p: Port)
    ensures Exits(a + b, p) == Exits(a, p) + Exits(b, p)
    ensures Entries(a + b, p) == Entries(a, p) + Entries(b, p)
    decreases |b|
  {
    if b == [] {
      assert a + b == a;
    } else {
      assert (a + b)[..|a + b| - 1] == a + b[..|b| - 1];
      CountsAdd(a, b[..|b| - 1], p);
    }
  }

  /** In a chain, port `q` is entered as often as its peer has been left, except for the last call. */
  lemma {:induction false} ChainCounts(f: Fabric, t: seq<Hop>, p: Port, q: Port)
    requires FabricOk(f) && Chain(f, t) && Peer(f, p) == Some(q)
    ensures Exits(t, p) == Entries(t, q) + (if t != [] && t[|t| - 1].exit == Some(p) then 1 else 0)
  {
    if t != [] {
      var s := t[..|t| - 1];
      assert Chain(f, s) by {
        forall i | 0 <= i && i + 1 < |s|
          ensures JoinedAt(f, s, i)
        {
          assert JoinedAt(f, t, i);
        }
      }
      ChainCounts(f, s, p, q);
      if s != [] {
        assert JoinedAt(f, t, |s| - 1);
        Neighbor(f, p);
        Neighbor(f, s[|s| - 1].exit.value);
      }
    }
  }

  // ---- Runs of walks ----

  /** One walk: where it starts, its destination LID, and whether that is the base LID. */
  datatype Job = Job(start: Port, dlid: nat, isBase: bool)

  ghost predicate JobsOk(f: Fabric, jobs: seq<Job>) {
    forall j <- jobs :: IsStart(f, j.start)
  }

  ghost function Result(f: Fabric, j: Job): WalkResult
    requires IsStart(f, j.start)
  {
    Walk(f, j.start, j.dlid, 0)
  }

  /** All callback calls of a run, or those of its base LID walks. */
  ghost function Log(f: Fabric, jobs: seq<Job>, baseOnly: bool): seq<Hop>
    requires JobsOk(f, jobs)
  {
    if jobs == [] then []
    else
      var j := jobs[|jobs| - 1];
      Log(f, jobs[..|jobs| - 1], baseOnly) + (if baseOnly && !j.isBase then [] else Result(f, j).trace)
  }

  ghost function Bad(f: Fabric, jobs: seq<Job>): nat
    requires JobsOk(f, jobs)
  {
    if jobs == [] then 0
    else Bad(f, jobs[..|jobs| - 1]) + (if StatusOf(Result(f, jobs[|jobs| - 1]).outcome) == NotDone then 1 else 0)
  }

  /** The walks of a run that do not arrive. */
  ghost function Incomplete(f: Fabric, jobs: seq<Job>): set<nat>
    requires JobsOk(f, jobs)
  {
    set i: nat | i < |jobs| && Result(f, jobs[i]).outcome != Arrived
  }

  lemma {:induction false} BadCount(f: Fabric, jobs: seq<Job>)
    requires JobsOk(f, jobs) && AllAvailable(f, jobs)
    ensures Bad(f, jobs) == |Incomplete(f, jobs)|
  {
    hide Walk;
    if jobs != [] {
      var n := |jobs| - 1;
      BadCount(f, jobs[..n]);
      assert Incomplete(f, jobs)
          == Incomplete(f, jobs[..n]) + (if Result(f, jobs[n]).outcome != Arrived then {n} else {});
    }
  }

  ghost predicate AllAvailable(f: Fabric, jobs: seq<Job>)
    requires JobsOk(f, jobs)
  {
    forall j <- jobs :: Result(f, j).outcome != NoTables
  }

  /** How much more often `p` was left than its peer was entered. */
  function Excess(f: Fabric, log: seq<Hop>, p: Port): int
    requires Peer(f, p).Some?
  {
    Exits(log, p) - Entries(log, Peer(f, p).value)
  }

  ghost predicate LinkedPorts(f: Fabric, ps: seq<Port>) {
    (forall p <- ps :: Peer(f, p).Some?) && forall i, j :: 0 <= i < j < |ps| ==> ps[i] != ps[j]
  }

  ghost function TotalExcess(f: Fabric, log: seq<Hop>, ps: seq<Port>): int
    requires LinkedPorts(f, ps)
  {
    if ps == [] then 0 else TotalExcess(f, log, ps[..|ps| - 1]) + Excess(f, log, ps[|ps| - 1])
  }

  lemma {:induction false} TotalAdds(f: Fabric, a: seq<Hop>, b: seq<Hop>, ps: seq<Port>)
    requires LinkedPorts(f, ps)
    ensures TotalExcess(f, a + b, ps) == TotalExcess(f, a, ps) + TotalExcess(f, b, ps)
  {
    if ps != [] {
      var p := ps[|ps| - 1];
      TotalAdds(f, a, b, ps[..|ps| - 1]);
      CountsAdd(a, b, p);
      CountsAdd(a, b, Peer(f, p).value);
    }
  }

  /** One walk leaves at most one link unentered: none if it arrived. */
  lemma {:induction false} ChainExcess(f: Fabric, t: seq<Hop>, ps: seq<Port>)
    requires FabricOk(f) && Chain(f, t) && LinkedPorts(f, ps)
    ensures TotalExcess(f, t, ps) == if Dangling(f, t) && t[|t| - 1].exit.value in ps then 1 else 0
  {
    if ps != [] {
      var p := ps[|ps| - 1];
      ChainExcess(f, t, ps[..|ps| - 1]);
      ChainCounts(f, t, p, Peer(f, p).value);
    }
  }

  /** For any run of walks, and any set of links: every link was entered at most as often as left, and
      the differences add up to at most the number of walks that did not arrive. */
  lemma {:induction false} FlowBalances(f: Fabric, jobs: seq<Job>, baseOnly: bool, ps: seq<Port>)
    requires FabricOk(f) && JobsOk(f, jobs) && AllAvailable(f, jobs) && LinkedPorts(f, ps)
    ensures 0 <= TotalExcess(f, Log(f, jobs, baseOnly), ps) <= Bad(f, jobs)
  {
    if jobs == [] {
      assert Chain(f, []);
      ChainExcess(f, [], ps);
    } else {
      var j := jobs[|jobs| - 1];
      FlowBalances(f, jobs[..|jobs| - 1], baseOnly, ps);
      WalkChain(f, j.start, j.dlid);
      var t := if baseOnly && !j.isBase then [] else Result(f, j).trace;
      TotalAdds(f, Log(f, jobs[..|jobs| - 1], baseOnly), t, ps);
      ChainExcess(f, t, ps);
    }
  }

  /** Link by link: no link is entered more often than left, and with no incomplete route every link
      balances. */
  lemma LinkBalances(f: Fabric, jobs: seq<Job>, baseOnly: bool, p: Port, q: Port)
    requires FabricOk(f) && JobsOk(f, jobs) && AllAvailable(f, jobs) && Peer(f, p) == Some(q)
    ensures var log := Log(f, jobs, baseOnly);
            && Entries(log, q) <= Exits(log, p) <= Entries(log, q) + Bad(f, jobs)
            && (Bad(f, jobs) == 0 ==> Exits(log, p) == Entries(log, q))
  {
    FlowBalances(f, jobs, baseOnly, [p]);
    assert [p][..0] == [];
    assert TotalExcess(f, Log(f, jobs, baseOnly), [p]) == Excess(f, Log(f, jobs, baseOnly), p);
  }

  // ---- Which walks are made ----

  /** The walks from `p` to the LIDs of `q`. Their number comes from the LMC of `p`. */
  function JobsOf(f: Fabric, p: Port, q: Port): seq<Job>
    requires p in f.ports && q in f.ports
  {
    seq(Pow2(f.ports[p].lmc), i requires 0 <= i => Job(p, BitOr(f.ports[q].lid, i), i == 0))
  }

  /** Walks from `p` to the LIDs of `q`: the base LID, then that LID with the bits of each offset set. */
  ghost predicate ToLids(f: Fabric, p: Port, q: Port, jobs: seq<Job>)
    requires q in f.ports
  {
    forall i | 0 <= i < |jobs| ::
      && jobs[i].start == p && (jobs[i].isBase <==> i == 0)
      && forall k: nat :: Bit(jobs[i].dlid, k) <==> Bit(f.ports[q].lid, k) || Bit(i, k)
  }

  predicate Aligned(f: Fabric, q: Port)
    requires q in f.ports
  {
    f.ports[q].lid % Pow2(f.ports[q].lmc) == 0
  }

  /** Walks from `p` to the LIDs that `q` holds, one after the other. */
  predicate ToOwnLids(f: Fabric, p: Port, q: Port, jobs: seq<Job>)
    requires q in f.ports
  {
    forall i :: 0 <= i < |jobs| ==>
      && jobs[i].start == p && jobs[i].dlid == f.ports[q].lid + i && (jobs[i].isBase <==> i == 0)
      && Holds(f, q, jobs[i].dlid)
  }

  lemma JobLids(f: Fabric, p: Port, q: Port)
    requires p in f.ports && q in f.ports
    ensures ToLids(f, p, q, JobsOf(f, p, q)) && |JobsOf(f, p, q)| == Pow2(f.ports[p].lmc)
    ensures JobsOf(f, p, q)[0] == Job(p, f.ports[q].lid, true)
    ensures Aligned(f, q) && f.ports[p].lmc <= f.ports[q].lmc ==> ToOwnLids(f, p, q, JobsOf(f, p, q))
  {
    hide BitOr, Bit, Pow2;
    OrZero(f.ports[q].lid, 0);
    forall i | 0 <= i < |JobsOf(f, p, q)|
      ensures forall k: nat :: Bit(JobsOf(f, p, q)[i].dlid, k) <==> Bit(f.ports[q].lid, k) || Bit(i, k)
    {
      forall k: nat {
        OrBits(f.ports[q].lid, i, k);
      }
    }
    if Aligned(f, q) && f.ports[p].lmc <= f.ports[q].lmc {
      Pow2Grows(f.ports[p].lmc, f.ports[q].lmc);
      var jobs := JobsOf(f, p, q);
      forall i | 0 <= i < |jobs|
        ensures jobs[i].dlid == f.ports[q].lid + i && Holds(f, q, jobs[i].dlid)
      {
        OrAligned(f.ports[q].lid, i, f.ports[q].lmc);
      }
    }
  }

  lemma FirstLids(f: Fabric, p: Port, q: Port, n: nat)
    requires p in f.ports && q in f.ports && n <= |JobsOf(f, p, q)|
    ensures ToLids(f, p, q, JobsOf(f, p, q)[..n])
    ensures Aligned(f, q) && f.ports[p].lmc <= f.ports[q].lmc ==> ToOwnLids(f, p, q, JobsOf(f, p, q)[..n])
  {
    hide BitOr, Bit, Pow2, Aligned, Holds, JobsOf;
    JobLids(f, p, q);
  }

  type Pairs = seq<(Port, Port)>

  ghost predicate PairsOk(f: Fabric, pairs: Pairs) {
    forall pair <- pairs :: IsStart(f, pair.0) && pair.1 in f.ports
  }

  ghost function JobsFor(f: Fabric, pairs: Pairs): (jobs: seq<Job>)
    requires PairsOk(f, pairs)
    ensures JobsOk(f, jobs)
  {
    if pairs == [] then [] else JobsFor(f, pairs[..|pairs| - 1]) + JobsOf(f, pairs[|pairs| - 1].0, pairs[|pairs| - 1].1)
  }

  /** From `p` to each of `qs`, loopback paths excepted. */
  function Row(p: Port, qs: seq<Port>): Pairs {
    if qs == [] then []
    else Row(p, qs[..|qs| - 1]) + (if qs[|qs| - 1] == p then [] else [(p, qs[|qs| - 1])])
  }

  function Grid(ps: seq<Port>, qs: seq<Port>): Pairs {
    if ps == [] then [] else Grid(ps[..|ps| - 1], qs) + Row(ps[|ps| - 1], qs)
  }

  function PortsOf(l: Lists, ns: seq<nat>): seq<Port>
    requires forall n <- ns :: n in l.ports
  {
    if ns == [] then [] else PortsOf(l, ns[..|ns| - 1]) + l.ports[ns[|ns| - 1]]
  }

  /** Which FIs a report is about: all, those of a list of ports, or node by node of two lists. `single`
      says that the focus names one port, node or IOC only. */
  datatype Focus = AllFis | FiPorts(ports: seq<Port>, single: bool) | NodePairs(left: seq<nat>, right: seq<nat>)

  predicate IsFi(f: Fabric, n: nat)
    requires n in f.nodes
  {
    f.nodes[n].kind == FI
  }

  predicate NodesKnown(f: Fabric, l: Lists, ns: seq<nat>) {
    forall n <- ns :: n in f.nodes && n in l.ports
  }

  function NodeGrid(f: Fabric, l: Lists, left: seq<nat>, right: seq<nat>): Pairs
    requires |left| == |right| && NodesKnown(f, l, left) && NodesKnown(f, l, right)
    decreases |left|
  {
    if left == [] then []
    else
      var i := |left| - 1;
      NodeGrid(f, l, left[..i], right[..i])
      + (if IsFi(f, left[i]) && IsFi(f, right[i]) then Grid(l.ports[left[i]], l.ports[right[i]]) else [])
  }

  ghost predicate FocusOk(f: Fabric, l: Lists, focus: Focus) {
    match focus
    case AllFis => true
    case FiPorts(ports, _) => forall p <- ports :: p in f.ports && IsNode(f, p.node, FI)
    case NodePairs(left, right) => NodesKnown(f, l, left) && NodesKnown(f, l, right)
  }

  function PairsOf(f: Fabric, l: Lists, focus: Focus): Pairs
    requires FocusOk(f, l, focus) && ListsOk(f, l)
    requires focus.NodePairs? ==> |focus.left| == |focus.right|
  {
    match focus
    case AllFis => (assert forall n <- l.fis :: IsNode(f, n, FI); Grid(PortsOf(l, l.fis), PortsOf(l, l.fis)))
    case FiPorts(ports, _) => Grid(ports, ports)
    case NodePairs(left, right) => NodeGrid(f, l, left, right)
  }

  lemma LogOneMore(f: Fabric, jobs: seq<Job>, j: Job)
    requires JobsOk(f, jobs) && IsStart(f, j.start)
    ensures JobsOk(f, jobs + [j])
    ensures Log(f, jobs + [j], false) == Log(f, jobs, false) + Result(f, j).trace
    ensures Log(f, jobs + [j], true) == Log(f, jobs, true) + (if j.isBase then Result(f, j).trace else [])
  {
    assert (jobs + [j])[..|jobs|] == jobs;
  }

  /** Job `i` of a plan is the first that finds no tables; `total` and `bad` are counts of those before. */
  ghost predicate StopsAt(f: Fabric, plan: seq<Job>, i: nat, total: nat, bad: nat)
    requires JobsOk(f, plan)
  {
    && i < |plan| && AllAvailable(f, plan[..i]) && Result(f, plan[i]).outcome == NoTables
    && total == i && bad == Bad(f, plan[..i])
  }

  lemma NoJobs(f: Fabric, plan: seq<Job>)
    requires JobsOk(f, plan)
    ensures AllAvailable(f, plan[..0]) && Bad(f, plan[..0]) == 0
  {
  }

  /** Progress through a plan. */
  lemma JobPlan(f: Fabric, plan: seq<Job>, i: nat)
    requires JobsOk(f, plan) && i < |plan|
    ensures var o := StatusOf(Result(f, plan[i]).outcome);
            && (AllAvailable(f, plan[..i + 1]) <==> AllAvailable(f, plan[..i]) && o != Unavailable)
            && (AllAvailable(f, plan) ==> o != Unavailable)
            && Bad(f, plan[..i + 1]) == Bad(f, plan[..i]) + (if o == NotDone then 1 else 0)
            && plan[..i + 1] == plan[..i] + [plan[i]]
  {
    assert plan[..i + 1][..i] == plan[..i];
  }

  // ---- The counters ----

  /** Counters of one port: all routes, and those to base LIDs. */
  datatype Counters = Counters(recvAll: nat, recvBase: nat, xmitAll: nat, xmitBase: nat)

  datatype TabStatus = TabSuccess | TabUnavailable | TabInvalid

  class FlowTable {
    var counters: map<Port, Counters>
    ghost var jobs: seq<Job>

    constructor ()
    {
      counters := map[];
      jobs := [];
    }

    ghost predicate Valid(f: Fabric)
      reads this
    {
      JobsOk(f, jobs) && Counted(f, counters, Log(f, jobs, false), Log(f, jobs, true))
    }

    method ClearAnalysisData(f: Fabric)
      modifies this
      ensures Valid(f) && jobs == []
    {
      counters := map p | p in f.ports :: Counters(0, 0, 0, 0);
      jobs := [];
    }

    method TabulateRouteCallback(f: Fabric, h: Hop, isBase: bool, ghost log: seq<Hop>, ghost baseLog: seq<Hop>)
      requires Counted(f, counters, log, baseLog) && PortsKnown(f, h)
      modifies `counters
      ensures Counted(f, counters, log + [h], if isBase then baseLog + [h] else baseLog)
    {
      hide Exits, Entries;
      if h.entry.Some? {
        var c := counters[h.entry.value];
        counters := counters[h.entry.value := c.(recvAll := c.recvAll + 1,
                                                 recvBase := if isBase then c.recvBase + 1 else c.recvBase)];
      }
      if h.exit.Some? {
        var c := counters[h.exit.value];
        counters := counters[h.exit.value := c.(xmitAll := c.xmitAll + 1,
                                                xmitBase := if isBase then c.xmitBase + 1 else c.xmitBase)];
      }
      CountOneMore(f, log, h);
      CountOneMore(f, baseLog, h);
    }

    /** The callback calls of one walk. */
    method Callbacks(f: Fabric, trace: seq<Hop>, isBase: bool, ghost log: seq<Hop>, ghost baseLog: seq<Hop>)
      requires Counted(f, counters, log, baseLog) && forall i | 0 <= i < |trace| :: PortsKnown(f, trace[i])
      modifies `counters
      ensures Counted(f, counters, log + trace, baseLog + (if isBase then trace else []))
    {
      hide Counted;
      assert log + trace[..0] == log && baseLog + [] == baseLog;
      var i := 0;
      while i < |trace|
        invariant 0 <= i <= |trace|
        invariant Counted(f, counters, log + trace[..i], baseLog + (if isBase then trace[..i] else []))
      {
        TabulateRouteCallback(f, trace[i], isBase, log + trace[..i], baseLog + (if isBase then trace[..i] else []));
        assert trace[..i + 1] == trace[..i] + [trace[i]];
        assert log + trace[..i] + [trace[i]] == log + trace[..i + 1];
        assert isBase ==> baseLog + trace[..i] + [trace[i]] == baseLog + trace[..i + 1];
        i := i + 1;
      }
      assert trace[..i] == trace;
    }

    /** One walk with its callback calls. */
    method TabulateWalk(f: Fabric, j: Job) returns (status: Status)
      requires Valid(f) && IsStart(f, j.start)
      modifies this
      ensures Valid(f) && jobs == old(jobs) + [j]
      ensures status == StatusOf(Result(f, j).outcome)
    {
      hide Walk, Counted, FabricOk, Log, JoinedAt, StatusOf;
      var outcome, trace := WalkRoutePort(f, j.start, j.dlid, 0);
      WalkChain(f, j.start, j.dlid);
      LogOneMore(f, jobs, j);
      Callbacks(f, trace, j.isBase, Log(f, jobs, false), Log(f, jobs, true));
      jobs := jobs + [j];
      status := StatusOf(outcome);
    }

    /** All walks from `p` to the LIDs of `q`, up to the first that finds no tables: to the base LID with the
        bits of each offset set, which are the LIDs of `q` in turn if that LID is aligned and `q` has no
        fewer of them than `p`. */
    method TabulateRoutes(f: Fabric, p: Port, q: Port) returns (status: TabStatus, total: nat, bad: nat)
      requires Valid(f) && IsStart(f, p) && q in f.ports
      modifies this
      ensures Valid(f) && old(jobs) <= jobs
      ensures status == if AllAvailable(f, JobsOf(f, p, q)) then TabSuccess else TabUnavailable
      ensures status == TabSuccess ==>
                jobs == old(jobs) + JobsOf(f, p, q) && total == |JobsOf(f, p, q)| && bad == Bad(f, JobsOf(f, p, q))
      ensures status == TabUnavailable ==>
                exists i: nat ::
                  StopsAt(f, JobsOf(f, p, q), i, total, bad) && jobs == old(jobs) + JobsOf(f, p, q)[..i + 1]
      ensures ToLids(f, p, q, jobs[|old(jobs)|..])
      ensures Aligned(f, q) && f.ports[p].lmc <= f.ports[q].lmc ==> ToOwnLids(f, p, q, jobs[|old(jobs)|..])
      ensures status == TabSuccess ==>
                total == Pow2(f.ports[p].lmc) && bad == |Incomplete(f, jobs[|old(jobs)|..])|
    {
      hide Log, Counted, Walk, BitOr, AllAvailable, Bad, Aligned, ToLids, ToOwnLids, Incomplete, Holds;
      JobLids(f, p, q);
      total, bad := 0, 0;
      ghost var plan := JobsOf(f, p, q);
      NoJobs(f, plan);
      var count := Pow2(f.ports[p].lmc);
      JobPlan(f, plan, 0);
      var walk := TabulateWalk(f, Job(p, f.ports[q].lid, true));
      if walk == Unavailable {
        assert StopsAt(f, plan, 0, total, bad);
        FirstLids(f, p, q, 1);
        assert jobs[|old(jobs)|..] == plan[..1];
        return TabUnavailable, total, bad;
      }
      total := total + 1;
      if walk == NotDone {
        bad := bad + 1;
      }
      var offset := 1;
      while offset < count
        invariant 1 <= offset <= count && Valid(f) && jobs == old(jobs) + plan[..offset]
        invariant AllAvailable(f, plan[..offset]) && total == offset && bad == Bad(f, plan[..offset])
      {
        JobPlan(f, plan, offset);
        walk := TabulateWalk(f, Job(p, BitOr(f.ports[q].lid, offset), false));
        if walk == Unavailable {
          assert StopsAt(f, plan, offset, total, bad);
          FirstLids(f, p, q, offset + 1);
          assert jobs[|old(jobs)|..] == plan[..offset + 1];
          return TabUnavailable, total, bad;
        }
        total := total + 1;
        if walk == NotDone {
          bad := bad + 1;
        }
        offset := offset + 1;
      }
      assert plan[..offset] == plan == jobs[|old(jobs)|..];
      BadCount(f, plan);
      return TabSuccess, total, bad;
    }

    /** One pair of ports, unless they are the same. `done` are the pairs before, `plan` all pairs. */
    method TabulatePair(f: Fabric, p: Port, q: Port, totalPaths: nat, badPaths: nat, ghost done: Pairs,
                        ghost plan: Pairs)
      returns (status: TabStatus, total: nat, bad: nat)
      requires Valid(f) && PairsOk(f, plan) && done + Row(p, [q]) <= plan && IsStart(f, p) && q in f.ports
      requires Ran(f, jobs, done, totalPaths, badPaths)
      modifies this
      ensures Valid(f)
      ensures status == TabSuccess || (status == TabUnavailable && !AllAvailable(f, JobsFor(f, plan)))
      ensures status == TabSuccess ==> Ran(f, jobs, done + Row(p, [q]), total, bad)
    {
      hide Log, Counted, Walk, Bad, AllAvailable, JobsFor, Row, IsStart;
      RowOfOne(p, q);
      if p == q {
        assert done + [] == done;
        return TabSuccess, totalPaths, badPaths;
      }
      var pathCount, badPathCount;
      status, pathCount, badPathCount := TabulateRoutes(f, p, q);
      if status == TabSuccess {
        RanOneMore(f, jobs, done, totalPaths, badPaths, p, q);
      } else {
        Unavailing(f, done, p, q, plan);
      }
      total, bad := totalPaths + pathCount, badPaths + badPathCount;
    }

    method TabulateRow(f: Fabric, p: Port, qs: seq<Port>, totalPaths: nat, badPaths: nat, ghost done: Pairs,
                       ghost plan: Pairs)
      returns (status: TabStatus, total: nat, bad: nat)
      requires Valid(f) && PairsOk(f, plan) && done + Row(p, qs) <= plan && IsStart(f, p)
      requires forall q <- qs :: q in f.ports
      requires Ran(f, jobs, done, totalPaths, badPaths)
      modifies this
      ensures Valid(f)
      ensures status == TabSuccess || (status == TabUnavailable && !AllAvailable(f, JobsFor(f, plan)))
      ensures status == TabSuccess ==> Ran(f, jobs, done + Row(p, qs), total, bad)
    {
      hide Ran, JobsFor, AllAvailable, IsStart;
      total, bad := totalPaths, badPaths;
      var k := 0;
      assert done + Row(p, qs[..0]) == done;
      while k < |qs|
        invariant 0 <= k <= |qs| && Valid(f) && done + Row(p, qs[..k]) <= plan
        invariant Ran(f, jobs, done + Row(p, qs[..k]), total, bad)
      {
        RowStep(p, qs, k);
        assert done + Row(p, qs[..k]) + Row(p, [qs[k]]) == done + Row(p, qs[..k + 1]);
        status, total, bad := TabulatePair(f, p, qs[k], total, bad, done + Row(p, qs[..k]), plan);
        if status == TabUnavailable {
          return;
        }
        k := k + 1;
      }
      assert qs[..k] == qs;
      status := TabSuccess;
    }

    method TabulateGrid(f: Fabric, ps: seq<Port>, qs: seq<Port>, totalPaths: nat, badPaths: nat, ghost done: Pairs,
                        ghost plan: Pairs)
      returns (status: TabStatus, total: nat, bad: nat)
      requires Valid(f) && PairsOk(f, plan) && done + Grid(ps, qs) <= plan
      requires (forall p <- ps :: IsStart(f, p)) && forall q <- qs :: q in f.ports
      requires Ran(f, jobs, done, totalPaths, badPaths)
      modifies this
      ensures Valid(f)
      ensures status == TabSuccess || (status == TabUnavailable && !AllAvailable(f, JobsFor(f, plan)))
      ensures status == TabSuccess ==> Ran(f, jobs, done + Grid(ps, qs), total, bad)
    {
      hide Ran, JobsFor, AllAvailable, IsStart;
      total, bad := totalPaths, badPaths;
      var i := 0;
      assert done + Grid(ps[..0], qs) == done;
      while i < |ps|
        invariant 0 <= i <= |ps| && Valid(f)
        invariant Ran(f, jobs, done + Grid(ps[..i], qs), total, bad)
      {
        GridStep(ps, qs, i);
        assert done + Grid(ps[..i], qs) + Row(ps[i], qs) == done + Grid(ps[..i + 1], qs);
        status, total, bad := TabulateRow(f, ps[i], qs, total, bad, done + Grid(ps[..i], qs), plan);
        if status == TabUnavailable {
          return;
        }
        i := i + 1;
      }
      assert ps[..i] == ps;
      status := TabSuccess;
    }

    /** From one port to the ports of all FIs. */
    method TabulateFrom(f: Fabric, l: Lists, p: Port, totalPaths: nat, badPaths: nat, ghost done: Pairs,
                        ghost plan: Pairs)
      returns (status: TabStatus, total: nat, bad: nat)
      requires ListsOk(f, l) && FisKnown(f, l)
      requires Valid(f) && PairsOk(f, plan) && done + Row(p, PortsOf(l, l.fis)) <= plan && IsStart(f, p)
      requires Ran(f, jobs, done, totalPaths, badPaths)
      modifies this
      ensures Valid(f)
      ensures status == TabSuccess || (status == TabUnavailable && !AllAvailable(f, JobsFor(f, plan)))
      ensures status == TabSuccess ==> Ran(f, jobs, done + Row(p, PortsOf(l, l.fis)), total, bad)
    {
      hide Ran, JobsFor, AllAvailable, IsStart, Row, ListsOk;
      total, bad := totalPaths, badPaths;
      var k := 0;
      PortsStart(l, p, done);
      while k < |l.fis|
        invariant 0 <= k <= |l.fis| && Valid(f)
        invariant Ran(f, jobs, done + Row(p, PortsOf(l, l.fis[..k])), total, bad)
      {
        var n := l.fis[k];
        PortsStep(l, l.fis, k);
        RowPrefix(p, PortsOf(l, l.fis[..k]), l.ports[n], PortsOf(l, l.fis));
        assert done + Row(p, PortsOf(l, l.fis[..k])) + Row(p, l.ports[n]) == done + Row(p, PortsOf(l, l.fis[..k + 1]));
        status, total, bad := TabulateRow(f, p, l.ports[n], total, bad, done + Row(p, PortsOf(l, l.fis[..k])), plan);
        if status == TabUnavailable {
          return;
        }
        k := k + 1;
      }
      assert l.fis[..k] == l.fis;
      status := TabSuccess;
    }

    /** All walks between the FIs in focus. */
    method TabulateCARoutes(f: Fabric, l: Lists, focus: Focus) returns (status: TabStatus, total: nat, bad: nat)
      requires FabricOk(f) && ListsOk(f, l) && FocusOk(f, l, focus) && FisLinked(f)
      modifies this
      ensures status == TabInvalid <==>
                (focus.FiPorts? && focus.single) || (focus.NodePairs? && |focus.left| != |focus.right|)
      ensures status != TabInvalid ==>
                && PairsOk(f, PairsOf(f, l, focus))
                && (forall p, q :: (p, q) in PairsOf(f, l, focus) <==> InFocus(f, focus, p, q))
                && (status == TabSuccess <==> AllAvailable(f, JobsFor(f, PairsOf(f, l, focus))))
      ensures status == TabSuccess ==>
                && Valid(f) && Ran(f, jobs, PairsOf(f, l, focus), total, bad) && bad == |Incomplete(f, jobs)|
                && CountsCalls(f, counters, jobs) && Balanced(f, counters, bad)
    {
      hide CountsCalls, Incomplete, InFocus, Walk;
      total, bad := 0, 0;
      ClearAnalysisData(f);
      assert Ran(f, jobs, [], 0, 0);
      if focus.NodePairs? && |focus.left| != |focus.right| {
        return TabInvalid, total, bad;
      }
      if focus.FiPorts? && focus.single {
        return TabInvalid, total, bad;
      }
      ghost var plan := PairsOf(f, l, focus);
      PairsOfOk(f, l, focus);
      forall p, q {
        PairsExact(f, l, focus, p, q);
      }
      match focus {
        case NodePairs(left, right) =>
          status, total, bad := TabulateNodePairs(f, l, left, right, plan);
        case FiPorts(ports, _) =>
          assert [] + Grid(ports, ports) == plan;
          status, total, bad := TabulateGrid(f, ports, ports, total, bad, [], plan);
        case AllFis =>
          status, total, bad := TabulateAllFis(f, l, plan);
      }
      if status == TabSuccess {
        CountersBalance(f, counters, jobs);
        CountersCount(f, counters, jobs);
        BadCount(f, jobs);
      }
    }

    method TabulateNodePairs(f: Fabric, l: Lists, left: seq<nat>, right: seq<nat>, ghost plan: Pairs)
      returns (status: TabStatus, total: nat, bad: nat)
      requires FabricOk(f) && ListsOk(f, l) && FocusOk(f, l, NodePairs(left, right)) && FisLinked(f)
      requires Valid(f) && |left| == |right| && plan == NodeGrid(f, l, left, right) && PairsOk(f, plan)
      requires Ran(f, jobs, [], 0, 0)
      modifies this
      ensures Valid(f)
      ensures status == TabSuccess || (status == TabUnavailable && !AllAvailable(f, JobsFor(f, plan)))
      ensures status == TabSuccess ==> Ran(f, jobs, plan, total, bad)
    {
      hide Ran, JobsFor, AllAvailable, IsStart, Grid, FabricOk, PairsOk, Counted, NodeGrid;
      NodeGridStart(f, l, left, right);
      total, bad := 0, 0;
      var i := 0;
      while i < |left|
        invariant 0 <= i <= |left| && Valid(f)
        invariant Ran(f, jobs, NodeGrid(f, l, left[..i], right[..i]), total, bad)
      {
        NodeGridStep(f, l, left, right, i);
        if IsFi(f, left[i]) && IsFi(f, right[i]) {
          StartsOf(f, l, left[i]);
          StartsOf(f, l, right[i]);
          status, total, bad := TabulateGrid(f, l.ports[left[i]], l.ports[right[i]], total, bad,
                                             NodeGrid(f, l, left[..i], right[..i]), plan);
          if status == TabUnavailable {
            return;
          }
        } else {
          assert NodePair(f, l, left[i], right[i]) == [];
          assert NodeGrid(f, l, left[..i], right[..i]) + [] == NodeGrid(f, l, left[..i], right[..i]);
        }
        i := i + 1;
      }
      assert left[..i] == left && right[..i] == right;
      status := TabSuccess;
    }

    method TabulateAllFis(f: Fabric, l: Lists, ghost plan: Pairs) returns (status: TabStatus, total: nat, bad: nat)
      requires FabricOk(f) && ListsOk(f, l) && FisLinked(f) && FisKnown(f, l)
      requires Valid(f) && plan == Grid(PortsOf(l, l.fis), PortsOf(l, l.fis)) && PairsOk(f, plan)
      requires Ran(f, jobs, [], 0, 0)
      modifies this
      ensures Valid(f)
      ensures status == TabSuccess || (status == TabUnavailable && !AllAvailable(f, JobsFor(f, plan)))
      ensures status == TabSuccess ==> Ran(f, jobs, plan, total, bad)
    {
      hide Ran, JobsFor, AllAvailable, IsStart, Grid, FabricOk, PairsOk, Counted, Log, Row;
      total, bad := 0, 0;
      ghost var all := PortsOf(l, l.fis);
      GridStart(l, all);
      var i := 0;
      while i < |l.fis|
        invariant 0 <= i <= |l.fis| && Valid(f)
        invariant Ran(f, jobs, Grid(PortsOf(l, l.fis[..i]), all), total, bad)
      {
        var ports := l.ports[l.fis[i]];
        StartsOf(f, l, l.fis[i]);
        PortsStep(l, l.fis, i);
        ghost var before := PortsOf(l, l.fis[..i]);
        assert before + ports[..0] == before;
        var j := 0;
        while j < |ports|
          invariant 0 <= j <= |ports| && Valid(f)
          invariant Ran(f, jobs, Grid(before + ports[..j], all), total, bad)
        {
          GridPrefix(before, ports, j, all, all);
          status, total, bad := TabulateFrom(f, l, ports[j], total, bad, Grid(before + ports[..j], all), plan);
          if status == TabUnavailable {
            return;
          }
          j := j + 1;
        }
        assert ports[..j] == ports;
        i := i + 1;
      }
      assert l.fis[..i] == l.fis;
      status := TabSuccess;
    }
  }

  /** The jobs run are those of `pairs`, all found tables, and the totals are right. */
  ghost predicate Ran(f: Fabric, jobs: seq<Job>, pairs: Pairs, total: nat, bad: nat) {
    PairsOk(f, pairs) && jobs == JobsFor(f, pairs) && AllAvailable(f, jobs) && total == |jobs| && bad == Bad(f, jobs)
  }

  lemma {:induction false} JobsForPrefix(f: Fabric, a: Pairs, b: Pairs)
    requires PairsOk(f, b) && a <= b
    ensures JobsFor(f, a) <= JobsFor(f, b)
    decreases |b|
  {
    if |a| < |b| {
      assert a <= b[..|b| - 1];
      JobsForPrefix(f, a, b[..|b| - 1]);
    } else {
      assert a == b;
    }
  }

  lemma Unavailing(f: Fabric, done: Pairs, p: Port, q: Port, plan: Pairs)
    requires PairsOk(f, plan) && done + [(p, q)] <= plan && IsStart(f, p) && q in f.ports
    requires !AllAvailable(f, JobsOf(f, p, q))
    ensures !AllAvailable(f, JobsFor(f, plan))
  {
    var j :| j in JobsOf(f, p, q) && Result(f, j).outcome == NoTables;
    var next := done + [(p, q)];
    assert next[..|done|] == done;
    JobsForPrefix(f, next, plan);
    assert j in JobsFor(f, next);
  }

  lemma {:induction false} RowAdds(p: Port, a: seq<Port>, b: seq<Port>)
    ensures Row(p, a + b) == Row(p, a) + Row(p, b)
    decreases |b|
  {
    if b == [] {
      assert a + b == a;
    } else {
      assert (a + b)[..|a + b| - 1] == a + b[..|b| - 1];
      RowAdds(p, a, b[..|b| - 1]);
    }
  }

  lemma RowStep(p: Port, qs: seq<Port>, k: nat)
    requires k < |qs|
    ensures Row(p, qs[..k + 1]) == Row(p, qs[..k]) + Row(p, [qs[k]])
    ensures Row(p, qs[..k + 1]) <= Row(p, qs)
  {
    assert qs[..k + 1] == qs[..k] + [qs[k]];
    RowAdds(p, qs[..k], [qs[k]]);
    assert qs == qs[..k + 1] + qs[k + 1..];
    RowAdds(p, qs[..k + 1], qs[k + 1..]);
  }

  ghost predicate FisLinked(f: Fabric) {
    forall p <- f.ports :: IsNode(f, p.node, FI) ==> f.ports[p].neighbor.Some?
  }

  /** The FIs listed have their ports listed. */
  ghost predicate FisKnown(f: Fabric, l: Lists) {
    forall n <- l.fis :: n in l.ports && forall p <- l.ports[n] :: p in f.ports
  }

  lemma PairsOfOk(f: Fabric, l: Lists, focus: Focus)
    requires FabricOk(f) && ListsOk(f, l) && FocusOk(f, l, focus) && FisLinked(f)
    requires focus.NodePairs? ==> |focus.left| == |focus.right|
    ensures PairsOk(f, PairsOf(f, l, focus)) && FisKnown(f, l)
    ensures focus.FiPorts? ==> forall p <- focus.ports :: IsStart(f, p)
  {
    forall n | n in l.fis
      ensures n in l.ports && forall p <- l.ports[n] :: p in f.ports
    {
      assert IsNode(f, n, FI);
    }
    match focus {
      case AllFis =>
        PortsMembers(f, l, l.fis);
        GridMembers(PortsOf(l, l.fis), PortsOf(l, l.fis));
      case FiPorts(ports, _) =>
        GridMembers(ports, ports);
      case NodePairs(left, right) =>
        NodeGridMembers(f, l, left, right);
    }
  }

  lemma StartsOf(f: Fabric, l: Lists, n: nat)
    requires FabricOk(f) && ListsOk(f, l) && FisLinked(f) && n in l.ports && IsNode(f, n, FI)
    ensures forall p <- l.ports[n] :: p in f.ports && IsStart(f, p)
  {
  }

  lemma {:induction false} RowMembers(p: Port, qs: seq<Port>)
    ensures forall pair <- Row(p, qs) :: pair.0 == p && pair.1 in qs
  {
    if qs != [] {
      RowMembers(p, qs[..|qs| - 1]);
    }
  }

  lemma {:induction false} GridMembers(ps: seq<Port>, qs: seq<Port>)
    ensures forall pair <- Grid(ps, qs) :: pair.0 in ps && pair.1 in qs
  {
    if ps != [] {
      GridMembers(ps[..|ps| - 1], qs);
      RowMembers(ps[|ps| - 1], qs);
    }
  }

  lemma {:induction false} PortsMembers(f: Fabric, l: Lists, ns: seq<nat>)
    requires FabricOk(f) && ListsOk(f, l) && FisLinked(f) && forall n <- ns :: n in l.ports && IsNode(f, n, FI)
    ensures forall p <- PortsOf(l, ns) :: p in f.ports && IsStart(f, p)
  {
    if ns != [] {
      PortsMembers(f, l, ns[..|ns| - 1]);
      StartsOf(f, l, ns[|ns| - 1]);
    }
  }

  lemma {:induction false} NodeGridMembers(f: Fabric, l: Lists, left: seq<nat>, right: seq<nat>)
    requires FabricOk(f) && ListsOk(f, l) && FisLinked(f)
    requires |left| == |right| && NodesKnown(f, l, left) && NodesKnown(f, l, right)
    ensures PairsOk(f, NodeGrid(f, l, left, right))
    decreases |left|
  {
    if left != [] {
      var i := |left| - 1;
      NodeGridMembers(f, l, left[..i], right[..i]);
      if IsFi(f, left[i]) && IsFi(f, right[i]) {
        StartsOf(f, l, left[i]);
        StartsOf(f, l, right[i]);
        GridMembers(l.ports[left[i]], l.ports[right[i]]);
      }
    }
  }

  // ---- Which pairs are in focus ----

  /** The ordered pairs of different FI ports that a focus asks for. */
  predicate InFocus(f: Fabric, focus: Focus, p: Port, q: Port) {
    && p != q && p in f.ports && q in f.ports && IsNode(f, p.node, FI) && IsNode(f, q.node, FI)
    && match focus
       case AllFis => true
       case FiPorts(ports, _) => p in ports && q in ports
       case NodePairs(left, right) =>
         exists i :: 0 <= i < |left| && i < |right| && left[i] == p.node && right[i] == q.node
  }

  lemma {:induction false} RowExact(p: Port, qs: seq<Port>, x: Port, y: Port)
    ensures multiset(Row(p, qs))[(x, y)] == if x == p && y != p then multiset(qs)[y] else 0
    decreases |qs|
  {
    if qs != [] {
      var n := |qs| - 1;
      RowExact(p, qs[..n], x, y);
      assert qs == qs[..n] + [qs[n]];
    }
  }

  lemma LastCounts<T>(ts: seq<T>, x: T)
    requires ts != []
    ensures multiset(ts)[x] == multiset(ts[..|ts| - 1])[x] + (if ts[|ts| - 1] == x then 1 else 0)
  {
    assert ts == ts[..|ts| - 1] + [ts[|ts| - 1]];
  }

  lemma JoinCounts<T>(a: seq<T>, b: seq<T>, x: T)
    ensures multiset(a + b)[x] == multiset(a)[x] + multiset(b)[x]
  {
  }

  lemma OneFactorMore(a: nat, b: nat, c: nat)
    ensures (a + c) * b == a * b + c * b
    ensures c == 1 ==> c * b == b
  {
  }

  /** Each port of `ps` is paired with each other port of `qs` as often as they are listed. */
  lemma {:induction false} GridExact(ps: seq<Port>, qs: seq<Port>, x: Port, y: Port)
    ensures multiset(Grid(ps, qs))[(x, y)] == if x == y then 0 else multiset(ps)[x] * multiset(qs)[y]
    decreases |ps|
  {
    if ps != [] {
      var n := |ps| - 1;
      GridExact(ps[..n], qs, x, y);
      RowExact(ps[n], qs, x, y);
      JoinCounts(Grid(ps[..n], qs), Row(ps[n], qs), (x, y));
      LastCounts(ps, x);
      OneFactorMore(multiset(ps[..n])[x], multiset(qs)[y], if ps[n] == x then 1 else 0);
    }
  }

  lemma ProductPositive(a: nat, b: nat)
    ensures a * b > 0 <==> a > 0 && b > 0
  {
  }

  lemma GridHas(ps: seq<Port>, qs: seq<Port>, x: Port, y: Port)
    ensures (x, y) in Grid(ps, qs) <==> x != y && x in ps && y in qs
  {
    hide Grid;
    GridExact(ps, qs, x, y);
    ProductPositive(multiset(ps)[x], multiset(qs)[y]);
    assert (x, y) in Grid(ps, qs) <==> multiset(Grid(ps, qs))[(x, y)] > 0;
    assert x in ps <==> multiset(ps)[x] > 0;
    assert y in qs <==> multiset(qs)[y] > 0;
  }

  lemma {:induction false} PortsHas(l: Lists, ns: seq<nat>, p: Port)
    requires forall n <- ns :: n in l.ports
    ensures p in PortsOf(l, ns) <==> exists n <- ns :: p in l.ports[n]
    decreases |ns|
  {
    if ns != [] {
      PortsHas(l, ns[..|ns| - 1], p);
    }
  }

  lemma {:induction false} NodeGridHas(f: Fabric, l: Lists, left: seq<nat>, right: seq<nat>, p: Port, q: Port)
    requires |left| == |right| && NodesKnown(f, l, left) && NodesKnown(f, l, right)
    ensures (p, q) in NodeGrid(f, l, left, right) <==>
            p != q && exists i :: 0 <= i < |left| && IsFi(f, left[i]) && IsFi(f, right[i])
                                  && p in l.ports[left[i]] && q in l.ports[right[i]]
    decreases |left|
  {
    hide Grid;
    if left != [] {
      var n := |left| - 1;
      NodeGridHas(f, l, left[..n], right[..n], p, q);
      GridHas(l.ports[left[n]], l.ports[right[n]], p, q);
    }
  }

  /** The pairs tabulated are those in focus. */
  lemma PairsExact(f: Fabric, l: Lists, focus: Focus, p: Port, q: Port)
    requires FabricOk(f) && ListsOk(f, l) && FocusOk(f, l, focus)
    requires focus.NodePairs? ==> |focus.left| == |focus.right|
    ensures (p, q) in PairsOf(f, l, focus) <==> InFocus(f, focus, p, q)
  {
    hide Grid, NodeGrid;
    match focus {
      case AllFis =>
        assert forall n <- l.fis :: IsNode(f, n, FI);
        GridHas(PortsOf(l, l.fis), PortsOf(l, l.fis), p, q);
        PortsHas(l, l.fis, p);
        PortsHas(l, l.fis, q);
      case FiPorts(ports, _) =>
        GridHas(ports, ports, p, q);
      case NodePairs(left, right) =>
        NodeGridHas(f, l, left, right, p, q);
    }
  }

  lemma GridStart(l: Lists, all: seq<Port>)
    ensures Grid(PortsOf(l, l.fis[..0]), all) == []
  {
  }

  lemma {:induction false} GridAdds(a: seq<Port>, b: seq<Port>, qs: seq<Port>)
    ensures Grid(a + b, qs) == Grid(a, qs) + Grid(b, qs)
    decreases |b|
  {
    if b == [] {
      assert a + b == a;
    } else {
      assert (a + b)[..|a + b| - 1] == a + b[..|b| - 1];
      GridAdds(a, b[..|b| - 1], qs);
    }
  }

  lemma GridStep(ps: seq<Port>, qs: seq<Port>, i: nat)
    requires i < |ps|
    ensures Grid(ps[..i + 1], qs) == Grid(ps[..i], qs) + Row(ps[i], qs)
    ensures Grid(ps[..i + 1], qs) <= Grid(ps, qs)
  {
    assert ps[..i + 1][..i] == ps[..i];
    assert ps == ps[..i + 1] + ps[i + 1..];
    GridAdds(ps[..i + 1], ps[i + 1..], qs);
  }

  lemma GridPrefix(before: seq<Port>, ports: seq<Port>, j: nat, all: seq<Port>, qs: seq<Port>)
    requires j < |ports| && before + ports <= all
    ensures Grid(before + ports[..j + 1], qs) == Grid(before + ports[..j], qs) + Row(ports[j], qs)
    ensures Grid(before + ports[..j + 1], qs) <= Grid(all, qs)
  {
    var i := |before| + j;
    assert all[..i] == before + ports[..j] && all[..i + 1] == before + ports[..j + 1] && all[i] == ports[j];
    GridStep(all, qs, i);
  }

  lemma RowPrefix(p: Port, before: seq<Port>, ports: seq<Port>, all: seq<Port>)
    requires before + ports <= all
    ensures Row(p, before + ports) == Row(p, before) + Row(p, ports)
    ensures Row(p, before + ports) <= Row(p, all)
  {
    RowAdds(p, before, ports);
    assert all == before + ports + all[|before + ports|..];
    RowAdds(p, before + ports, all[|before + ports|..]);
  }

  lemma {:induction false} PortsAdd(l: Lists, a: seq<nat>, b: seq<nat>)
    requires forall n <- a + b :: n in l.ports
    ensures (forall n <- a :: n in l.ports) && (forall n <- b :: n in l.ports)
    ensures PortsOf(l, a + b) == PortsOf(l, a) + PortsOf(l, b)
    decreases |b|
  {
    assert forall n <- a :: n in a + b;
    assert forall n <- b :: n in a + b;
    if b == [] {
      assert a + b == a;
    } else {
      assert (a + b)[..|a + b| - 1] == a + b[..|b| - 1];
      PortsAdd(l, a, b[..|b| - 1]);
    }
  }

  lemma PortsStep(l: Lists, ns: seq<nat>, i: nat)
    requires i < |ns| && forall n <- ns :: n in l.ports
    ensures PortsOf(l, ns[..i + 1]) == PortsOf(l, ns[..i]) + l.ports[ns[i]]
    ensures PortsOf(l, ns[..i + 1]) <= PortsOf(l, ns)
  {
    assert ns[..i + 1][..i] == ns[..i];
    assert ns == ns[..i + 1] + ns[i + 1..];
    PortsAdd(l, ns[..i + 1], ns[i + 1..]);
  }

  lemma PortsStart(l: Lists, p: Port, done: Pairs)
    ensures done + Row(p, PortsOf(l, l.fis[..0])) == done
  {
  }

  lemma NodeGridStart(f: Fabric, l: Lists, left: seq<nat>, right: seq<nat>)
    requires NodesKnown(f, l, left) && NodesKnown(f, l, right)
    ensures NodeGrid(f, l, left[..0], right[..0]) == []
  {
  }

  function NodePair(f: Fabric, l: Lists, m: nat, n: nat): Pairs
    requires NodesKnown(f, l, [m, n])
  {
    assert m in [m, n] && n in [m, n];
    if IsFi(f, m) && IsFi(f, n) then Grid(l.ports[m], l.ports[n]) else []
  }

  lemma NodeGridLast(f: Fabric, l: Lists, left: seq<nat>, right: seq<nat>, i: nat)
    requires |left| == |right| && NodesKnown(f, l, left) && NodesKnown(f, l, right) && i < |left|
    ensures NodesKnown(f, l, [left[i], right[i]])
    ensures NodeGrid(f, l, left[..i + 1], right[..i + 1])
            == NodeGrid(f, l, left[..i], right[..i]) + NodePair(f, l, left[i], right[i])
  {
    hide Grid;
    assert left[..i + 1][..i] == left[..i] && right[..i + 1][..i] == right[..i];
  }

  lemma {:induction false} NodeGridPrefix(f: Fabric, l: Lists, left: seq<nat>, right: seq<nat>, i: nat, n: nat)
    requires |left| == |right| && NodesKnown(f, l, left) && NodesKnown(f, l, right) && i <= n <= |left|
    ensures NodeGrid(f, l, left[..i], right[..i]) <= NodeGrid(f, l, left[..n], right[..n])
    decreases n
  {
    if i < n {
      NodeGridPrefix(f, l, left, right, i, n - 1);
      NodeGridLast(f, l, left, right, n - 1);
    }
  }

  lemma NodeGridStep(f: Fabric, l: Lists, left: seq<nat>, right: seq<nat>, i: nat)
    requires |left| == |right| && NodesKnown(f, l, left) && NodesKnown(f, l, right) && i < |left|
    ensures NodesKnown(f, l, [left[i], right[i]])
    ensures NodeGrid(f, l, left[..i + 1], right[..i + 1])
            == NodeGrid(f, l, left[..i], right[..i]) + NodePair(f, l, left[i], right[i])
    ensures NodeGrid(f, l, left[..i + 1], right[..i + 1]) <= NodeGrid(f, l, left, right)
  {
    NodeGridLast(f, l, left, right, i);
    NodeGridPrefix(f, l, left, right, i + 1, |left|);
    assert left[..|left|] == left && right[..|right|] == right;
  }

  lemma RowOfOne(p: Port, q: Port)
    ensures Row(p, [q]) == if q == p then [] else [(p, q)]
  {
    assert [q][..0] == [];
  }

  lemma {:induction false} BadAdds(f: Fabric, a: seq<Job>, b: seq<Job>)
    requires JobsOk(f, a) && JobsOk(f, b)
    ensures Bad(f, a + b) == Bad(f, a) + Bad(f, b)
    decreases |b|
  {
    if b == [] {
      assert a + b == a;
    } else {
      assert (a + b)[..|a + b| - 1] == a + b[..|b| - 1];
      BadAdds(f, a, b[..|b| - 1]);
    }
  }

  lemma RanOneMore(f: Fabric, jobs: seq<Job>, done: Pairs, total: nat, bad: nat, p: Port, q: Port)
    requires IsStart(f, p) && q in f.ports && PairsOk(f, done) && Ran(f, JobsFor(f, done), done, total, bad)
    requires jobs == JobsFor(f, done) + JobsOf(f, p, q) && AllAvailable(f, JobsOf(f, p, q))
    ensures PairsOk(f, done + [(p, q)])
    ensures Ran(f, jobs, done + [(p, q)], total + |JobsOf(f, p, q)|, bad + Bad(f, JobsOf(f, p, q)))
  {
    BadAdds(f, JobsFor(f, done), JobsOf(f, p, q));
    assert (done + [(p, q)])[..|done|] == done;
  }

  /** The counters are the counts over two logs: all calls, and those of base LID walks. */
  ghost predicate Counted(f: Fabric, c: map<Port, Counters>, log: seq<Hop>, baseLog: seq<Hop>) {
    && c.Keys == f.ports.Keys
    && forall p <- c ::
         c[p] == Counters(Entries(log, p), Entries(baseLog, p), Exits(log, p), Exits(baseLog, p))
  }

  // ---- What the counters count ----

  /** The port a device was left by, or entered at. */
  function EndOf(h: Hop, leaving: bool): Option<Port> {
    if leaving then h.exit else h.entry
  }

  /** The callback calls, of the walks `jobs` or of those to base LIDs, that left or entered by `p`: each by
      the number of its walk and its place in that walk. */
  ghost function CallsAt(f: Fabric, jobs: seq<Job>, baseOnly: bool, leaving: bool, p: Port): set<(nat, nat)>
    requires JobsOk(f, jobs)
  {
    set i: nat, k: nat | i < |jobs| && k < |Result(f, jobs[i]).trace| && (baseOnly ==> jobs[i].isBase)
                         && EndOf(Result(f, jobs[i]).trace[k], leaving) == Some(p) :: (i, k)
  }

  function CallsIn(trace: seq<Hop>, i: nat, leaving: bool, p: Port): set<(nat, nat)> {
    set k: nat | k < |trace| && EndOf(trace[k], leaving) == Some(p) :: (i, k)
  }

  function CountIn(log: seq<Hop>, leaving: bool, p: Port): nat {
    if leaving then Exits(log, p) else Entries(log, p)
  }

  lemma {:induction false} TraceCount(trace: seq<Hop>, i: nat, leaving: bool, p: Port)
    ensures |CallsIn(trace, i, leaving, p)| == CountIn(trace, leaving, p)
    decreases |trace|
  {
    if trace != [] {
      var n := |trace| - 1;
      TraceCount(trace[..n], i, leaving, p);
      assert CallsIn(trace, i, leaving, p)
          == CallsIn(trace[..n], i, leaving, p) + (if EndOf(trace[n], leaving) == Some(p) then {(i, n)} else {});
    }
  }

  lemma {:induction false} CallsCount(f: Fabric, jobs: seq<Job>, baseOnly: bool, leaving: bool, p: Port)
    requires JobsOk(f, jobs)
    ensures |CallsAt(f, jobs, baseOnly, leaving, p)| == CountIn(Log(f, jobs, baseOnly), leaving, p)
    decreases |jobs|
  {
    hide Result, EndOf, CallsAt, CallsIn, Exits, Entries;
    if jobs == [] {
      NoCalls(f, baseOnly, leaving, p);
    } else {
      var n := |jobs| - 1;
      var t := if baseOnly && !jobs[n].isBase then [] else Result(f, jobs[n]).trace;
      CallsCount(f, jobs[..n], baseOnly, leaving, p);
      TraceCount(t, n, leaving, p);
      CountsAdd(Log(f, jobs[..n], baseOnly), t, p);
      CallsOneMore(f, jobs, baseOnly, leaving, p);
    }
  }

  lemma NoCalls(f: Fabric, baseOnly: bool, leaving: bool, p: Port)
    ensures CallsAt(f, [], baseOnly, leaving, p) == {} && CountIn([], leaving, p) == 0
  {
  }

  lemma CallsOneMore(f: Fabric, jobs: seq<Job>, baseOnly: bool, leaving: bool, p: Port)
    requires JobsOk(f, jobs) && jobs != []
    ensures var n := |jobs| - 1;
            var t := if baseOnly && !jobs[n].isBase then [] else Result(f, jobs[n]).trace;
            && CallsAt(f, jobs, baseOnly, leaving, p)
               == CallsAt(f, jobs[..n], baseOnly, leaving, p) + CallsIn(t, n, leaving, p)
            && CallsAt(f, jobs[..n], baseOnly, leaving, p) !! CallsIn(t, n, leaving, p)
  {
    hide Result, EndOf;
  }

  /** Each counter is the number of those calls. */
  ghost predicate CountsCalls(f: Fabric, c: map<Port, Counters>, jobs: seq<Job>)
    requires JobsOk(f, jobs)
  {
    && c.Keys == f.ports.Keys
    && forall p <- c ::
         && c[p].recvAll == |CallsAt(f, jobs, false, false, p)| && c[p].recvBase == |CallsAt(f, jobs, true, false, p)|
         && c[p].xmitAll == |CallsAt(f, jobs, false, true, p)| && c[p].xmitBase == |CallsAt(f, jobs, true, true, p)|
  }

  lemma CountersCount(f: Fabric, c: map<Port, Counters>, jobs: seq<Job>)
    requires JobsOk(f, jobs) && Counted(f, c, Log(f, jobs, false), Log(f, jobs, true))
    ensures CountsCalls(f, c, jobs)
  {
    hide Log, CallsAt, Exits, Entries;
    forall p | p in c
      ensures forall baseOnly, leaving :: |CallsAt(f, jobs, baseOnly, leaving, p)|
                                          == CountIn(Log(f, jobs, baseOnly), leaving, p)
    {
      CallsCount(f, jobs, false, false, p);
      CallsCount(f, jobs, true, false, p);
      CallsCount(f, jobs, false, true, p);
      CallsCount(f, jobs, true, true, p);
    }
  }

  /** What was sent over the links at `ps` and not received at their other ends. */
  ghost function Lost(f: Fabric, c: map<Port, Counters>, ps: seq<Port>, baseOnly: bool): int
    requires FabricOk(f) && c.Keys == f.ports.Keys && LinkedPorts(f, ps)
  {
    if ps == [] then 0
    else
      var p := ps[|ps| - 1];
      assert Peer(f, p).Some?;
      Neighbor(f, p);
      var q := Peer(f, p).value;
      Lost(f, c, ps[..|ps| - 1], baseOnly)
      + (if baseOnly then c[p].xmitBase - c[q].recvBase else c[p].xmitAll - c[q].recvAll)
  }

  /** Over any set of links, what was received is what was sent, up to `bad` routes in all. */
  ghost predicate Balanced(f: Fabric, c: map<Port, Counters>, bad: nat)
    requires FabricOk(f) && c.Keys == f.ports.Keys
  {
    forall ps {:trigger LinkedPorts(f, ps)} :: LinkedPorts(f, ps) ==>
      0 <= Lost(f, c, ps, false) <= bad && 0 <= Lost(f, c, ps, true) <= bad
  }

  lemma {:induction false} LostIsExcess(f: Fabric, c: map<Port, Counters>, log: seq<Hop>, baseLog: seq<Hop>,
                                        ps: seq<Port>)
    requires FabricOk(f) && Counted(f, c, log, baseLog) && LinkedPorts(f, ps)
    ensures Lost(f, c, ps, false) == TotalExcess(f, log, ps) && Lost(f, c, ps, true) == TotalExcess(f, baseLog, ps)
  {
    if ps != [] {
      LostIsExcess(f, c, log, baseLog, ps[..|ps| - 1]);
      assert Peer(f, ps[|ps| - 1]).Some?;
      Neighbor(f, ps[|ps| - 1]);
    }
  }

  lemma CountersBalance(f: Fabric, c: map<Port, Counters>, jobs: seq<Job>)
    requires FabricOk(f) && JobsOk(f, jobs) && AllAvailable(f, jobs)
    requires Counted(f, c, Log(f, jobs, false), Log(f, jobs, true))
    ensures Balanced(f, c, Bad(f, jobs))
  {
    hide Log, Bad, TotalExcess, Lost, JobsOk, AllAvailable;
    forall ps | LinkedPorts(f, ps)
      ensures 0 <= Lost(f, c, ps, false) <= Bad(f, jobs) && 0 <= Lost(f, c, ps, true) <= Bad(f, jobs)
    {
      LostIsExcess(f, c, Log(f, jobs, false), Log(f, jobs, true), ps);
      FlowBalances(f, jobs, false, ps);
      FlowBalances(f, jobs, true, ps);
    }
  }

  /** So each link balances, up to the bad routes. */
  lemma LinkCountersBalance(f: Fabric, c: map<Port, Counters>, bad: nat, p: Port)
    requires FabricOk(f) && c.Keys == f.ports.Keys && Balanced(f, c, bad) && Peer(f, p).Some?
    ensures var q := Peer(f, p).value;
            && p in c && q in c && c[q].recvAll <= c[p].xmitAll <= c[q].recvAll + bad
            && c[q].recvBase <= c[p].xmitBase <= c[q].recvBase + bad
  {
    Neighbor(f, p);
    assert LinkedPorts(f, [p]) && [p][..0] == [];
    assert Lost(f, c, [], false) == 0 && Lost(f, c, [], true) == 0;
    assert Lost(f, c, [p], false) >= 0 && Lost(f, c, [p], true) >= 0;
  }

  lemma CountOneMore(f: Fabric, log: seq<Hop>, h: Hop)
    ensures forall p :: Exits(log + [h], p) == Exits(log, p) + (if h.exit == Some(p) then 1 else 0)
    ensures forall p :: Entries(log + [h], p) == Entries(log, p) + (if h.entry == Some(p) then 1 else 0)
  {
    assert (log + [h])[..|log|] == log;
  }
}
