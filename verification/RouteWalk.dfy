/** WalkRoutePort: follow the forwarding tables from a port to a destination LID. */
module RouteWalking {
  import opened Fabrics

  /** Which return statement the walk took. */
  datatype Outcome = Arrived | BadSc | BadVl | TooLong | Looping | NoTables | NoRoute | WrongPort

  datatype Status = Success | NotDone | Unavailable

  function StatusOf(o: Outcome): Status {
    match o
    case Arrived => Success
    case NoTables => Unavailable
    case _ => NotDone
  }

  /** One call of the route callback. */
  datatype Hop = Hop(entry: Option<Port>, exit: Option<Port>, vl: nat)

  datatype WalkResult = WalkResult(outcome: Outcome, trace: seq<Hop>)

  const MAX_HOPS := 64

  ghost predicate CanStart(f: Fabric, p: Port) {
    FabricOk(f) && p in f.ports && p.node in f.nodes && (IsSwitch(f, p) || f.ports[p].neighbor.Some?)
  }

  /** The walk ends at an FI, or at port 0 of a switch unless it started there. */
  predicate Stops(f: Fabric, p: Port, first: bool)
    requires p.node in f.nodes
  {
    !IsSwitch(f, p) || (p.num == 0 && !first)
  }

  datatype Lane = Lane(sc: nat, vl: nat) | Refused(why: Outcome)

  /** Service channel and virtual lane at the start of a route. */
  function FirstLane(info: PortInfo, sl: nat): Lane
    requires sl < MAX_SLS && (info.qos.Some? ==> QosOk(info.qos.value))
  {
    if info.qos.None? then Lane(0, 0) else
    var q := info.qos.value;
    var sc := q.sl2sc[sl];
    if sc == INVALID_SC then Refused(BadSc)
    else if q.sc2vl[sc] == INVALID_SC then Refused(BadVl)
    else Lane(sc, q.sc2vl[sc])
  }

  /** Service channel and virtual lane after crossing a switch from `entry` to `exit`. */
  function NextLane(f: Fabric, entry: Port, exit: Port, sc: nat, vl: nat): Lane
    requires entry in f.ports && PortOk(f, entry) && sc < MAX_SCS
  {
    var info := f.ports[entry];
    if info.qos.None? || entry.num == 0 || exit.num == 0 || exit.num !in info.qos.value.sc2sc then Lane(sc, vl)
    else
      var q := info.qos.value;
      var newSc := q.sc2sc[exit.num][sc];
      if newSc == INVALID_SC then Refused(BadSc)
      else if q.sc2vl[newSc] == INVALID_SC then Refused(BadVl)
      else Lane(newSc, q.sc2vl[newSc])
  }

  lemma NextLaneInRange(f: Fabric, entry: Port, exit: Port, sc: nat, vl: nat)
    requires entry in f.ports && PortOk(f, entry) && sc < MAX_SCS
    ensures NextLane(f, entry, exit, sc, vl).Lane? ==> NextLane(f, entry, exit, sc, vl).sc < MAX_SCS
  {
  }

  /** The walk from the entry port `p`, given the switch entry ports visited so far. */
  function WalkFrom(f: Fabric, p: Port, dlid: nat, sc: nat, vl: nat, hops: seq<Port>, trace: seq<Hop>): WalkResult
    requires FabricOk(f) && p in f.ports && p.node in f.nodes && sc < MAX_SCS && |hops| <= MAX_HOPS
    decreases MAX_HOPS - |hops|
  {
    if Stops(f, p, hops == []) then
      if !Holds(f, p, dlid) then WalkResult(WrongPort, trace)
      else WalkResult(Arrived, if IsSwitch(f, p) then trace else trace + [Hop(Some(p), None, vl)])
    else if |hops| >= MAX_HOPS then WalkResult(TooLong, trace)
    else if p in hops then WalkResult(Looping, trace)
    else if !HasTables(f.nodes[p.node]) then WalkResult(NoTables, trace)
    else
      match LookupRoute(f, p.node, dlid)
      case None => WalkResult(NoRoute, trace)
      case Some(exit) =>
        Neighbor(f, p);
        match NextLane(f, p, exit, sc, vl)
        case Refused(why) => WalkResult(why, trace)
        case Lane(sc', vl') =>
          Neighbor(f, exit);
          NextLaneInRange(f, p, exit, sc, vl);
          WalkFrom(f, NextEntry(f, exit).value, dlid, sc', vl', hops + [p], trace + [Hop(Some(p), Some(exit), vl')])
  }

  /** The whole walk from a port. */
  ghost function Walk(f: Fabric, start: Port, dlid: nat, sl: nat): WalkResult
    requires CanStart(f, start) && sl < MAX_SLS
  {
    Neighbor(f, start);
    match FirstLane(f.ports[start], sl)
    case Refused(why) => WalkResult(why, [])
    case Lane(sc, vl) =>
      if IsSwitch(f, start) then WalkFrom(f, start, dlid, sc, vl, [], [])
      else WalkFrom(f, f.ports[start].neighbor.value, dlid, sc, vl, [], [Hop(None, Some(start), vl)])
  }

  /** The C loop, with its fixed hop history. */
  method WalkRoutePort(f: Fabric, start: Port, dlid: nat, sl: nat) returns (outcome: Outcome, trace: seq<Hop>)
    requires CanStart(f, start) && sl < MAX_SLS
    ensures WalkResult(outcome, trace) == Walk(f, start, dlid, sl)
  {
    Neighbor(f, start);
    trace := [];
    var portp := start;
    var hops := new Port[MAX_HOPS](_ => start);
    var numHops := 0;
    var sc, vl := 0, 0;
    if f.ports[portp].qos.Some? {
      var q := f.ports[portp].qos.value;
      sc := q.sl2sc[sl];
      if sc == INVALID_SC {
        return BadSc, trace;
      }
      vl := q.sc2vl[sc];
      if vl == INVALID_SC {
        return BadVl, trace;
      }
    }
    if !IsSwitch(f, portp) {
      trace := [Hop(None, Some(portp), vl)];
      portp := f.ports[portp].neighbor.value;
    }
    assert hops[..0] == [];
    while IsSwitch(f, portp) && (numHops == 0 || portp.num != 0)
      invariant 0 <= numHops <= MAX_HOPS && portp in f.ports && portp.node in f.nodes && sc < MAX_SCS
      invariant WalkFrom(f, portp, dlid, sc, vl, hops[..numHops], trace) == Walk(f, start, dlid, sl)
      decreases MAX_HOPS - numHops
    {
      if numHops >= MAX_HOPS {
        return TooLong, trace;
      }
      var i := 0;
      while i < numHops
        invariant 0 <= i <= numHops && portp !in hops[..i]
      {
        if hops[i] == portp {
          assert portp in hops[..numHops];
          return Looping, trace;
        }
        i := i + 1;
      }
      ghost var history := hops[..numHops];
      hops[numHops] := portp;
      assert hops[..numHops + 1] == history + [portp];
      numHops := numHops + 1;
      if !HasTables(f.nodes[portp.node]) {
        return NoTables, trace;
      }
      var route := LookupRoute(f, portp.node, dlid);
      if route == None {
        return NoRoute, trace;
      }
      var exit := route.value;
      Neighbor(f, portp);
      Neighbor(f, exit);
      NextLaneInRange(f, portp, exit, sc, vl);
      if f.ports[portp].qos.Some? && portp.num != 0 && exit.num != 0 {
        var q := f.ports[portp].qos.value;
        if exit.num in q.sc2sc {
          var newSc := q.sc2sc[exit.num][sc];
          if newSc == INVALID_SC {
            return BadSc, trace;
          }
          vl := q.sc2vl[newSc];
          if vl == INVALID_SC {
            return BadVl, trace;
          }
          sc := newSc;
        }
      }
      trace := trace + [Hop(Some(portp), Some(exit), vl)];
      portp := NextEntry(f, exit).value;
    }
    if !Holds(f, portp, dlid) {
      return WrongPort, trace;
    }
    if !IsSwitch(f, portp) {
      trace := trace + [Hop(Some(portp), None, vl)];
    }
    return Arrived, trace;
  }

  // ---- What the walk means ----

  /** Forwarding without any limit: from the entry port `p`, exactly `n` switch crossings lead to a
      port where a route ends and whose LID range holds `dlid`. */
  ghost predicate Delivered(f: Fabric, p: Port, dlid: nat, first: bool, n: nat)
    requires FabricOk(f) && p in f.ports && p.node in f.nodes
    decreases n
  {
    if Stops(f, p, first) then n == 0 && Holds(f, p, dlid)
    else
      && n > 0 && Forwards(f, p, dlid)
      && (Neighbor(f, Exit(f, p, dlid));
          Delivered(f, NextEntry(f, Exit(f, p, dlid)).value, dlid, false, n - 1))
  }

  /** The switch at the entry port `p` has a usable route. */
  predicate Forwards(f: Fabric, p: Port, dlid: nat) {
    p.node in f.nodes && HasTables(f.nodes[p.node]) && LookupRoute(f, p.node, dlid).Some?
  }

  function Exit(f: Fabric, p: Port, dlid: nat): (x: Port)
    requires Forwards(f, p, dlid)
    ensures x in f.ports && x.node == p.node
  {
    LookupRoute(f, p.node, dlid).value
  }

  /** A switch forwards by its linear table only, and out of a port that is initialized and linked, or by its
      own port 0. */
  lemma ForwardsByTable(f: Fabric, p: Port, dlid: nat, x: Port)
    requires p.node in f.nodes
    ensures var n := f.nodes[p.node];
            Forwards(f, p, dlid) && Exit(f, p, dlid) == x
            <==> n.hasSwitchData && n.mode == LinearMode && n.fdb.Some? && 0 < dlid < |n.fdb.value|
                 && n.fdb.value[dlid] == x.num && x.num != NO_ROUTE
                 && x.node == p.node && x in f.ports && f.ports[x].initialized
                 && (x.num == 0 || f.ports[x].neighbor.Some?)
  {
  }

  lemma {:induction false} DeliveredOnce(f: Fabric, p: Port, dlid: nat, first: bool, m: nat, n: nat)
    requires FabricOk(f) && p in f.ports && p.node in f.nodes
    requires Delivered(f, p, dlid, first, m) && Delivered(f, p, dlid, first, n)
    ensures m == n
    decreases m
  {
    if !Stops(f, p, first) {
      Neighbor(f, Exit(f, p, dlid));
      DeliveredOnce(f, NextEntry(f, Exit(f, p, dlid)).value, dlid, false, m - 1, n - 1);
    }
  }

  /** Two entry ports of one switch forward alike. */
  lemma SameSwitchSameDistance(f: Fabric, p: Port, q: Port, dlid: nat, fp: bool, fq: bool, m: nat, n: nat)
    requires FabricOk(f) && p in f.ports && q in f.ports && p.node in f.nodes && p.node == q.node
    requires !Stops(f, p, fp) && !Stops(f, q, fq)
    requires Delivered(f, p, dlid, fp, m) && Delivered(f, q, dlid, fq, n)
    ensures m == n
  {
    Neighbor(f, Exit(f, p, dlid));
    DeliveredOnce(f, NextEntry(f, Exit(f, p, dlid)).value, dlid, false, m - 1, n - 1);
  }

  /** The port after hop `i` of a trail that has come to `p`. */
  function After(hops: seq<Port>, p: Port, i: nat): Port
    requires i < |hops|
  {
    if i + 1 < |hops| then hops[i + 1] else p
  }

  /** `hops` are the switch entry ports visited on the way to `p`. */
  ghost predicate Trail(f: Fabric, dlid: nat, hops: seq<Port>, p: Port) {
    && (forall i {:trigger hops[i]} :: 0 <= i < |hops| ==>
          && hops[i] in f.ports && hops[i].node in f.nodes && !Stops(f, hops[i], i == 0)
          && Forwards(f, hops[i], dlid))
    && (forall i {:trigger After(hops, p, i)} :: 0 <= i < |hops| ==>
          NextEntry(f, Exit(f, hops[i], dlid)) == Some(After(hops, p, i)))
  }

  predicate AllDistinct(hops: seq<Port>) {
    forall i, j :: 0 <= i < j < |hops| ==> hops[i] != hops[j]
  }

  lemma TrailStep(f: Fabric, dlid: nat, hops: seq<Port>, p: Port)
    requires FabricOk(f) && Trail(f, dlid, hops, p) && p in f.ports && p.node in f.nodes
    requires !Stops(f, p, hops == []) && Forwards(f, p, dlid)
    ensures NextEntry(f, Exit(f, p, dlid)).Some?
    ensures Trail(f, dlid, hops + [p], NextEntry(f, Exit(f, p, dlid)).value)
  {
    Neighbor(f, Exit(f, p, dlid));
    var q := NextEntry(f, Exit(f, p, dlid)).value;
    var next := hops + [p];
    forall i | 0 <= i < |next|
      ensures NextEntry(f, Exit(f, next[i], dlid)) == Some(After(next, q, i))
    {
      if i < |hops| {
        assert NextEntry(f, Exit(f, hops[i], dlid)) == Some(After(hops, p, i));
      }
    }
  }

  /** Delivery from a hop of the trail means delivery from where the trail has come to. */
  lemma {:induction false} TrailDelivers(f: Fabric, dlid: nat, hops: seq<Port>, p: Port, j: nat, n: nat)
    requires FabricOk(f) && Trail(f, dlid, hops, p) && p in f.ports && p.node in f.nodes
    requires j < |hops| && Delivered(f, hops[j], dlid, j == 0, n)
    ensures n >= |hops| - j && Delivered(f, p, dlid, false, n - (|hops| - j))
    decreases |hops| - j
  {
    assert NextEntry(f, Exit(f, hops[j], dlid)) == Some(After(hops, p, j));
    if j + 1 < |hops| {
      TrailDelivers(f, dlid, hops, p, j + 1, n - 1);
    }
  }

  /** Coming back to a port of the trail would mean a shorter delivery from the same port. */
  lemma Revisit(f: Fabric, dlid: nat, hops: seq<Port>, p: Port, n: nat) returns (m: nat)
    requires FabricOk(f) && Trail(f, dlid, hops, p) && p in f.ports && p.node in f.nodes
    requires p in hops && !Stops(f, p, false) && Delivered(f, p, dlid, false, n)
    ensures m < n && Delivered(f, p, dlid, false, m)
  {
    var j :| 0 <= j < |hops| && hops[j] == p;
    Neighbor(f, Exit(f, p, dlid));
    assert Delivered(f, hops[j], dlid, j == 0, n);
    TrailDelivers(f, dlid, hops, p, j, n);
    m := n - (|hops| - j);
  }

  /** A walk that re-enters a switch port would go round for ever: no number of further hops
      delivers. */
  lemma LoopNeverDelivers(f: Fabric, dlid: nat, hops: seq<Port>, p: Port, n: nat)
    requires FabricOk(f) && Trail(f, dlid, hops, p) && p in f.ports && p.node in f.nodes
    requires p in hops && !Stops(f, p, false)
    ensures !Delivered(f, p, dlid, false, n)
  {
    if Delivered(f, p, dlid, false, n) {
      var m := Revisit(f, dlid, hops, p, n);
      DeliveredOnce(f, p, dlid, false, n, m);
    }
  }

  /** The outcome of the rest of a walk, measured against unlimited forwarding. */
  lemma {:induction false} WalkFromExact(f: Fabric, p: Port, dlid: nat, sc: nat, vl: nat, hops: seq<Port>,
                                         trace: seq<Hop>, n: nat)
    requires FabricOk(f) && p in f.ports && p.node in f.nodes && sc < MAX_SCS && |hops| <= MAX_HOPS
    requires Trail(f, dlid, hops, p)
    ensures var o := WalkFrom(f, p, dlid, sc, vl, hops, trace).outcome;
            && (Delivered(f, p, dlid, hops == [], n) ==>
                  if |hops| + n <= MAX_HOPS then o in {Arrived, BadSc, BadVl} else o in {TooLong, BadSc, BadVl})
    decreases MAX_HOPS - |hops|
  {
    var first := hops == [];
    if Stops(f, p, first) || |hops| >= MAX_HOPS {
    } else if p in hops {
      LoopNeverDelivers(f, dlid, hops, p, n);
    } else if Forwards(f, p, dlid) {
      Neighbor(f, p);
      var exit := Exit(f, p, dlid);
      Neighbor(f, exit);
      TrailStep(f, dlid, hops, p);
      NextLaneInRange(f, p, exit, sc, vl);
      match NextLane(f, p, exit, sc, vl) {
        case Refused(_) =>
        case Lane(sc', vl') =>
          if n > 0 {
            WalkFromExact(f, NextEntry(f, exit).value, dlid, sc', vl', hops + [p],
                          trace + [Hop(Some(p), Some(exit), vl')], n - 1);
          }
      }
    }
  }

  /** `trace` reports the switch crossings of the trail `hops`, from index `at` on. */
  predicate Reports(f: Fabric, dlid: nat, hops: seq<Port>, from: nat, trace: seq<Hop>, at: nat)
    requires from <= |hops|
  {
    && at + (|hops| - from) <= |trace|
    && forall i :: from <= i < |hops| ==>
         var t := trace[at + (i - from)];
         t.entry == Some(hops[i]) && hops[i].node in f.nodes && HasTables(f.nodes[hops[i].node])
         && t.exit == LookupRoute(f, hops[i].node, dlid)
  }

  /** The trail of a walk that arrived, and the port it arrived at. */
  ghost predicate Route(f: Fabric, dlid: nat, path: seq<Port>, last: Port) {
    && FabricOk(f) && Trail(f, dlid, path, last) && AllDistinct(path) && |path| <= MAX_HOPS
    && last in f.ports && last.node in f.nodes && Stops(f, last, path == []) && Holds(f, last, dlid)
  }

  /** The arrival of the rest of a walk: its trail, where it ends, and what it reports. */
  lemma {:induction false} WalkFromPath(f: Fabric, p: Port, dlid: nat, sc: nat, vl: nat, hops: seq<Port>,
                                        trace: seq<Hop>)
    returns (path: seq<Port>, last: Port)
    requires FabricOk(f) && p in f.ports && p.node in f.nodes && sc < MAX_SCS && |hops| <= MAX_HOPS
    requires Trail(f, dlid, hops, p) && AllDistinct(hops)
    requires WalkFrom(f, p, dlid, sc, vl, hops, trace).outcome == Arrived
    ensures Route(f, dlid, path, last) && hops <= path
    ensures path == hops ==> last == p
    ensures |path| > |hops| ==> path[|hops|] == p
    ensures var t := WalkFrom(f, p, dlid, sc, vl, hops, trace).trace;
            && trace <= t && Reports(f, dlid, path, |hops|, t, |trace|)
            && (if IsSwitch(f, last) then |t| == |trace| + |path| - |hops|
                else |t| == |trace| + |path| - |hops| + 1
                     && t[|t| - 1].entry == Some(last) && t[|t| - 1].exit == None)
    decreases MAX_HOPS - |hops|
  {
    if Stops(f, p, hops == []) {
      path, last := hops, p;
    } else {
      Neighbor(f, p);
      var exit := Exit(f, p, dlid);
      Neighbor(f, exit);
      TrailStep(f, dlid, hops, p);
      NextLaneInRange(f, p, exit, sc, vl);
      var lane := NextLane(f, p, exit, sc, vl);
      var next := trace + [Hop(Some(p), Some(exit), lane.vl)];
      var q := NextEntry(f, exit).value;
      path, last := WalkFromPath(f, q, dlid, lane.sc, lane.vl, hops + [p], next);
      assert path[|hops|] == (hops + [p])[|hops|];
      assert next[|trace|] == Hop(Some(p), Some(exit), lane.vl);
    }
  }

  lemma {:induction false} RouteDelivers(f: Fabric, dlid: nat, path: seq<Port>, last: Port, j: nat)
    requires Route(f, dlid, path, last) && j <= |path|
    ensures var p := if j < |path| then path[j] else last;
            p in f.ports && p.node in f.nodes && Delivered(f, p, dlid, j == 0, |path| - j)
    decreases |path| - j
  {
    if j < |path| {
      assert NextEntry(f, Exit(f, path[j], dlid)) == Some(After(path, last, j));
      RouteDelivers(f, dlid, path, last, j + 1);
    }
  }

  /** The first switch entry port of a walk: the start itself on a switch, otherwise the far end of
      the start's link. */
  function FirstEntry(f: Fabric, start: Port): Port
    requires start in f.ports && start.node in f.nodes && (IsSwitch(f, start) || f.ports[start].neighbor.Some?)
  {
    if IsSwitch(f, start) then start else f.ports[start].neighbor.value
  }

  /** For every walk and every number of hops: if unlimited forwarding delivers after `n` crossings,
      the walk arrives when n <= 64 and gives up as too long otherwise, unless a service channel or
      virtual lane is refused on the way. So a looping, dead-end or misdelivered walk could never have
      been delivered by going on. */
  lemma WalkExact(f: Fabric, start: Port, dlid: nat, sl: nat, n: nat)
    requires CanStart(f, start) && sl < MAX_SLS
    ensures FirstEntry(f, start) in f.ports && FirstEntry(f, start).node in f.nodes
    ensures Delivered(f, FirstEntry(f, start), dlid, true, n) ==>
              var o := Walk(f, start, dlid, sl).outcome;
              if n <= MAX_HOPS then o in {Arrived, BadSc, BadVl} else o in {TooLong, BadSc, BadVl}
  {
    Neighbor(f, start);
    match FirstLane(f.ports[start], sl) {
      case Refused(_) =>
      case Lane(sc, vl) =>
        var trace := if IsSwitch(f, start) then [] else [Hop(None, Some(start), vl)];
        WalkFromExact(f, FirstEntry(f, start), dlid, sc, vl, [], trace, n);
    }
  }

  /** A walk that succeeds reports a connected chain of at most 64 distinct switch entry ports that
      ends where the destination LID is held, and forwarding does deliver in that many crossings. */
  lemma WalkArrives(f: Fabric, start: Port, dlid: nat, sl: nat) returns (path: seq<Port>, last: Port)
    requires CanStart(f, start) && sl < MAX_SLS && Walk(f, start, dlid, sl).outcome == Arrived
    ensures Route(f, dlid, path, last) && RouteFrom(f, start, dlid, path, last)
    ensures FirstEntry(f, start) == (if path == [] then last else path[0])
    ensures FirstEntry(f, start) in f.ports && FirstEntry(f, start).node in f.nodes
    ensures Delivered(f, FirstEntry(f, start), dlid, true, |path|)
    ensures var t := Walk(f, start, dlid, sl).trace;
            var at := if IsSwitch(f, start) then 0 else 1;
            && Reports(f, dlid, path, 0, t, at)
            && |t| == at + |path| + (if IsSwitch(f, last) then 0 else 1)
            && (!IsSwitch(f, start) ==> t[0].entry == None && t[0].exit == Some(start))
            && (!IsSwitch(f, last) ==> t[|t| - 1].entry == Some(last) && t[|t| - 1].exit == None)
  {
    Neighbor(f, start);
    var lane := FirstLane(f.ports[start], sl);
    var trace := if IsSwitch(f, start) then [] else [Hop(None, Some(start), lane.vl)];
    path, last := WalkFromPath(f, FirstEntry(f, start), dlid, lane.sc, lane.vl, [], trace);
    RouteDelivers(f, dlid, path, last, 0);
  }

  /** A port at the end of a link is entered alike whether or not the walk has just begun. */
  lemma LinkedEntry(f: Fabric, p: Port, dlid: nat, n: nat)
    requires FabricOk(f) && p in f.ports && p.node in f.nodes && f.ports[p].neighbor.Some?
    ensures Stops(f, p, true) == Stops(f, p, false)
    ensures Delivered(f, p, dlid, true, n) <==> Delivered(f, p, dlid, false, n)
  {
    Neighbor(f, p);
  }

  // ---- Service channels and virtual lanes along a route ----

  /** The lane in which a packet leaves the last of the switches entered at `path`: the tables of the
      start and of the entry ports, composed in order. */
  function LaneAlong(f: Fabric, first: Lane, path: seq<Port>, dlid: nat): Lane
    requires forall p <- path :: p in f.ports && PortOk(f, p) && Forwards(f, p, dlid)
    requires first.Lane? ==> first.sc < MAX_SCS
    ensures LaneAlong(f, first, path, dlid).Lane? ==> LaneAlong(f, first, path, dlid).sc < MAX_SCS
  {
    if path == [] then first
    else
      var p := path[|path| - 1];
      match LaneAlong(f, first, path[..|path| - 1], dlid)
      case Refused(why) => Refused(why)
      case Lane(sc, vl) =>
        NextLaneInRange(f, p, Exit(f, p, dlid), sc, vl);
        NextLane(f, p, Exit(f, p, dlid), sc, vl)
  }

  /** A route that starts at `start`. */
  ghost predicate RouteFrom(f: Fabric, start: Port, dlid: nat, path: seq<Port>, last: Port) {
    && Route(f, dlid, path, last) && CanStart(f, start)
    && FirstEntry(f, start) == (if path == [] then last else path[0])
  }

  lemma FirstLaneInRange(f: Fabric, start: Port, sl: nat)
    requires FabricOk(f) && start in f.ports && sl < MAX_SLS
    ensures PortOk(f, start)
    ensures FirstLane(f.ports[start], sl).Lane? ==> FirstLane(f.ports[start], sl).sc < MAX_SCS
  {
    Neighbor(f, start);
  }

  lemma RoutePorts(f: Fabric, dlid: nat, path: seq<Port>, last: Port)
    requires Route(f, dlid, path, last)
    ensures forall p <- path :: p in f.ports && PortOk(f, p) && Forwards(f, p, dlid)
  {
    forall i | 0 <= i < |path|
      ensures PortOk(f, path[i]) && Forwards(f, path[i], dlid)
    {
      Neighbor(f, path[i]);
    }
  }

  /** The lane in which the packet leaves the start (`i == 0`) or the `i`-th switch of its route. */
  ghost function LaneAt(f: Fabric, start: Port, dlid: nat, sl: nat, path: seq<Port>, last: Port, i: nat): (lane: Lane)
    requires RouteFrom(f, start, dlid, path, last) && sl < MAX_SLS && i <= |path|
    ensures lane.Lane? ==> lane.sc < MAX_SCS
  {
    FirstLaneInRange(f, start, sl);
    RoutePorts(f, dlid, path, last);
    LaneAlong(f, FirstLane(f.ports[start], sl), path[..i], dlid)
  }

  lemma LaneAtNext(f: Fabric, start: Port, dlid: nat, sl: nat, path: seq<Port>, last: Port, i: nat)
    requires RouteFrom(f, start, dlid, path, last) && sl < MAX_SLS && i < |path|
    ensures path[i] in f.ports && PortOk(f, path[i]) && Forwards(f, path[i], dlid)
    ensures var lane := LaneAt(f, start, dlid, sl, path, last, i);
            LaneAt(f, start, dlid, sl, path, last, i + 1)
            == if lane.Refused? then lane else NextLane(f, path[i], Exit(f, path[i], dlid), lane.sc, lane.vl)
  {
    RoutePorts(f, dlid, path, last);
    assert path[i] in path;
    assert path[..i + 1][..i] == path[..i];
  }

  /** Once a table yields 15 the packet stays refused. */
  lemma {:induction false} RefusedStays(f: Fabric, start: Port, dlid: nat, sl: nat, path: seq<Port>, last: Port,
                                        i: nat, j: nat)
    requires RouteFrom(f, start, dlid, path, last) && sl < MAX_SLS && i <= j <= |path|
    ensures var lane := LaneAt(f, start, dlid, sl, path, last, i);
            lane.Refused? ==> LaneAt(f, start, dlid, sl, path, last, j) == lane
    decreases j
  {
    if i < j {
      RefusedStays(f, start, dlid, sl, path, last, i, j - 1);
      LaneAtNext(f, start, dlid, sl, path, last, j - 1);
    }
  }

  function VlOf(lane: Lane): nat {
    if lane.Lane? then lane.vl else 0
  }

  /** The callback calls along a route from its switch `k` on, each with the composed virtual lane. */
  ghost function CallsFrom(f: Fabric, start: Port, dlid: nat, sl: nat, path: seq<Port>, last: Port,
                           k: nat): (t: seq<Hop>)
    requires RouteFrom(f, start, dlid, path, last) && sl < MAX_SLS && k <= |path|
    ensures |t| == |path| - k + (if IsSwitch(f, last) then 0 else 1)
    decreases |path| - k
  {
    if k == |path| then
      if IsSwitch(f, last) then [] else [Hop(Some(last), None, VlOf(LaneAt(f, start, dlid, sl, path, last, k)))]
    else
      LaneAtNext(f, start, dlid, sl, path, last, k);
      [Hop(Some(path[k]), Some(Exit(f, path[k], dlid)), VlOf(LaneAt(f, start, dlid, sl, path, last, k + 1)))]
      + CallsFrom(f, start, dlid, sl, path, last, k + 1)
  }

  /** All calls of a walk along a route. */
  ghost function Calls(f: Fabric, start: Port, dlid: nat, sl: nat, path: seq<Port>, last: Port): seq<Hop>
    requires RouteFrom(f, start, dlid, path, last) && sl < MAX_SLS
  {
    (if IsSwitch(f, start) then [] else [Hop(None, Some(start), VlOf(LaneAt(f, start, dlid, sl, path, last, 0)))])
    + CallsFrom(f, start, dlid, sl, path, last, 0)
  }

  /** Call `i - k` from switch `k` on is that of switch `i`. */
  lemma {:induction false} CallAt(f: Fabric, start: Port, dlid: nat, sl: nat, path: seq<Port>, last: Port, k: nat,
                                  i: nat)
    requires RouteFrom(f, start, dlid, path, last) && sl < MAX_SLS && k <= i < |path|
    ensures path[i] in f.ports && Forwards(f, path[i], dlid)
    ensures CallsFrom(f, start, dlid, sl, path, last, k)[i - k]
            == Hop(Some(path[i]), Some(Exit(f, path[i], dlid)), VlOf(LaneAt(f, start, dlid, sl, path, last, i + 1)))
    decreases i - k
  {
    LaneAtNext(f, start, dlid, sl, path, last, i);
    if k < i {
      CallAt(f, start, dlid, sl, path, last, k + 1, i);
    }
  }

  /** The rest of a walk along a route, from switch `k` of the route on. */
  lemma {:induction false} WalkFromLanes(f: Fabric, start: Port, dlid: nat, sl: nat, path: seq<Port>, last: Port,
                                         k: nat, p: Port, sc: nat, vl: nat, trace: seq<Hop>)
    requires RouteFrom(f, start, dlid, path, last) && sl < MAX_SLS && k <= |path| && sc < MAX_SCS
    requires p == (if k < |path| then path[k] else last) && LaneAt(f, start, dlid, sl, path, last, k) == Lane(sc, vl)
    ensures p in f.ports && p.node in f.nodes
    ensures var r := WalkFrom(f, p, dlid, sc, vl, path[..k], trace);
            match LaneAt(f, start, dlid, sl, path, last, |path|) {
              case Refused(why) => r.outcome == why
              case Lane(_, _) => r == WalkResult(Arrived, trace + CallsFrom(f, start, dlid, sl, path, last, k))
            }
    decreases |path| - k
  {
    hide LaneAt, NextLane, LaneAlong;
    if k < |path| {
      LaneAtNext(f, start, dlid, sl, path, last, k);
      var exit := Exit(f, p, dlid);
      Neighbor(f, p);
      Neighbor(f, exit);
      assert !Stops(f, p, k == 0) && p !in path[..k];
      assert NextEntry(f, Exit(f, path[k], dlid)) == Some(After(path, last, k));
      var lane := LaneAt(f, start, dlid, sl, path, last, k + 1);
      if lane.Lane? {
        var next := trace + [Hop(Some(p), Some(exit), lane.vl)];
        assert path[..k] + [p] == path[..k + 1];
        WalkFromLanes(f, start, dlid, sl, path, last, k + 1, NextEntry(f, exit).value, lane.sc, lane.vl, next);
        assert next + CallsFrom(f, start, dlid, sl, path, last, k + 1)
               == trace + CallsFrom(f, start, dlid, sl, path, last, k);
      } else {
        RefusedStays(f, start, dlid, sl, path, last, k + 1, |path|);
      }
    } else {
      assert path[..k] == path;
      if IsSwitch(f, last) {
        assert trace + [] == trace;
      }
    }
  }

  /** For every deliverable route and every service level: the walk is refused exactly where composing
      the tables along the route yields 15, and otherwise arrives with the composed virtual lane in every
      call. */
  lemma WalkLanes(f: Fabric, start: Port, dlid: nat, sl: nat, path: seq<Port>, last: Port)
    requires RouteFrom(f, start, dlid, path, last) && sl < MAX_SLS
    ensures match LaneAt(f, start, dlid, sl, path, last, |path|) {
              case Refused(why) => Walk(f, start, dlid, sl).outcome == why
              case Lane(_, _) => Walk(f, start, dlid, sl) == WalkResult(Arrived, Calls(f, start, dlid, sl, path, last))
            }
  {
    hide NextLane;
    FirstLaneInRange(f, start, sl);
    RefusedStays(f, start, dlid, sl, path, last, 0, |path|);
    assert path[..0] == [];
    match FirstLane(f.ports[start], sl) {
      case Refused(_) =>
      case Lane(sc, vl) =>
        var trace := if IsSwitch(f, start) then [] else [Hop(None, Some(start), vl)];
        WalkFromLanes(f, start, dlid, sl, path, last, 0, FirstEntry(f, start), sc, vl, trace);
    }
  }

  // ---- The ends of a route ----

  lemma LaneAtStart(f: Fabric, start: Port, dlid: nat, sl: nat, path: seq<Port>, last: Port)
    requires RouteFrom(f, start, dlid, path, last) && sl < MAX_SLS
    ensures start in f.ports && PortOk(f, start)
    ensures LaneAt(f, start, dlid, sl, path, last, 0) == FirstLane(f.ports[start], sl)
  {
    FirstLaneInRange(f, start, sl);
    assert path[..0] == [];
  }

  /** A refusal is never mistaken for an arrival. */
  lemma {:induction false} LaneWhy(f: Fabric, start: Port, dlid: nat, sl: nat, path: seq<Port>, last: Port, i: nat)
    requires RouteFrom(f, start, dlid, path, last) && sl < MAX_SLS && i <= |path|
    ensures LaneAt(f, start, dlid, sl, path, last, i).Refused? ==>
              LaneAt(f, start, dlid, sl, path, last, i).why != Arrived
    decreases i
  {
    FirstLaneInRange(f, start, sl);
    assert path[..0] == [];
    if i > 0 {
      LaneWhy(f, start, dlid, sl, path, last, i - 1);
      LaneAtNext(f, start, dlid, sl, path, last, i - 1);
    }
  }

  /** The call at the FI where a route ends. */
  lemma {:induction false} LastCall(f: Fabric, start: Port, dlid: nat, sl: nat, path: seq<Port>, last: Port, k: nat)
    requires RouteFrom(f, start, dlid, path, last) && !IsSwitch(f, last) && sl < MAX_SLS && k <= |path|
    ensures CallsFrom(f, start, dlid, sl, path, last, k)[|path| - k]
            == Hop(Some(last), None, VlOf(LaneAt(f, start, dlid, sl, path, last, |path|)))
    decreases |path| - k
  {
    if k < |path| {
      LastCall(f, start, dlid, sl, path, last, k + 1);
    }
  }
}
