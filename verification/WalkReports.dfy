/** What every walk reports, whether it arrives or not: the calls of the switches it has crossed, with the
    lanes their tables give, and why it went no further. */
module WalkReports {
  import opened Fabrics
  import opened RouteWalking

  /** Channel and lane at the start: those of the service level under its tables, neither 15; 0 without QoS
      data. */
  predicate StartsOn(info: PortInfo, sl: nat, sc: nat, vl: nat)
    requires sl < MAX_SLS && (info.qos.Some? ==> QosOk(info.qos.value))
  {
    match info.qos
    case None => sc == 0 && vl == 0
    case Some(q) => sc == q.sl2sc[sl] && sc != INVALID_SC && vl == q.sc2vl[sc] && vl != INVALID_SC
  }

  /** Channel and lane after a switch. Between two of its links they are those of the SC table of the entry
      port for the exit, if it has one, and of its SC2VL table at the new channel, neither 15; otherwise they
      are what they were. */
  predicate Crosses(f: Fabric, entry: Port, exit: Port, sc: nat, vl: nat, sc': nat, vl': nat)
    requires entry in f.ports && PortOk(f, entry)
  {
    sc < MAX_SCS && match f.ports[entry].qos
                    case None => sc' == sc && vl' == vl
                    case Some(q) =>
                      if entry.num != 0 && exit.num != 0 && exit.num in q.sc2sc
                      then sc' == q.sc2sc[exit.num][sc] && sc' != INVALID_SC && vl' == q.sc2vl[sc'] && vl' != INVALID_SC
                      else sc' == sc && vl' == vl
  }

  /** Crossing the switch from `entry` to `exit` is refused: the SC table of the entry port for the exit, or
      its SC2VL table at the new channel, yields 15. */
  predicate Refuses(f: Fabric, entry: Port, exit: Port, sc: nat, outcome: Outcome)
    requires entry in f.ports && PortOk(f, entry)
  {
    && sc < MAX_SCS && entry.num != 0 && exit.num != 0
    && match f.ports[entry].qos
       case None => false
       case Some(q) =>
         && exit.num in q.sc2sc
         && var next := q.sc2sc[exit.num][sc];
            if next == INVALID_SC then outcome == BadSc else q.sc2vl[next] == INVALID_SC && outcome == BadVl
  }

  /** The start refuses the service level. */
  predicate StartRefuses(info: PortInfo, sl: nat, outcome: Outcome)
    requires sl < MAX_SLS && (info.qos.Some? ==> QosOk(info.qos.value))
  {
    match info.qos
    case None => false
    case Some(q) =>
      if q.sl2sc[sl] == INVALID_SC then outcome == BadSc
      else q.sc2vl[q.sl2sc[sl]] == INVALID_SC && outcome == BadVl
  }

  /** The walk has crossed the switches entered at `path`, each once, and come to `p`; it left the start and
      those switches on the channels `scs` and the lanes `vls`. */
  ghost predicate Crossed(f: Fabric, start: Port, dlid: nat, sl: nat, path: seq<Port>, p: Port, scs: seq<nat>,
                          vls: seq<nat>)
  {
    && CanStart(f, start) && sl < MAX_SLS && p in f.ports && p.node in f.nodes
    && Trail(f, dlid, path, p) && AllDistinct(path) && |path| <= MAX_HOPS
    && FirstEntry(f, start) == (if path == [] then p else path[0])
    && |scs| == |vls| == |path| + 1 && scs[|path|] < MAX_SCS
    && PortOk(f, start) && StartsOn(f.ports[start], sl, scs[0], vls[0])
    && forall i {:trigger path[i]} :: 0 <= i < |path| ==>
         PortOk(f, path[i]) && Crosses(f, path[i], Exit(f, path[i], dlid), scs[i], vls[i], scs[i + 1], vls[i + 1])
  }

  /** The calls for the start and those switches. */
  ghost function Told(f: Fabric, start: Port, dlid: nat, sl: nat, path: seq<Port>, p: Port, scs: seq<nat>,
                      vls: seq<nat>): (t: seq<Hop>)
    requires Crossed(f, start, dlid, sl, path, p, scs, vls)
    ensures |t| == |path| + (if IsSwitch(f, start) then 0 else 1)
  {
    (if IsSwitch(f, start) then [] else [Hop(None, Some(start), vls[0])])
    + seq(|path|, i requires 0 <= i < |path| => Hop(Some(path[i]), Some(Exit(f, path[i], dlid)), vls[i + 1]))
  }

  /** Why the walk ends at `p`. */
  ghost predicate EndsAt(f: Fabric, dlid: nat, path: seq<Port>, p: Port, sc: nat, outcome: Outcome)
    requires FabricOk(f) && p in f.ports && p.node in f.nodes
  {
    Neighbor(f, p);
    match outcome
    case Arrived => Stops(f, p, path == []) && Holds(f, p, dlid)
    case WrongPort => Stops(f, p, path == []) && !Holds(f, p, dlid)
    case TooLong => !Stops(f, p, path == []) && |path| == MAX_HOPS
    case Looping => !Stops(f, p, path == []) && p in path
    case NoTables => !Stops(f, p, path == []) && !HasTables(f.nodes[p.node])
    case NoRoute =>
      !Stops(f, p, path == []) && HasTables(f.nodes[p.node]) && LookupRoute(f, p.node, dlid) == None
    case _ => !Stops(f, p, path == []) && Forwards(f, p, dlid) && Refuses(f, p, Exit(f, p, dlid), sc, outcome)
  }

  lemma CrossedNext(f: Fabric, start: Port, dlid: nat, sl: nat, path: seq<Port>, p: Port, scs: seq<nat>,
                    vls: seq<nat>, sc: nat, vl: nat)
    requires Crossed(f, start, dlid, sl, path, p, scs, vls) && |path| < MAX_HOPS && p !in path
    requires !Stops(f, p, path == []) && Forwards(f, p, dlid) && PortOk(f, p)
    requires Crosses(f, p, Exit(f, p, dlid), scs[|path|], vls[|path|], sc, vl) && sc < MAX_SCS
    ensures NextEntry(f, Exit(f, p, dlid)).Some?
    ensures Crossed(f, start, dlid, sl, path + [p], NextEntry(f, Exit(f, p, dlid)).value, scs + [sc], vls + [vl])
    ensures Told(f, start, dlid, sl, path + [p], NextEntry(f, Exit(f, p, dlid)).value, scs + [sc], vls + [vl])
            == Told(f, start, dlid, sl, path, p, scs, vls) + [Hop(Some(p), Some(Exit(f, p, dlid)), vl)]
  {
    hide Crosses, StartsOn, Stops, Forwards, FabricOk, PortOk;
    TrailStep(f, dlid, path, p);
    Linked(f, Exit(f, p, dlid));
  }

  lemma Linked(f: Fabric, exit: Port)
    requires FabricOk(f) && exit in f.ports && NextEntry(f, exit).Some?
    ensures NextEntry(f, exit).value in f.ports
    ensures exit.node in f.nodes ==> NextEntry(f, exit).value.node in f.nodes
  {
    Neighbor(f, exit);
  }

  /** The rest of a walk that has crossed `hops`. */
  lemma {:induction false} RestOfWalk(f: Fabric, start: Port, dlid: nat, sl: nat, hops: seq<Port>, p: Port,
                                      scs: seq<nat>, vls: seq<nat>)
    returns (path: seq<Port>, q: Port, scs': seq<nat>, vls': seq<nat>)
    requires Crossed(f, start, dlid, sl, hops, p, scs, vls)
    ensures Crossed(f, start, dlid, sl, path, q, scs', vls')
    ensures var r := WalkFrom(f, p, dlid, scs[|hops|], vls[|hops|], hops, Told(f, start, dlid, sl, hops, p, scs, vls));
            && r.trace == Told(f, start, dlid, sl, path, q, scs', vls')
                        + (if r.outcome == Arrived && !IsSwitch(f, q) then [Hop(Some(q), None, vls'[|path|])] else [])
            && EndsAt(f, dlid, path, q, scs'[|path|], r.outcome)
    decreases MAX_HOPS - |hops|
  {
    hide Trail, AllDistinct, StartsOn, Told, Crossed;
    CrossedFacts(f, start, dlid, sl, hops, p, scs, vls);
    path, q, scs', vls' := hops, p, scs, vls;
    var t := Told(f, start, dlid, sl, hops, p, scs, vls);
    assert t + [] == t;
    Neighbor(f, p);
    if !Stops(f, p, hops == []) && |hops| < MAX_HOPS && p !in hops && Forwards(f, p, dlid) {
      var sc, vl := scs[|hops|], vls[|hops|];
      var exit := Exit(f, p, dlid);
      Neighbor(f, exit);
      NextLaneInRange(f, p, exit, sc, vl);
      match NextLane(f, p, exit, sc, vl) {
        case Refused(_) =>
        case Lane(sc', vl') =>
          CrossedNext(f, start, dlid, sl, hops, p, scs, vls, sc', vl');
          path, q, scs', vls' := RestOfWalk(f, start, dlid, sl, hops + [p], NextEntry(f, exit).value, scs + [sc'],
                                            vls + [vl']);
      }
    }
  }

  lemma CrossedFacts(f: Fabric, start: Port, dlid: nat, sl: nat, path: seq<Port>, p: Port, scs: seq<nat>,
                     vls: seq<nat>)
    requires Crossed(f, start, dlid, sl, path, p, scs, vls)
    ensures FabricOk(f) && p in f.ports && p.node in f.nodes && |path| <= MAX_HOPS
    ensures |scs| == |vls| == |path| + 1 && scs[|path|] < MAX_SCS
  {
  }

  /** Every walk is refused at its start, without a call, or crosses switches up to a port at which one of the
      reasons to end holds. It has then made the calls of those switches, and that at the FI where it arrives,
      with the lanes of the tables. */
  lemma WalkStory(f: Fabric, start: Port, dlid: nat, sl: nat)
    returns (path: seq<Port>, p: Port, scs: seq<nat>, vls: seq<nat>)
    requires CanStart(f, start) && sl < MAX_SLS
    ensures PortOk(f, start)
    ensures var r := Walk(f, start, dlid, sl);
            if StartRefuses(f.ports[start], sl, r.outcome) then r.trace == []
            else
              && Crossed(f, start, dlid, sl, path, p, scs, vls) && EndsAt(f, dlid, path, p, scs[|path|], r.outcome)
              && r.trace == Told(f, start, dlid, sl, path, p, scs, vls)
                          + (if r.outcome == Arrived && !IsSwitch(f, p) then [Hop(Some(p), None, vls[|path|])] else [])
  {
    Neighbor(f, start);
    path, p, scs, vls := [], FirstEntry(f, start), [], [];
    match FirstLane(f.ports[start], sl) {
      case Refused(_) =>
      case Lane(sc, vl) =>
        scs, vls := [sc], [vl];
        assert Crossed(f, start, dlid, sl, path, p, scs, vls);
        var t := Told(f, start, dlid, sl, path, p, scs, vls);
        assert t == if IsSwitch(f, start) then [] else [Hop(None, Some(start), vl)];
        path, p, scs, vls := RestOfWalk(f, start, dlid, sl, path, p, scs, vls);
    }
  }
}
