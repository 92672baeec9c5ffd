/** The builder's walk keeps a LID in 16 bits: when that makes it run round for ever. */
module Runaways {
  import opened Fabrics
  import opened RouteWalking
  import opened CreditRoutes
  import opened RouteGraphs
  import opened RouteRetrace
  import opened GraphViews
  import opened FabricWalks

  /** The walk exceeds every bound. */
  ghost predicate RunsForEver(f: Fabric, db: Db, src: nat, dst: nat, dlid: nat, sl: nat, sls: set<nat>)
    requires DbOk(f, db) && src in db.devices && sl < MAX_SLS
  {
    forall fuel: nat :: |WalkChannels(f, db, src, src, dst, dlid, None, 0, sl, sls, fuel)| == fuel
  }

  ghost predicate NeverLonger(f: Fabric, db: Db, src: nat, dst: nat, dlid: nat, sl: nat, sls: set<nat>, bound: nat)
    requires DbOk(f, db) && src in db.devices && sl < MAX_SLS
  {
    forall fuel: nat :: |WalkChannels(f, db, src, src, dst, dlid, None, 0, sl, sls, fuel)| <= bound
  }

  /** On a route whose end is not the destination but goes on itself, the walk is as long as it is let. */
  lemma {:induction false} RunsOn(f: Fabric, ports: seq<Port>, db: Db, good: bool, start: Port, src: nat, dst: nat,
                                  lid: nat, sl: nat, path: seq<Port>, last: Port, i: nat, prev: Option<Conn>, fuel: nat)
    requires Collected(f, ports, db, {}, good) && (good || RoutesFit(f, ports)) && sl < MAX_SLS && i <= |path| + 1
    requires Way(f, start, lid, path, last) && ExitsRouted(f, db, start, lid, path, last)
    requires DeviceAt(start, path, last, i) in db.devices
    requires IsNode(f, dst, FI) && start.node != dst && last.node != dst
    requires last.node in db.fis && lid in db.devices[last.node].routes
    ensures |WalkChannels(f, db, DeviceAt(start, path, last, i), src, dst, lid, prev, 0, sl, {}, fuel)| == fuel
    decreases fuel, i
  {
    hide DbOk, Wired, Sourced, AllSettled, RoutesFit, Way, ExitsRouted, Standing, Step, IsRecorded;
    var node := DeviceAt(start, path, last, i);
    if fuel > 0 {
      if i <= |path| {
        NotAtDestination(f, start, dst, lid, path, last, i);
        StandsAnywhere(f, start, lid, sl, path, last, i, prev);
        StepRecorded(f, db, start, lid, sl, {}, path, last, {}, i, src, prev, 0);
        StepAlong(f, db, start, lid, sl, {}, path, last, i, src, prev, 0);
        var r := Step(f, db, node, src, lid, prev, 0, sl, {}).value;
        StepOk(f, db, node, src, lid, prev, 0, sl, {});
        RunsOn(f, ports, db, good, start, src, dst, lid, sl, path, last, i + 1, Some(r.0), fuel - 1);
      } else {
        var path', last' := EntryIsKnown(f, ports, db, {}, good, last.node, lid);
        LastIsOwner(f, start, lid, path, last);
        RunsOn(f, ports, db, good, db.devices[last.node].routes[lid], src, dst, lid, sl, path', last', 0, prev, fuel);
      }
    }
  }

  /** With service channels ignored it does not matter how the walk got where it is. */
  lemma StandsAnywhere(f: Fabric, start: Port, lid: nat, sl: nat, path: seq<Port>, last: Port, i: nat,
                       prev: Option<Conn>)
    requires Way(f, start, lid, path, last) && sl < MAX_SLS && i <= |path|
    ensures Standing(f, start, lid, sl, {}, path, last, i, prev, 0)
    ensures IsRecorded(f, start, lid, sl, {}, path, last, {}, i)
    ensures ChannelAt(f, start, lid, sl, {}, path, last, i).sc == 0
  {
  }

  /** With service channels ignored, the walk from one FI to another exceeds every bound if the FI that
      answers for the stored LID goes round, and stops within 65 channels otherwise. */
  lemma RunawayExact(f: Fabric, ports: seq<Port>, db: Db, good: bool, src: nat, dst: nat, sl: nat)
    requires Collected(f, ports, db, {}, good) && (good || RoutesFit(f, ports)) && sl < MAX_SLS
    requires src in db.fis && dst in db.fis && src != dst && src in db.devices && dst in db.devices
    ensures var lid := StoredLid(db.devices[dst].lid);
            && (GoesRound(f, ports, src, dst, lid) <==> RunsAway(f, db, src, dst, lid))
            && if GoesRound(f, ports, src, dst, lid) then RunsForEver(f, db, src, dst, lid, sl, {})
               else NeverLonger(f, db, src, dst, lid, sl, {}, MAX_HOPS + 1)
  {
    hide DbOk, Wired, AllSettled, RoutesFit, LeavesFor, WalkChannels, Way;
    var lid := StoredLid(db.devices[dst].lid);
    FiIsNode(f, db, dst);
    if GoesRound(f, ports, src, dst, lid) {
      LeavesByEntry(f, ports, db, {}, good, src, lid);
      LeavesByEntry(f, ports, db, {}, good, f.lidMap[lid].node, lid);
      forall fuel: nat
        ensures |WalkChannels(f, db, src, src, dst, lid, None, 0, sl, {}, fuel)| == fuel
      {
        var path, last := EntryIsKnown(f, ports, db, {}, good, src, lid);
        RunsOn(f, ports, db, good, db.devices[src].routes[lid], src, dst, lid, sl, path, last, 0, None, fuel);
      }
    } else {
      if RunsAway(f, db, src, dst, lid) {
        RunawayGoesRound(f, ports, db, src, dst, lid);
      }
      forall fuel: nat
        ensures |WalkChannels(f, db, src, src, dst, lid, None, 0, sl, {}, fuel)| <= MAX_HOPS + 1
      {
        Bounded(f, ports, db, good, src, dst, lid, sl, fuel);
      }
    }
  }

  lemma Bounded(f: Fabric, ports: seq<Port>, db: Db, good: bool, src: nat, dst: nat, lid: nat, sl: nat, fuel: nat)
    requires Collected(f, ports, db, {}, good) && (good || RoutesFit(f, ports)) && sl < MAX_SLS
    requires src in db.fis && src in db.devices && !RunsAway(f, db, src, dst, lid)
    ensures |WalkChannels(f, db, src, src, dst, lid, None, 0, sl, {}, fuel)| <= MAX_HOPS + 1
  {
    hide DbOk, Wired, AllSettled, RoutesFit, Way, RunsAway;
    if lid in db.devices[src].routes {
      var x := db.devices[src].routes[lid];
      var path, last := EntryIsKnown(f, ports, db, {}, good, src, lid);
      StandsAnywhere(f, x, lid, sl, path, last, 0, None);
      Follows(f, db, x, dst, lid, sl, {}, path, last, 0, None, 0, fuel);
      ShortEnough(f, x, lid, path, last);
    } else {
      NoEntry(f, db, src, dst, lid, sl, fuel);
    }
  }

  lemma NoEntry(f: Fabric, db: Db, src: nat, dst: nat, lid: nat, sl: nat, fuel: nat)
    requires DbOk(f, db) && src in db.devices && lid !in db.devices[src].routes && sl < MAX_SLS
    ensures WalkChannels(f, db, src, src, dst, lid, None, 0, sl, {}, fuel) == []
  {
  }

  // ---- With service channels in use ----

  /** The channels of recorded connections. */
  ghost function RecordedChannels(db: Db): set<Channel> {
    set n, slot | n in db.devices && slot in db.devices[n].connections :: Channel(n, slot.num, slot.sc)
  }

  predicate HasChannel(db: Db, c: Channel) {
    c.node in db.devices && Slot(c.port, c.sc) in db.devices[c.node].connections
  }

  /** How the walk goes on from a channel: nothing else matters. */
  ghost function WalkOn(f: Fabric, db: Db, c: Channel, src: nat, dst: nat, dlid: nat, sl: nat, sls: set<nat>, fuel: nat)
    : seq<Channel>
    requires DbOk(f, db) && HasChannel(db, c) && sl < MAX_SLS && c.sc < MAX_SCS
  {
    var conn := db.devices[c.node].connections[Slot(c.port, c.sc)];
    assert ConnectionOk(f, db, c.node, Slot(c.port, c.sc));
    WalkChannels(f, db, conn.to.node, src, dst, dlid, Some(conn), c.sc, sl, sls, fuel)
  }

  lemma StepChannel(f: Fabric, db: Db, node: nat, src: nat, dlid: nat, prev: Option<Conn>, sc: nat, sl: nat,
                    sls: set<nat>)
    requires DbOk(f, db) && node in db.devices && sl < MAX_SLS && sc < MAX_SCS
    ensures var r := Step(f, db, node, src, dlid, prev, sc, sl, sls);
            r.Some? ==>
              var c := ChannelOf(r.value.0, r.value.1);
              HasChannel(db, c) && c.sc < MAX_SCS && db.devices[c.node].connections[Slot(c.port, c.sc)] == r.value.0
  {
    StepOk(f, db, node, src, dlid, prev, sc, sl, sls);
    var r := Step(f, db, node, src, dlid, prev, sc, sl, sls);
    if r.Some? {
      assert ConnectionOk(f, db, node, Slot(db.devices[node].routes[dlid].num, r.value.1));
    }
  }

  /** A walk goes on from each of its channels in the same way. */
  lemma {:induction false} WalkTail(f: Fabric, db: Db, node: nat, src: nat, dst: nat, dlid: nat, prev: Option<Conn>,
                                    sc: nat, sl: nat, sls: set<nat>, fuel: nat, i: nat)
    requires DbOk(f, db) && node in db.devices && sl < MAX_SLS && sc < MAX_SCS
    requires i < |WalkChannels(f, db, node, src, dst, dlid, prev, sc, sl, sls, fuel)|
    ensures |WalkChannels(f, db, node, src, dst, dlid, prev, sc, sl, sls, fuel)| <= fuel
    ensures var w := WalkChannels(f, db, node, src, dst, dlid, prev, sc, sl, sls, fuel);
            && HasChannel(db, w[i]) && w[i].sc < MAX_SCS
            && w[i + 1..] == WalkOn(f, db, w[i], src, dst, dlid, sl, sls, fuel - i - 1)
    decreases fuel
  {
    hide DbOk, Step, HasChannel;
    StepOk(f, db, node, src, dlid, prev, sc, sl, sls);
    StepChannel(f, db, node, src, dlid, prev, sc, sl, sls);
    var r := Step(f, db, node, src, dlid, prev, sc, sl, sls).value;
    var w := WalkChannels(f, db, node, src, dst, dlid, prev, sc, sl, sls, fuel);
    var rest := WalkChannels(f, db, r.0.to.node, src, dst, dlid, Some(r.0), r.1, sl, sls, fuel - 1);
    assert w == [ChannelOf(r.0, r.1)] + rest;
    WalkWithin(f, db, r.0.to.node, src, dst, dlid, Some(r.0), r.1, sl, sls, fuel - 1);
    if i > 0 {
      WalkTail(f, db, r.0.to.node, src, dst, dlid, Some(r.0), r.1, sl, sls, fuel - 1, i - 1);
      assert w[i + 1..] == rest[i..];
    } else {
      assert w[1..] == rest;
    }
  }

  lemma {:induction false} WalkWithin(f: Fabric, db: Db, node: nat, src: nat, dst: nat, dlid: nat, prev: Option<Conn>,
                                      sc: nat, sl: nat, sls: set<nat>, fuel: nat)
    requires DbOk(f, db) && node in db.devices && sl < MAX_SLS && sc < MAX_SCS
    ensures |WalkChannels(f, db, node, src, dst, dlid, prev, sc, sl, sls, fuel)| <= fuel
    decreases fuel
  {
    hide DbOk, Step;
    StepOk(f, db, node, src, dlid, prev, sc, sl, sls);
    if fuel > 0 && node != dst && Step(f, db, node, src, dlid, prev, sc, sl, sls).Some? {
      var r := Step(f, db, node, src, dlid, prev, sc, sl, sls).value;
      WalkWithin(f, db, r.0.to.node, src, dst, dlid, Some(r.0), r.1, sl, sls, fuel - 1);
    }
  }

  /** With fewer steps the walk is the same as far as it gets. */
  lemma {:induction false} WalkLess(f: Fabric, db: Db, node: nat, src: nat, dst: nat, dlid: nat, prev: Option<Conn>,
                                    sc: nat, sl: nat, sls: set<nat>, less: nat, fuel: nat)
    requires DbOk(f, db) && node in db.devices && sl < MAX_SLS && sc < MAX_SCS && less <= fuel
    ensures var w := WalkChannels(f, db, node, src, dst, dlid, prev, sc, sl, sls, fuel);
            WalkChannels(f, db, node, src, dst, dlid, prev, sc, sl, sls, less) == w[..if less <= |w| then less else |w|]
    decreases fuel
  {
    hide DbOk, Step;
    StepOk(f, db, node, src, dlid, prev, sc, sl, sls);
    if less > 0 && node != dst && Step(f, db, node, src, dlid, prev, sc, sl, sls).Some? {
      var r := Step(f, db, node, src, dlid, prev, sc, sl, sls).value;
      WalkLess(f, db, r.0.to.node, src, dst, dlid, Some(r.0), r.1, sl, sls, less - 1, fuel - 1);
    }
  }

  /** From a channel to which the walk returns after `p` steps it goes on for ever. */
  lemma {:induction false} GoesOn(f: Fabric, db: Db, c: Channel, src: nat, dst: nat, dlid: nat, sl: nat, sls: set<nat>,
                                  p: nat, fuel: nat)
    requires DbOk(f, db) && HasChannel(db, c) && sl < MAX_SLS && c.sc < MAX_SCS && p > 0
    requires var w := WalkOn(f, db, c, src, dst, dlid, sl, sls, p); |w| == p && w[p - 1] == c
    ensures |WalkOn(f, db, c, src, dst, dlid, sl, sls, fuel)| == fuel
    decreases fuel
  {
    hide DbOk, WalkChannels;
    var conn := db.devices[c.node].connections[Slot(c.port, c.sc)];
    assert conn.to.node in db.devices by {
      ChannelLeads(f, db, c);
    }
    if fuel <= p {
      WalkLess(f, db, conn.to.node, src, dst, dlid, Some(conn), c.sc, sl, sls, fuel, p);
    } else {
      WalkLess(f, db, conn.to.node, src, dst, dlid, Some(conn), c.sc, sl, sls, p, fuel);
      WalkTail(f, db, conn.to.node, src, dst, dlid, Some(conn), c.sc, sl, sls, fuel, p - 1);
      GoesOn(f, db, c, src, dst, dlid, sl, sls, p, fuel - p);
    }
  }

  lemma ChannelLeads(f: Fabric, db: Db, c: Channel)
    requires DbOk(f, db) && HasChannel(db, c)
    ensures db.devices[c.node].connections[Slot(c.port, c.sc)].to.node in db.devices
  {
    assert ConnectionOk(f, db, c.node, Slot(c.port, c.sc));
  }

  ghost predicate Repeats(w: seq<Channel>) {
    exists i, j :: 0 <= i < j < |w| && w[i] == w[j]
  }

  /** A walk that visits a channel twice is as long as it is let. */
  lemma RepeatRuns(f: Fabric, db: Db, src: nat, dst: nat, dlid: nat, sl: nat, sls: set<nat>, n: nat, fuel: nat)
    requires DbOk(f, db) && src in db.devices && sl < MAX_SLS
    requires Repeats(WalkChannels(f, db, src, src, dst, dlid, None, 0, sl, sls, n))
    ensures |WalkChannels(f, db, src, src, dst, dlid, None, 0, sl, sls, fuel)| == fuel
  {
    hide DbOk, WalkChannels;
    var w := WalkChannels(f, db, src, src, dst, dlid, None, 0, sl, sls, n);
    var i: nat, j: nat :| i < j < |w| && w[i] == w[j];
    WalkTail(f, db, src, src, dst, dlid, None, 0, sl, sls, n, i);
    var c, p := w[i], j - i;
    ChannelLeads(f, db, c);
    var conn := db.devices[c.node].connections[Slot(c.port, c.sc)];
    WalkLess(f, db, conn.to.node, src, dst, dlid, Some(conn), c.sc, sl, sls, p, n - i - 1);
    assert w[i + 1..][p - 1] == w[j];
    if fuel <= i + 1 {
      WalkLess(f, db, src, src, dst, dlid, None, 0, sl, sls, fuel, n);
    } else {
      var m := if fuel <= n then n else fuel;
      WalkLess(f, db, src, src, dst, dlid, None, 0, sl, sls, i + 1, fuel);
      WalkLess(f, db, src, src, dst, dlid, None, 0, sl, sls, i + 1, n);
      var v := WalkChannels(f, db, src, src, dst, dlid, None, 0, sl, sls, fuel);
      assert |WalkChannels(f, db, src, src, dst, dlid, None, 0, sl, sls, i + 1)| == i + 1;
      assert v[..i + 1] == w[..i + 1];
      assert v[i] == v[..i + 1][i] == w[..i + 1][i] == c;
      WalkTail(f, db, src, src, dst, dlid, None, 0, sl, sls, fuel, i);
      GoesOn(f, db, c, src, dst, dlid, sl, sls, p, fuel - i - 1);
    }
  }

  lemma FrontRepeats(w: seq<Channel>, n: nat)
    requires n <= |w|
    ensures Repeats(w[..n]) ==> Repeats(w)
  {
    if Repeats(w[..n]) {
      var i, j :| 0 <= i < j < |w[..n]| && w[..n][i] == w[..n][j];
      assert w[i] == w[j];
    }
  }

  lemma {:induction false} DistinctFits(w: seq<Channel>, all: set<Channel>)
    requires (forall c <- w :: c in all) && !Repeats(w)
    ensures |w| <= |all|
    decreases |w|
  {
    if w != [] {
      var n := |w| - 1;
      forall i | 0 <= i < n
        ensures w[..n][i] in all - {w[n]}
      {
        assert w[i] in w;
      }
      FrontRepeats(w, n);
      DistinctFits(w[..n], all - {w[n]});
    }
  }

  lemma VisitedRecorded(f: Fabric, db: Db, src: nat, dst: nat, dlid: nat, sl: nat, sls: set<nat>, fuel: nat)
    requires DbOk(f, db) && src in db.devices && sl < MAX_SLS
    ensures forall c <- WalkChannels(f, db, src, src, dst, dlid, None, 0, sl, sls, fuel) :: c in RecordedChannels(db)
  {
    hide DbOk, WalkChannels;
    var w := WalkChannels(f, db, src, src, dst, dlid, None, 0, sl, sls, fuel);
    forall c | c in w
      ensures c in RecordedChannels(db)
    {
      var i: nat :| i < |w| && w[i] == c;
      WalkTail(f, db, src, src, dst, dlid, None, 0, sl, sls, fuel, i);
      assert Slot(c.port, c.sc).num == c.port && Slot(c.port, c.sc).sc == c.sc;
    }
  }

  /** It visits some channel twice. */
  ghost predicate Returns(f: Fabric, db: Db, src: nat, dst: nat, dlid: nat, sl: nat, sls: set<nat>)
    requires DbOk(f, db) && src in db.devices && sl < MAX_SLS
  {
    exists n: nat :: Repeats(WalkChannels(f, db, src, src, dst, dlid, None, 0, sl, sls, n))
  }

  /** Whatever was recorded, and with service channels in use or not: the walk exceeds every bound if and
      only if it visits some channel twice; otherwise it is never longer than there are recorded
      connections. */
  lemma RepeatExact(f: Fabric, db: Db, src: nat, dst: nat, dlid: nat, sl: nat, sls: set<nat>)
    requires DbOk(f, db) && src in db.devices && sl < MAX_SLS
    ensures RunsForEver(f, db, src, dst, dlid, sl, sls) <==> Returns(f, db, src, dst, dlid, sl, sls)
    ensures RunsForEver(f, db, src, dst, dlid, sl, sls)
            || NeverLonger(f, db, src, dst, dlid, sl, sls, |RecordedChannels(db)|)
  {
    hide DbOk, WalkChannels, RecordedChannels, Repeats;
    if Returns(f, db, src, dst, dlid, sl, sls) {
      var n: nat :| Repeats(WalkChannels(f, db, src, src, dst, dlid, None, 0, sl, sls, n));
      forall fuel: nat
        ensures |WalkChannels(f, db, src, src, dst, dlid, None, 0, sl, sls, fuel)| == fuel
      {
        RepeatRuns(f, db, src, dst, dlid, sl, sls, n, fuel);
      }
    } else {
      forall fuel: nat
        ensures |WalkChannels(f, db, src, src, dst, dlid, None, 0, sl, sls, fuel)| <= |RecordedChannels(db)|
      {
        VisitedRecorded(f, db, src, dst, dlid, sl, sls, fuel);
        DistinctFits(WalkChannels(f, db, src, src, dst, dlid, None, 0, sl, sls, fuel), RecordedChannels(db));
      }
      var m := |RecordedChannels(db)| + 1;
      assert |WalkChannels(f, db, src, src, dst, dlid, None, 0, sl, sls, m)| < m;
    }
  }

  // ---- A fabric on which it does not stop ----

  /** A pair of FIs between which the walk goes round, whatever the collection has recorded. */
  lemma RunsAwayBetween(f: Fabric, ports: seq<Port>, db: Db, good: bool, src: nat, t: Port, bound: nat)
    requires Collected(f, ports, db, {}, good) && PortsFit(f) && t in f.ports && src != t.node
    requires forall p <- ports :: p.node == t.node ==> p == t
    requires GoesRound(f, ports, src, t.node, StoredLid(f.ports[t].lid))
    requires LeavesFor(f, ports, t.node, StoredLid(f.ports[t].lid))
    ensures DbOk(f, db) && src in db.fis && t.node in db.fis && src in db.devices && t.node in db.devices
    ensures db.devices[t.node].lid == f.ports[t].lid
    ensures |WalkChannels(f, db, src, src, t.node, StoredLid(f.ports[t].lid), None, 0, 0, {}, bound)| == bound
  {
    hide DbOk, Wired, AllSettled, LeavesFor, WalkChannels;
    var lid := StoredLid(f.ports[t].lid);
    PortsFitRoutes(f, ports);
    LeavesByEntry(f, ports, db, {}, good, src, lid);
    LeavesByEntry(f, ports, db, {}, good, t.node, lid);
    FiIsNode(f, db, t.node);
    assert FiSourced(f, ports, db, t.node);
    RunawayExact(f, ports, db, good, src, t.node, 0);
  }

  // The smallest fabric on which it does not stop: an FI (node 1) with two ports and an FI (node 3)
  // with one, on one switch (node 2). LID 65541 is stored as 5, which belongs to node 1.

  function PortOn(neighbor: Port, lid: nat): PortInfo {
    PortInfo(Some(neighbor), lid, 0, true, None)
  }

  const RUNAWAY_FABRIC := Fabric(
    map[1 := Node(FI, false, NopMode, None), 3 := Node(FI, false, NopMode, None),
        2 := Node(SW, true, LinearMode, Some([0xff, 0xff, 0xff, 0xff, 0xff, 1, 2]))],
    map[Port(1, 1) := PortOn(Port(2, 1), 5), Port(1, 2) := PortOn(Port(2, 2), 6),
        Port(3, 1) := PortOn(Port(2, 3), 65541),
        Port(2, 1) := PortOn(Port(1, 1), 0), Port(2, 2) := PortOn(Port(1, 2), 0), Port(2, 3) := PortOn(Port(3, 1), 0)],
    map[5 := Port(1, 1), 6 := Port(1, 2), 65541 := Port(3, 1)])

  const RUNAWAY_PORTS := [Port(1, 1), Port(1, 2), Port(3, 1)]

  lemma RunawayRegistered(p: Port, lid: nat)
    ensures Registered(RUNAWAY_FABRIC, p, lid)
  {
    assert Pow2(0) == 1;
  }

  lemma RunawayPortOk(p: Port)
    requires p in RUNAWAY_FABRIC.ports
    ensures PortOk(RUNAWAY_FABRIC, p) && p.num < MAX_CONNECTIONS
  {
    var q := RUNAWAY_FABRIC.ports[p].neighbor.value;
    assert p == Port(1, 1) || p == Port(1, 2) || p == Port(3, 1) || p == Port(2, 1) || p == Port(2, 2)
      || p == Port(2, 3);
    assert RUNAWAY_FABRIC.ports[q].neighbor == Some(p);
  }

  lemma RunawayFabricOk()
    ensures FabricOk(RUNAWAY_FABRIC) && PortsFit(RUNAWAY_FABRIC)
  {
    hide Registered, PortOk, RUNAWAY_FABRIC;
    forall p | p in RUNAWAY_FABRIC.ports ensures PortOk(RUNAWAY_FABRIC, p) && p.num < MAX_CONNECTIONS {
      RunawayPortOk(p);
    }
    forall p, lid: nat ensures Registered(RUNAWAY_FABRIC, p, lid) {
      RunawayRegistered(p, lid);
    }
  }

  /** What lies between the other ports and port 1 of node 1. */
  lemma WayToFive(x: Port)
    requires x == Port(1, 2) || x == Port(3, 1)
    ensures var f, entry := RUNAWAY_FABRIC, Port(2, if x == Port(1, 2) then 2 else 3);
            && {x, entry, Port(2, 1), Port(1, 1)} <= f.ports.Keys && {1, 2, 3} <= f.nodes.Keys
            && IsSwitch(f, entry) && !IsSwitch(f, Port(1, 1)) && !IsSwitch(f, x)
            && f.ports[x].neighbor == Some(entry) && f.ports[Port(2, 1)].neighbor == Some(Port(1, 1))
            && f.ports[Port(1, 1)].neighbor.Some?
            && f.ports[x].lid != 0 && f.ports[x].lmc == 0
            && f.ports[Port(1, 1)].lid == 5 && f.ports[Port(1, 1)].lmc == 0
    ensures HasTables(RUNAWAY_FABRIC.nodes[2]) && LookupRoute(RUNAWAY_FABRIC, 2, 5) == Some(Port(2, 1))
    ensures NoQos(RUNAWAY_FABRIC)
  {
  }

  /** Node 1 by its second port, and node 3, have a route to LID 5. */
  lemma RoutesToFive(x: Port)
    requires x == Port(1, 2) || x == Port(3, 1)
    ensures Recordable(RUNAWAY_FABRIC, RUNAWAY_PORTS, x, 5)
  {
    hide Walk, RUNAWAY_FABRIC, NoQos;
    var f := RUNAWAY_FABRIC;
    RunawayFabricOk();
    WayToFive(x);
    assert Pow2(0) == 1;
    var path := [f.ports[x].neighbor.value];
    assert Exit(f, path[0], 5) == Port(2, 1) && After(path, Port(1, 1), 0) == Port(1, 1);
    assert Way(f, x, 5, path, Port(1, 1));
    WayArrives(f, x, 5, 0, path, Port(1, 1));
    assert RUNAWAY_PORTS[0] == Port(1, 1) && RUNAWAY_PORTS[1] == Port(1, 2) && RUNAWAY_PORTS[2] == Port(3, 1);
    assert PathTo(f, x, Port(1, 1), 5);
  }

  lemma GoesRoundThere()
    ensures PortsFit(RUNAWAY_FABRIC) && Port(3, 1) in RUNAWAY_FABRIC.ports
    ensures StoredLid(RUNAWAY_FABRIC.ports[Port(3, 1)].lid) == 5
    ensures GoesRound(RUNAWAY_FABRIC, RUNAWAY_PORTS, 1, 3, 5) && LeavesFor(RUNAWAY_FABRIC, RUNAWAY_PORTS, 3, 5)
    ensures forall p <- RUNAWAY_PORTS :: p.node == 3 ==> p == Port(3, 1)
  {
    hide Recordable;
    RunawayFabricOk();
    RoutesToFive(Port(1, 2));
    RoutesToFive(Port(3, 1));
    assert LeavesFor(RUNAWAY_FABRIC, RUNAWAY_PORTS, 1, 5);
  }

  /** Where LIDs exceed 16 bits the walk can go round for ever: on this fabric, whatever routes the
      collection has recorded, the walk from node 1 to node 3 is longer than any bound. */
  lemma StoredLidRunsAway(db: Db, good: bool, bound: nat)
    requires Collected(RUNAWAY_FABRIC, RUNAWAY_PORTS, db, {}, good)
    ensures DbOk(RUNAWAY_FABRIC, db) && 1 in db.fis && 3 in db.fis
    ensures 1 in db.devices && 3 in db.devices && StoredLid(db.devices[3].lid) == 5
    ensures |WalkChannels(RUNAWAY_FABRIC, db, 1, 1, 3, 5, None, 0, 0, {}, bound)| == bound
  {
    hide *;
    GoesRoundThere();
    RunsAwayBetween(RUNAWAY_FABRIC, RUNAWAY_PORTS, db, good, 1, Port(3, 1), bound);
  }
}
