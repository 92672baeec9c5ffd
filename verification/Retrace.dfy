/** The builder's walk along a recorded route: it visits the exits of the route, on the service channels
    that the SC tables give, as far as these are recorded. Virtual lanes play no part in it. */
module RouteRetrace {
  import opened Fabrics
  import opened RouteWalking
  import opened CreditRoutes
  import opened GraphViews
  import opened RouteGraphs

  // ---- The channels of a route ----

  /** A route between FI ports. */
  ghost predicate Way(f: Fabric, start: Port, dlid: nat, path: seq<Port>, last: Port) {
    && RouteFrom(f, start, dlid, path, last) && !IsSwitch(f, start) && !IsSwitch(f, last) && dlid != 0
  }

  /** The port by which the start (`i == 0`) or the `i`-th switch is left. */
  ghost function ExitOf(f: Fabric, start: Port, dlid: nat, path: seq<Port>, last: Port, i: nat): (p: Port)
    requires Way(f, start, dlid, path, last) && i <= |path|
    ensures p in f.ports && f.ports[p].neighbor == Some(if i < |path| then path[i] else last)
  {
    if i == 0 then
      Neighbor(f, start);
      start
    else
      RoutePorts(f, dlid, path, last);
      var p := Exit(f, path[i - 1], dlid);
      Neighbor(f, p);
      LinkedExit(f, dlid, path, last, i - 1);
      p
  }

  /** A switch on the way between FIs is not left by its own port 0. */
  lemma LinkedExit(f: Fabric, dlid: nat, path: seq<Port>, last: Port, i: nat)
    requires Route(f, dlid, path, last) && !IsSwitch(f, last) && i < |path|
    ensures Forwards(f, path[i], dlid)
    ensures f.ports[Exit(f, path[i], dlid)].neighbor == Some(if i + 1 < |path| then path[i + 1] else last)
  {
    var x := Exit(f, path[i], dlid);
    Neighbor(f, x);
    assert NextEntry(f, Exit(f, path[i], dlid)) == Some(After(path, last, i));
    assert i + 1 < |path| ==> !Stops(f, path[i + 1], i + 1 == 0);
  }

  /** The service channel after crossing a switch from `entry` to `exit`, as the SC tables have it: 15 is
      looked up like any other. */
  function ScOut(f: Fabric, entry: Port, exit: Port, sc: nat): (next: nat)
    requires entry in f.ports && PortOk(f, entry) && sc < MAX_SCS
    ensures next < MAX_SCS
  {
    var info := f.ports[entry];
    if info.qos.Some? && exit.num in info.qos.value.sc2sc then info.qos.value.sc2sc[exit.num][sc] else sc
  }

  /** The service channel by which the start or the `i`-th switch is left: the SC tables along the route,
      composed. */
  ghost function ScAt(f: Fabric, start: Port, dlid: nat, sl: nat, path: seq<Port>, last: Port, i: nat): (sc: nat)
    requires Way(f, start, dlid, path, last) && sl < MAX_SLS && i <= |path|
    ensures sc < MAX_SCS
  {
    Neighbor(f, start);
    if i == 0 then
      (if f.ports[start].qos.Some? then f.ports[start].qos.value.sl2sc[sl] else 0)
    else
      RoutePorts(f, dlid, path, last);
      ScOut(f, path[i - 1], ExitOf(f, start, dlid, path, last, i), ScAt(f, start, dlid, sl, path, last, i - 1))
  }

  /** The channel by which the start or the `i`-th switch is left: on service channel 0 when service
      channels are ignored. */
  ghost function ChannelAt(f: Fabric, start: Port, dlid: nat, sl: nat, sls: set<nat>, path: seq<Port>, last: Port,
                           i: nat): Channel
    requires Way(f, start, dlid, path, last) && sl < MAX_SLS && i <= |path|
  {
    var p := ExitOf(f, start, dlid, path, last, i);
    Channel(p.node, p.num, if sls == {} then 0 else ScAt(f, start, dlid, sl, path, last, i))
  }

  /** The channels from the `i`-th on. */
  ghost function ChannelsFrom(f: Fabric, start: Port, dlid: nat, sl: nat, sls: set<nat>, path: seq<Port>, last: Port,
                              i: nat)
    : (cs: seq<Channel>)
    requires Way(f, start, dlid, path, last) && sl < MAX_SLS && i <= |path| + 1
    ensures |cs| == |path| + 1 - i
    decreases |path| + 1 - i
  {
    if i > |path| then []
    else [ChannelAt(f, start, dlid, sl, sls, path, last, i)] + ChannelsFrom(f, start, dlid, sl, sls, path, last, i + 1)
  }

  lemma {:induction false} ChannelsIndex(f: Fabric, start: Port, dlid: nat, sl: nat, sls: set<nat>, path: seq<Port>,
                                         last: Port, i: nat, k: nat)
    requires Way(f, start, dlid, path, last) && sl < MAX_SLS && i <= k <= |path|
    ensures ChannelsFrom(f, start, dlid, sl, sls, path, last, i)[k - i]
            == ChannelAt(f, start, dlid, sl, sls, path, last, k)
    decreases k - i
  {
    if i < k {
      ChannelsIndex(f, start, dlid, sl, sls, path, last, i + 1, k);
    }
  }

  // ---- One step of the builder along a route ----

  function DeviceAt(start: Port, path: seq<Port>, last: Port, i: nat): nat {
    if i == 0 then start.node else if i - 1 < |path| then path[i - 1].node else last.node
  }

  /** How the builder stands at the start or at the `i`-th switch of a route. */
  ghost predicate Standing(f: Fabric, start: Port, dlid: nat, sl: nat, sls: set<nat>, path: seq<Port>, last: Port,
                           i: nat, prev: Option<Conn>, sc: nat)
    requires Way(f, start, dlid, path, last) && sl < MAX_SLS && i <= |path| + 1
  {
    && sc == (if i == 0 then 0 else ChannelAt(f, start, dlid, sl, sls, path, last, i - 1).sc)
    && (sls != {} && i > 0 ==> prev.Some? && prev.value.to == (if i - 1 < |path| then path[i - 1] else last))
  }

  lemma ChannelInRange(f: Fabric, start: Port, dlid: nat, sl: nat, sls: set<nat>, path: seq<Port>, last: Port, i: nat)
    requires Way(f, start, dlid, path, last) && sl < MAX_SLS && i <= |path|
    ensures ChannelAt(f, start, dlid, sl, sls, path, last, i).sc < MAX_SCS
  {
  }

  /** On the way the walk is at switches. */
  lemma SwitchOnWay(f: Fabric, start: Port, dlid: nat, path: seq<Port>, last: Port, i: nat)
    requires Way(f, start, dlid, path, last) && 0 < i <= |path|
    ensures path[i - 1] in f.ports && PortOk(f, path[i - 1]) && IsSwitch(f, path[i - 1]) && path[i - 1].num != 0
    ensures path[i - 1].node != start.node
    ensures Forwards(f, path[i - 1], dlid)
  {
    RoutePorts(f, dlid, path, last);
    assert !Stops(f, path[i - 1], i - 1 == 0);
    var p := ExitOf(f, start, dlid, path, last, i - 1);
    Neighbor(f, p);
  }

  lemma DeviceKnown(f: Fabric, start: Port, dlid: nat, path: seq<Port>, last: Port, i: nat)
    requires Way(f, start, dlid, path, last) && i <= |path|
    ensures DeviceAt(start, path, last, i) in f.nodes
  {
    if i > 0 {
      SwitchOnWay(f, start, dlid, path, last, i);
    }
  }

  lemma FirstSc(f: Fabric, start: Port, dlid: nat, sl: nat, sls: set<nat>, path: seq<Port>, last: Port,
                prev: Option<Conn>)
    requires Way(f, start, dlid, path, last) && sl < MAX_SLS && sls != {}
    ensures StepSc(f, start.node, start.node, ExitOf(f, start, dlid, path, last, 0), prev, 0, sl, sls)
            == Some(ChannelAt(f, start, dlid, sl, sls, path, last, 0).sc)
  {
  }

  lemma NextSc(f: Fabric, start: Port, dlid: nat, sl: nat, sls: set<nat>, path: seq<Port>, last: Port, i: nat,
               prev: Option<Conn>, sc: nat)
    requires Way(f, start, dlid, path, last) && sl < MAX_SLS && sls != {}
    requires 0 < i <= |path| && sc < MAX_SCS && Standing(f, start, dlid, sl, sls, path, last, i, prev, sc)
    ensures path[i - 1].node in f.nodes
    ensures StepSc(f, path[i - 1].node, start.node, ExitOf(f, start, dlid, path, last, i), prev, sc, sl, sls)
            == Some(ChannelAt(f, start, dlid, sl, sls, path, last, i).sc)
  {
    SwitchOnWay(f, start, dlid, path, last, i);
  }

  /** The builder looks up the same tables. Where it began matters only to the service channels. */
  lemma SameSc(f: Fabric, start: Port, dlid: nat, sl: nat, sls: set<nat>, path: seq<Port>, last: Port, i: nat,
               src: nat, prev: Option<Conn>, sc: nat)
    requires Way(f, start, dlid, path, last) && sl < MAX_SLS && i <= |path| && sc < MAX_SCS
    requires sls != {} ==> src == start.node
    requires Standing(f, start, dlid, sl, sls, path, last, i, prev, sc)
    ensures DeviceAt(start, path, last, i) in f.nodes
    ensures StepSc(f, DeviceAt(start, path, last, i), src, ExitOf(f, start, dlid, path, last, i), prev, sc, sl, sls)
            == Some(ChannelAt(f, start, dlid, sl, sls, path, last, i).sc)
  {
    hide ExitOf, ScAt, Way;
    DeviceKnown(f, start, dlid, path, last, i);
    if sls != {} {
      if i == 0 {
        FirstSc(f, start, dlid, sl, sls, path, last, prev);
      } else {
        NextSc(f, start, dlid, sl, sls, path, last, i, prev, sc);
      }
    }
  }

  /** Where the builder goes on from a route, it takes the route's exit, channel and link; and it goes on
      where the exit and the channel are recorded. */
  lemma StepAlong(f: Fabric, db: Db, start: Port, dlid: nat, sl: nat, sls: set<nat>, path: seq<Port>, last: Port,
                  i: nat, src: nat, prev: Option<Conn>, sc: nat)
    requires DbOk(f, db) && Way(f, start, dlid, path, last) && sl < MAX_SLS && i <= |path| && sc < MAX_SCS
    requires Standing(f, start, dlid, sl, sls, path, last, i, prev, sc)
    requires DeviceAt(start, path, last, i) in db.devices && (sls != {} ==> src == start.node)
    requires start.node in db.devices && dlid in db.devices[start.node].routes
    requires db.devices[start.node].routes[dlid] == start
    ensures var node := DeviceAt(start, path, last, i); var c := ChannelAt(f, start, dlid, sl, sls, path, last, i);
            var r := Step(f, db, node, src, dlid, prev, sc, sl, sls);
            && (r.Some? ==>
                  && ChannelOf(r.value.0, r.value.1) == c && r.value.1 == c.sc
                  && r.value.0.to.node == DeviceAt(start, path, last, i + 1)
                  && Standing(f, start, dlid, sl, sls, path, last, i + 1, Some(r.value.0), r.value.1))
            && (Routed(db, dlid, ExitOf(f, start, dlid, path, last, i)) ==>
                  (r.Some? <==>
                   Slot(ExitOf(f, start, dlid, path, last, i).num, c.sc) in db.devices[node].connections))
  {
    var node := DeviceAt(start, path, last, i);
    var x := ExitOf(f, start, dlid, path, last, i);
    SameSc(f, start, dlid, sl, sls, path, last, i, src, prev, sc);
    ChannelInRange(f, start, dlid, sl, sls, path, last, i);
    if i > 0 {
      SwitchOnWay(f, start, dlid, path, last, i);
    }
    if dlid in db.devices[node].routes {
      assert RouteOk(f, db, node, dlid);
      assert db.devices[node].routes[dlid] == x;
      var slot := Slot(x.num, ChannelAt(f, start, dlid, sl, sls, path, last, i).sc);
      if slot in db.devices[node].connections {
        assert ConnectionOk(f, db, node, slot);
      }
    }
  }

  predicate IsPrefix(a: seq<Channel>, b: seq<Channel>) {
    a <= b
  }

  /** From any point of a route the builder visits the channels of the rest of the route, as far as it
      gets, and nothing after. */
  lemma {:induction false} Follows(f: Fabric, db: Db, start: Port, dst: nat, dlid: nat, sl: nat, sls: set<nat>,
                                   path: seq<Port>, last: Port, i: nat, prev: Option<Conn>, sc: nat, fuel: nat)
    requires DbOk(f, db) && Way(f, start, dlid, path, last) && sl < MAX_SLS && i <= |path| + 1 && sc < MAX_SCS
    requires Standing(f, start, dlid, sl, sls, path, last, i, prev, sc)
    requires DeviceAt(start, path, last, i) in db.devices && !RunsAway(f, db, start.node, dst, dlid)
    requires start.node in db.devices && dlid in db.devices[start.node].routes
    requires db.devices[start.node].routes[dlid] == start
    ensures IsPrefix(WalkChannels(f, db, DeviceAt(start, path, last, i), start.node, dst, dlid, prev, sc, sl, sls,
                                  fuel),
                     ChannelsFrom(f, start, dlid, sl, sls, path, last, i))
    decreases fuel
  {
    hide DbOk, Way, Step, Standing, ChannelAt;
    var node := DeviceAt(start, path, last, i);
    if fuel > 0 && node != dst {
      if i <= |path| {
        StepAlong(f, db, start, dlid, sl, sls, path, last, i, start.node, prev, sc);
        var r := Step(f, db, node, start.node, dlid, prev, sc, sl, sls);
        if r.Some? {
          StepOk(f, db, node, start.node, dlid, prev, sc, sl, sls);
          Follows(f, db, start, dst, dlid, sl, sls, path, last, i + 1, Some(r.value.0), r.value.1, fuel - 1);
        }
      } else {
        NothingAfter(f, db, start, dst, dlid, path, last, prev, sc, sl, sls);
      }
    }
  }

  /** At the end of a route that does not run away there is no going on. */
  lemma NothingAfter(f: Fabric, db: Db, start: Port, dst: nat, dlid: nat, path: seq<Port>, last: Port,
                     prev: Option<Conn>, sc: nat, sl: nat, sls: set<nat>)
    requires DbOk(f, db) && Way(f, start, dlid, path, last) && sl < MAX_SLS && sc < MAX_SCS
    requires last.node in db.devices && last.node != dst && !RunsAway(f, db, start.node, dst, dlid)
    requires start.node in db.devices && dlid in db.devices[start.node].routes
    ensures Step(f, db, last.node, start.node, dlid, prev, sc, sl, sls) == None
  {
    assert Registered(f, last, dlid);
  }

  /** Every linked port has its tables. */
  ghost predicate QosLinked(f: Fabric) {
    forall p <- f.ports :: f.ports[p].neighbor.Some? ==> f.ports[p].qos.Some?
  }

  /** The hop by the `i`-th exit of a route is recorded for the channel there. */
  ghost predicate IsRecorded(f: Fabric, start: Port, dlid: nat, sl: nat, sls: set<nat>, path: seq<Port>, last: Port,
                             used: set<nat>, i: nat)
    requires Way(f, start, dlid, path, last) && sl < MAX_SLS && i <= |path|
  {
    ChannelAt(f, start, dlid, sl, sls, path, last, i).sc in SlotScs(f, ExitOf(f, start, dlid, path, last, i), used)
  }

  /** The first exit, from the `i`-th on, for whose channel the hop is not recorded. */
  ghost function FirstLost(f: Fabric, start: Port, dlid: nat, sl: nat, sls: set<nat>, path: seq<Port>, last: Port,
                           used: set<nat>, i: nat): (j: nat)
    requires Way(f, start, dlid, path, last) && sl < MAX_SLS && i <= |path| + 1
    ensures i <= j <= |path| + 1
    decreases |path| + 1 - i
  {
    if i > |path| || !IsRecorded(f, start, dlid, sl, sls, path, last, used, i) then i
    else FirstLost(f, start, dlid, sl, sls, path, last, used, i + 1)
  }

  lemma {:induction false} LostAfter(f: Fabric, start: Port, dlid: nat, sl: nat, sls: set<nat>, path: seq<Port>,
                                     last: Port, used: set<nat>, i: nat, k: nat)
    requires Way(f, start, dlid, path, last) && sl < MAX_SLS && i <= k <= |path|
    ensures k < FirstLost(f, start, dlid, sl, sls, path, last, used, i)
            <==> forall j: nat {:trigger IsRecorded(f, start, dlid, sl, sls, path, last, used, j)} ::
                   i <= j <= k ==> IsRecorded(f, start, dlid, sl, sls, path, last, used, j)
    decreases |path| + 1 - i
  {
    hide Way, IsRecorded;
    if i < k {
      LostAfter(f, start, dlid, sl, sls, path, last, used, i + 1, k);
    }
  }

  /** Every exit of a route is recorded. */
  ghost predicate ExitsRouted(f: Fabric, db: Db, start: Port, dlid: nat, path: seq<Port>, last: Port)
    requires Way(f, start, dlid, path, last)
  {
    forall i: nat {:trigger ExitOf(f, start, dlid, path, last, i)} :: i <= |path| ==>
      Routed(db, dlid, ExitOf(f, start, dlid, path, last, i))
  }

  /** One step further on a recorded route: the builder takes it if the hop is recorded for the channel;
      otherwise it does not, if all ports have tables or channels are ignored. */
  lemma StepRecorded(f: Fabric, db: Db, start: Port, dlid: nat, sl: nat, sls: set<nat>, path: seq<Port>, last: Port,
                     used: set<nat>, i: nat, src: nat, prev: Option<Conn>, sc: nat)
    requires DbOk(f, db) && Wired(f, db, used) && Way(f, start, dlid, path, last) && sl < MAX_SLS
    requires i <= |path| && sc < MAX_SCS && (sls != {} ==> src == start.node)
    requires Standing(f, start, dlid, sl, sls, path, last, i, prev, sc)
    requires ExitsRouted(f, db, start, dlid, path, last)
    ensures DeviceAt(start, path, last, i) in db.devices
    ensures start.node in db.devices && dlid in db.devices[start.node].routes
    ensures db.devices[start.node].routes[dlid] == start
    ensures var r := Step(f, db, DeviceAt(start, path, last, i), src, dlid, prev, sc, sl, sls);
            && (IsRecorded(f, start, dlid, sl, sls, path, last, used, i) ==> r.Some?)
            && (r.Some? && (used == {} || QosLinked(f)) ==> IsRecorded(f, start, dlid, sl, sls, path, last, used, i))
  {
    hide DbOk, ChannelAt, ScAt, Standing, Step;
    var x := ExitOf(f, start, dlid, path, last, i);
    var c := ChannelAt(f, start, dlid, sl, sls, path, last, i);
    assert Routed(db, dlid, x) && Routed(db, dlid, ExitOf(f, start, dlid, path, last, 0));
    if i > 0 {
      SwitchOnWay(f, start, dlid, path, last, i);
    }
    assert x.node == DeviceAt(start, path, last, i);
    assert RouteWired(f, db, used, x.node, dlid);
    StepAlong(f, db, start, dlid, sl, sls, path, last, i, src, prev, sc);
    Neighbor(f, x);
    if Slot(x.num, c.sc) in db.devices[x.node].connections {
      assert SlotUsed(f, used, Port(x.node, Slot(x.num, c.sc).num), Slot(x.num, c.sc).sc);
    }
  }

  /** The builder follows a recorded route exactly to the first hop that is not recorded for the channel
      there, or to the end. */
  lemma {:induction false} FollowsExact(f: Fabric, db: Db, start: Port, dst: nat, dlid: nat, sl: nat, sls: set<nat>,
                                        path: seq<Port>, last: Port, used: set<nat>, i: nat, prev: Option<Conn>,
                                        sc: nat, fuel: nat)
    requires DbOk(f, db) && Wired(f, db, used) && Way(f, start, dlid, path, last) && sl < MAX_SLS && i <= |path| + 1
    requires Standing(f, start, dlid, sl, sls, path, last, i, prev, sc)
    requires ExitsRouted(f, db, start, dlid, path, last) && (used == {} || QosLinked(f))
    requires IsNode(f, dst, FI) && start.node != dst && fuel > |path| + 1 - i && sc < MAX_SCS
    requires last.node == dst || !RunsAway(f, db, start.node, dst, dlid)
    requires DeviceAt(start, path, last, i) in db.devices
    ensures var j := FirstLost(f, start, dlid, sl, sls, path, last, used, i);
            && WalkChannels(f, db, DeviceAt(start, path, last, i), start.node, dst, dlid, prev, sc, sl, sls, fuel)
               == ChannelsFrom(f, start, dlid, sl, sls, path, last, i)[..j - i]
            && WalkStop(f, db, DeviceAt(start, path, last, i), start.node, dst, dlid, prev, sc, sl, sls, fuel)
               == DeviceAt(start, path, last, j)
    decreases fuel
  {
    hide DbOk, Wired, Step, Standing, ChannelAt, ExitsRouted, Way, IsRecorded, RunsAway, QosLinked;
    var node := DeviceAt(start, path, last, i);
    if i <= |path| {
      NotAtDestination(f, start, dst, dlid, path, last, i);
      StepRecorded(f, db, start, dlid, sl, sls, path, last, used, i, start.node, prev, sc);
      StepAlong(f, db, start, dlid, sl, sls, path, last, i, start.node, prev, sc);
      if IsRecorded(f, start, dlid, sl, sls, path, last, used, i) {
        var r := Step(f, db, node, start.node, dlid, prev, sc, sl, sls).value;
        StepOk(f, db, node, start.node, dlid, prev, sc, sl, sls);
        FollowsExact(f, db, start, dst, dlid, sl, sls, path, last, used, i + 1, Some(r.0), r.1, fuel - 1);
      }
    } else if node != dst {
      StartRouted(f, db, start, dlid, path, last);
      NothingAfter(f, db, start, dst, dlid, path, last, prev, sc, sl, sls);
    }
  }

  lemma StartRouted(f: Fabric, db: Db, start: Port, dlid: nat, path: seq<Port>, last: Port)
    requires Way(f, start, dlid, path, last) && ExitsRouted(f, db, start, dlid, path, last)
    ensures Routed(db, dlid, start)
  {
    assert Routed(db, dlid, ExitOf(f, start, dlid, path, last, 0));
  }

  lemma NotAtDestination(f: Fabric, start: Port, dst: nat, dlid: nat, path: seq<Port>, last: Port, i: nat)
    requires Way(f, start, dlid, path, last) && i <= |path| && IsNode(f, dst, FI) && start.node != dst
    ensures DeviceAt(start, path, last, i) != dst
  {
    if i > 0 {
      SwitchOnWay(f, start, dlid, path, last, i);
    }
  }
}
