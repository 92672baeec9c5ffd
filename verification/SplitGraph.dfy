/** The splitting methods on mutable graphs. */
module GraphSplitting {
  import opened ArcRelations
  import opened GraphViews
  import opened CreditGraphs
  import opened ArcDeletion
  import opened Splitting

  /** The two graphs share no vertex object. */
  ghost predicate Apart(graph: Graph, newGraph: Graph)
    reads graph, newGraph
  {
    && graph != newGraph
    && forall i, j :: 0 <= i < |graph.vertices| && 0 <= j < |newGraph.vertices| ==>
         graph.vertices[i] != newGraph.vertices[j]
  }

  method AddLinkOut(newGraph: Graph, id: nat, c: Channel)
    requires newGraph.Valid() && Growing(newGraph.View())
    modifies newGraph, newGraph.vertices
    ensures newGraph.Valid() && Growing(newGraph.View())
    ensures old(newGraph.vertices) <= newGraph.vertices
    ensures forall k :: |old(newGraph.vertices)| <= k < |newGraph.vertices| ==> fresh(newGraph.vertices[k])
    ensures newGraph.View() == LinkOut(old(newGraph.View()), id, c)
  {
    hide Inv, Growing, AddVertexView, AddArcView;
    AddVertexOk(newGraph.View(), c);
    var sink := newGraph.AddVertex(c);
    assert newGraph.vertices == old(newGraph.vertices) + newGraph.vertices[|old(newGraph.vertices)|..];
    var arcId := newGraph.AddArc(id, sink);
  }

  method AddLinkIn(newGraph: Graph, id: nat, c: Channel)
    requires newGraph.Valid() && Growing(newGraph.View())
    modifies newGraph, newGraph.vertices
    ensures newGraph.Valid() && Growing(newGraph.View())
    ensures old(newGraph.vertices) <= newGraph.vertices
    ensures forall k :: |old(newGraph.vertices)| <= k < |newGraph.vertices| ==> fresh(newGraph.vertices[k])
    ensures newGraph.View() == LinkIn(old(newGraph.View()), id, c)
  {
    hide Inv, Growing, AddVertexView, AddArcView;
    AddVertexOk(newGraph.View(), c);
    var source := newGraph.AddVertex(c);
    assert newGraph.vertices == old(newGraph.vertices) + newGraph.vertices[|old(newGraph.vertices)|..];
    var arcId := newGraph.AddArc(source, id);
  }

  lemma NoOutCopies(g: GraphView, v: nat, h: GraphView, vertex: nat)
    requires v < |g.vertices|
    ensures CopyOut(g, v, h, vertex, 0) == h && OutNeighbors(g, v, 0) == []
  {
  }

  /** What the slot `i` adds. */
  lemma CopyOutStep(g: GraphView, v: nat, h: GraphView, vertex: nat, i: nat)
    requires Inv(g) && v < |g.vertices| && i < |g.vertices[v].outbound|
    ensures var id := g.vertices[v].outbound[i];
            if id >= 0 && id in g.arcs then
              && g.arcs[id].sink < |g.vertices|
              && CopyOut(g, v, h, vertex, i + 1)
                 == LinkOut(CopyOut(g, v, h, vertex, i), vertex, g.vertices[g.arcs[id].sink].conn)
              && OutNeighbors(g, v, i + 1) == OutNeighbors(g, v, i) + [g.arcs[id].sink]
            else
              && CopyOut(g, v, h, vertex, i + 1) == CopyOut(g, v, h, vertex, i)
              && OutNeighbors(g, v, i + 1) == OutNeighbors(g, v, i)
  {
    hide Inv, LinkOut;
    OutSlotFacts(g, v, i);
  }

  /** Copies the arcs out of `v` into the new graph and returns their sinks. */
  method CopyOutbound(graph: Graph, newGraph: Graph, v: nat, id: nat) returns (neighbors: seq<nat>)
    requires graph.Valid() && newGraph.Valid() && Apart(graph, newGraph) && Growing(newGraph.View())
    requires v < |graph.vertices|
    modifies newGraph, newGraph.vertices
    ensures graph.Valid() && graph.View() == old(graph.View())
    ensures newGraph.Valid() && Growing(newGraph.View()) && Apart(graph, newGraph)
    ensures old(newGraph.vertices) <= newGraph.vertices
    ensures forall k :: |old(newGraph.vertices)| <= k < |newGraph.vertices| ==> fresh(newGraph.vertices[k])
    ensures var g := graph.View(); var n := |g.vertices[v].outbound|;
            && newGraph.View() == CopyOut(g, v, old(newGraph.View()), id, n)
            && neighbors == OutNeighbors(g, v, n)
  {
    hide Inv, Growing, LinkOut, CopyOut, OutNeighbors, VertexViews, Distinct;
    ghost var g, h := graph.View(), newGraph.View();
    var vertex := graph.vertices[v];
    ViewAt(graph, v);
    NoOutCopies(g, v, h, id);
    neighbors := [];
    var i := 0;
    while i < |vertex.outbound|
      invariant graph.Valid() && graph.View() == g && g.vertices[v] == vertex.View()
      invariant 0 <= i <= |g.vertices[v].outbound|
      invariant newGraph.Valid() && Growing(newGraph.View()) && Apart(graph, newGraph)
      invariant old(newGraph.vertices) <= newGraph.vertices
      invariant forall k :: |old(newGraph.vertices)| <= k < |newGraph.vertices| ==> fresh(newGraph.vertices[k])
      invariant newGraph.View() == CopyOut(g, v, old(newGraph.View()), id, i)
      invariant neighbors == OutNeighbors(g, v, i)
    {
      CopyOutStep(g, v, h, id, i);
      if vertex.outbound[i] >= 0 && vertex.outbound[i] in graph.arcs {
        var sink := graph.arcs[vertex.outbound[i]].sink;
        neighbors := neighbors + [sink];
        ViewAt(graph, sink);
        assert newGraph.vertices == old(newGraph.vertices) + newGraph.vertices[|old(newGraph.vertices)|..];
        AddLinkOut(newGraph, id, graph.vertices[sink].conn);
      }
      i := i + 1;
    }
  }

  lemma NoInCopies(g: GraphView, v: nat, h: GraphView, vertex: nat)
    requires v < |g.vertices|
    ensures CopyIn(g, v, h, vertex, 0) == h && InNeighbors(g, v, 0) == []
  {
  }

  /** What the slot `i` adds. */
  lemma CopyInStep(g: GraphView, v: nat, h: GraphView, vertex: nat, i: nat)
    requires Inv(g) && v < |g.vertices| && i < |g.vertices[v].inbound|
    ensures var id := g.vertices[v].inbound[i];
            if id >= 0 && id in g.arcs then
              && g.arcs[id].source < |g.vertices|
              && CopyIn(g, v, h, vertex, i + 1)
                 == LinkIn(CopyIn(g, v, h, vertex, i), vertex, g.vertices[g.arcs[id].source].conn)
              && InNeighbors(g, v, i + 1) == InNeighbors(g, v, i) + [g.arcs[id].source]
            else
              && CopyIn(g, v, h, vertex, i + 1) == CopyIn(g, v, h, vertex, i)
              && InNeighbors(g, v, i + 1) == InNeighbors(g, v, i)
  {
    hide Inv, LinkIn;
    InSlotFacts(g, v, i);
  }

  /** Copies the arcs into `v` into the new graph and returns their sources. */
  method CopyInbound(graph: Graph, newGraph: Graph, v: nat, id: nat) returns (neighbors: seq<nat>)
    requires graph.Valid() && newGraph.Valid() && Apart(graph, newGraph) && Growing(newGraph.View())
    requires v < |graph.vertices|
    modifies newGraph, newGraph.vertices
    ensures graph.Valid() && graph.View() == old(graph.View())
    ensures newGraph.Valid() && Growing(newGraph.View()) && Apart(graph, newGraph)
    ensures old(newGraph.vertices) <= newGraph.vertices
    ensures forall k :: |old(newGraph.vertices)| <= k < |newGraph.vertices| ==> fresh(newGraph.vertices[k])
    ensures var g := graph.View(); var n := |g.vertices[v].inbound|;
            && newGraph.View() == CopyIn(g, v, old(newGraph.View()), id, n)
            && neighbors == InNeighbors(g, v, n)
  {
    hide Inv, Growing, LinkIn, CopyIn, InNeighbors, VertexViews, Distinct;
    ghost var g, h := graph.View(), newGraph.View();
    var vertex := graph.vertices[v];
    ViewAt(graph, v);
    NoInCopies(g, v, h, id);
    neighbors := [];
    var i := 0;
    while i < |vertex.inbound|
      invariant graph.Valid() && graph.View() == g && g.vertices[v] == vertex.View()
      invariant 0 <= i <= |g.vertices[v].inbound|
      invariant newGraph.Valid() && Growing(newGraph.View()) && Apart(graph, newGraph)
      invariant old(newGraph.vertices) <= newGraph.vertices
      invariant forall k :: |old(newGraph.vertices)| <= k < |newGraph.vertices| ==> fresh(newGraph.vertices[k])
      invariant newGraph.View() == CopyIn(g, v, old(newGraph.View()), id, i)
      invariant neighbors == InNeighbors(g, v, i)
    {
      CopyInStep(g, v, h, id, i);
      if vertex.inbound[i] >= 0 && vertex.inbound[i] in graph.arcs {
        var source := graph.arcs[vertex.inbound[i]].source;
        neighbors := neighbors + [source];
        ViewAt(graph, source);
        assert newGraph.vertices == old(newGraph.vertices) + newGraph.vertices[|old(newGraph.vertices)|..];
        AddLinkIn(newGraph, id, graph.vertices[source].conn);
      }
      i := i + 1;
    }
  }

  /** What the body of the recursion does before it recurses: `h3` gains every arc at `v`, `g2` loses
      them, and `ns` lists the other ends. */
  lemma HeadMovesIncident(g: GraphView, h: GraphView, v: nat)
    requires Inv(g) && Inv(h) && Growing(h) && v < |g.vertices|
    ensures var (h1, id) := AddVertexView(h, g.vertices[v].conn);
            var h2 := CopyOut(g, v, h1, id, |g.vertices[v].outbound|);
            var g1 := DelAllOutbound(g, v);
            var h3 := CopyIn(g1, v, h2, id, |g1.vertices[v].inbound|);
            var g2 := DelAllInbound(g1, v);
            && Inv(h1) && Growing(h1) && Inv(h2) && Growing(h2) && Inv(h3) && Growing(h3)
            && Inv(g1) && Inv(g2) && g2.numArcs <= g.numArcs && Shrunk(g, g2, g.numArcs - g2.numArcs)
            && RelOf(g1) == RelOf(g) - OutboundOf(RelOf(g), v)
            && RelOf(g2) == RelOf(g) - Incident(RelOf(g), v)
            && DepsOf(h3) == DepsOf(h) + Deps(g.vertices, Incident(RelOf(g), v))
  {
    hide Inv, Growing, DepsOf, Deps, AddVertexView, CopyOut, CopyIn, DelAllOutbound, DelAllInbound, RelOf,
      InPrefix, OutPrefix;
    var e := RelOf(g);
    var (h1, id) := AddVertexView(h, g.vertices[v].conn);
    AddVertexOk(h, g.vertices[v].conn);
    AddVertexDeps(h, g.vertices[v].conn);
    CopyOutDeps(g, v, h1, id, |g.vertices[v].outbound|);
    OutPrefixWhole(g, v);
    var g1 := DelAllOutbound(g, v);
    DelAllOutboundExact(g, v);
    ShrunkConns(g, g1, g.numArcs - g1.numArcs);
    var h2 := CopyOut(g, v, h1, id, |g.vertices[v].outbound|);
    CopyInDeps(g1, v, h2, id, |g1.vertices[v].inbound|);
    InPrefixWhole(g1, v);
    var g2 := DelAllInbound(g1, v);
    DelAllInboundExact(g1, v);
    ShrunkTwice(g, g1, g2, g.numArcs - g1.numArcs, g1.numArcs - g2.numArcs);
    assert Incident(e, v) == OutboundOf(e, v) + InboundOf(RelOf(g1), v);
    DepsUnion(g.vertices, OutboundOf(e, v), InboundOf(RelOf(g1), v));
    RelInRange(g);
    InRangeSubset(InboundOf(RelOf(g1), v), e, |g.vertices|);
    DepsKept(g.vertices, g1.vertices, InboundOf(RelOf(g1), v));
  }

  lemma InRangeSubset(e: Rel, f: Rel, n: nat)
    requires e <= f && InRange(f, n)
    ensures InRange(e, n)
  {
  }

  lemma HeadNeighbors(g: GraphView, v: nat)
    requires Inv(g) && v < |g.vertices|
    ensures var g1 := DelAllOutbound(g, v);
            var ns := OutNeighbors(g, v, |g.vertices[v].outbound|) + InNeighbors(g1, v, |g1.vertices[v].inbound|);
            && (forall n <- ns :: n < |g.vertices| && Adjacent(RelOf(g), v, n))
            && (forall k <- Incident(RelOf(g), v) :: (k.src == v || k.src in ns) && (k.dst == v || k.dst in ns))
  {
    hide Inv, DelAllOutbound, RelOf, InPrefix, OutPrefix;
    var g1 := DelAllOutbound(g, v);
    DelAllOutboundExact(g, v);
    OutNeighborsExact(g, v, |g.vertices[v].outbound|);
    OutPrefixWhole(g, v);
    InNeighborsExact(g1, v, |g1.vertices[v].inbound|);
    InPrefixWhole(g1, v);
    forall k | k in Incident(RelOf(g), v)
      ensures k in OutboundOf(RelOf(g), v) || k in InboundOf(RelOf(g1), v)
    {
    }
  }

  lemma LiveVertexLosesArcs(g: GraphView, h: GraphView, v: nat, n: nat)
    requires Inv(g) && Shrunk(g, h, n) && v < |g.vertices| && g.vertices[v].refCount != 0
    requires RelOf(h) == RelOf(g) - Incident(RelOf(g), v)
    ensures n > 0
  {
    InuseMeansArc(g, v);
    if k :| k in RelOf(g) && k.src == v {
      assert k in Incident(RelOf(g), v);
    } else if k :| k in RelOf(g) && k.dst == v {
      assert k in Incident(RelOf(g), v);
    }
  }

  lemma ShrunkAgain(g: GraphView, h: GraphView, i: GraphView)
    requires h.numArcs <= g.numArcs && i.numArcs <= h.numArcs
    requires Shrunk(g, h, g.numArcs - h.numArcs) && Shrunk(h, i, h.numArcs - i.numArcs)
    ensures Shrunk(g, i, g.numArcs - i.numArcs)
  {
    ShrunkTwice(g, h, i, g.numArcs - h.numArcs, h.numArcs - i.numArcs);
  }

  /** One more neighbor's component has been moved: how the dependencies add up. */
  lemma MovedDeps(g: GraphView, h: GraphView, cur: Rel, next: Rel)
    requires Inv(g) && Inv(h) && h.numArcs <= g.numArcs && Shrunk(g, h, g.numArcs - h.numArcs)
    requires next <= cur <= RelOf(g) && cur == RelOf(h)
    ensures Deps(g.vertices, RelOf(g) - next)
         == Deps(g.vertices, RelOf(g) - cur) + Deps(h.vertices, cur - next)
  {
    hide Inv, RelOf, Deps;
    var e := RelOf(g);
    assert e - next == (e - cur) + (cur - next);
    DepsUnion(g.vertices, e - cur, cur - next);
    RelInRange(g);
    InRangeSubset(cur - next, e, |g.vertices|);
    ShrunkConns(g, h, g.numArcs - h.numArcs);
    DepsKept(g.vertices, h.vertices, cur - next);
  }

  /** Moves the vertex itself and the arcs out of it. */
  method MoveOutgoing(graph: Graph, newGraph: Graph, v: nat) returns (id: nat, sinks: seq<nat>)
    requires graph.Valid() && newGraph.Valid() && Growing(newGraph.View()) && Apart(graph, newGraph)
    requires v < |graph.vertices|
    modifies graph, graph.vertices, newGraph, newGraph.vertices
    ensures graph.Valid() && graph.vertices == old(graph.vertices)
    ensures newGraph.Valid() && Growing(newGraph.View()) && Apart(graph, newGraph)
    ensures old(newGraph.vertices) <= newGraph.vertices
    ensures forall k :: |old(newGraph.vertices)| <= k < |newGraph.vertices| ==> fresh(newGraph.vertices[k])
    ensures var g := old(graph.View()); var h := old(newGraph.View()); var n := |g.vertices[v].outbound|;
            && id == AddVertexView(h, g.vertices[v].conn).1
            && newGraph.View() == CopyOut(g, v, AddVertexView(h, g.vertices[v].conn).0, id, n)
            && graph.View() == DelAllOutbound(g, v)
            && sinks == OutNeighbors(g, v, n)
  {
    hide Inv, Growing, AddVertexView, CopyOut, OutNeighbors, DelAllOutbound, VertexViews, Distinct;
    var vertex := graph.vertices[v];
    ViewAt(graph, v);
    AddVertexOk(newGraph.View(), vertex.conn);
    id := newGraph.AddVertex(vertex.conn);
    assert newGraph.vertices == old(newGraph.vertices) + newGraph.vertices[|old(newGraph.vertices)|..];
    sinks := CopyOutbound(graph, newGraph, v, id);
    var _ := DeleteOutbound(graph, v);
  }

  /** The body of the recursion up to its recursive calls: moves the arcs at `v` and returns the
      vertices at their other ends. */
  method MoveIncident(graph: Graph, newGraph: Graph, v: nat) returns (neighbors: seq<nat>)
    requires graph.Valid() && newGraph.Valid() && Growing(newGraph.View()) && Apart(graph, newGraph)
    requires v < |graph.vertices| && graph.vertices[v].refCount != 0
    modifies graph, graph.vertices, newGraph, newGraph.vertices
    ensures graph.Valid() && graph.vertices == old(graph.vertices)
    ensures newGraph.Valid() && Growing(newGraph.View()) && Apart(graph, newGraph)
    ensures old(newGraph.vertices) <= newGraph.vertices
    ensures forall k :: |old(newGraph.vertices)| <= k < |newGraph.vertices| ==> fresh(newGraph.vertices[k])
    ensures graph.numArcs < old(graph.numArcs)
    ensures Shrunk(old(graph.View()), graph.View(), old(graph.numArcs) - graph.numArcs)
    ensures RelOf(graph.View()) == RelOf(old(graph.View())) - Incident(RelOf(old(graph.View())), v)
    ensures DepsOf(newGraph.View())
         == DepsOf(old(newGraph.View()))
          + Deps(old(graph.View()).vertices, Incident(RelOf(old(graph.View())), v))
    ensures forall n <- neighbors :: n < |graph.vertices| && Adjacent(RelOf(old(graph.View())), v, n)
    ensures forall k <- Incident(RelOf(old(graph.View())), v) ::
              (k.src == v || k.src in neighbors) && (k.dst == v || k.dst in neighbors)
  {
    hide Inv, Growing, DepsOf, Deps, RelOf, AddVertexView, CopyOut, CopyIn, OutNeighbors, InNeighbors,
      DelAllOutbound, DelAllInbound, Shrunk, Incident, Adjacent, VertexViews, Distinct, LinkOut, LinkIn;
    ghost var g, h := graph.View(), newGraph.View();
    HeadMovesIncident(g, h, v);
    HeadNeighbors(g, v);
    ViewAt(graph, v);
    var id, sinks := MoveOutgoing(graph, newGraph, v);
    assert newGraph.vertices == old(newGraph.vertices) + newGraph.vertices[|old(newGraph.vertices)|..];
    var sources := CopyInbound(graph, newGraph, v, id);
    var _ := DeleteInbound(graph, v);
    neighbors := sinks + sources;
    LiveVertexLosesArcs(g, graph.View(), v, g.numArcs - graph.numArcs);
  }

  /** The graph goes from `g1` to `g2` as the component of neighbor `i` is moved, and the dependencies of
      the new graph from `d1` to `d2`. */
  lemma NeighborMoved(g: GraphView, g1: GraphView, g2: GraphView, v: nat, ns: seq<nat>, i: nat, d: set<Dep>,
                      d1: set<Dep>, d2: set<Dep>)
    requires Inv(g) && Inv(g1) && g2.numArcs <= g1.numArcs <= g.numArcs && i < |ns| && Adjacent(RelOf(g), v, ns[i])
    requires Shrunk(g, g1, g.numArcs - g1.numArcs) && Shrunk(g1, g2, g1.numArcs - g2.numArcs)
    requires Partial(RelOf(g), v, RelOf(g1), ns[..i]) && TakenFrom(RelOf(g1), RelOf(g1) - RelOf(g2), ns[i])
    requires d1 == d + Deps(g.vertices, RelOf(g) - RelOf(g1)) && d2 == d1 + Deps(g1.vertices, RelOf(g1) - RelOf(g2))
    ensures Shrunk(g, g2, g.numArcs - g2.numArcs) && Partial(RelOf(g), v, RelOf(g2), ns[..i + 1])
    ensures d2 == d + Deps(g.vertices, RelOf(g) - RelOf(g2))
  {
    hide Inv, RelOf, Deps, Partial, TakenFrom, Shrunk, Adjacent;
    ShrunkRel(g, g1, g.numArcs - g1.numArcs);
    ShrunkRel(g1, g2, g1.numArcs - g2.numArcs);
    PartialStep(RelOf(g), v, RelOf(g1), ns[..i], ns[i], RelOf(g1) - RelOf(g2));
    ShrunkAgain(g, g1, g2);
    MovedDeps(g, g1, RelOf(g1), RelOf(g2));
    assert ns[..i + 1] == ns[..i] + [ns[i]];
  }

  /** Moves the weakly connected component of `v` from `graph` into `newGraph`. */
  method SplitOutVertex(graph: Graph, newGraph: Graph, v: nat)
    requires graph.Valid() && newGraph.Valid() && Growing(newGraph.View()) && Apart(graph, newGraph)
    requires v < |graph.vertices|
    modifies graph, graph.vertices, newGraph, newGraph.vertices
    ensures graph.Valid() && graph.vertices == old(graph.vertices)
    ensures newGraph.Valid() && Growing(newGraph.View()) && Apart(graph, newGraph)
    ensures old(newGraph.vertices) <= newGraph.vertices
    ensures forall k :: |old(newGraph.vertices)| <= k < |newGraph.vertices| ==> fresh(newGraph.vertices[k])
    ensures graph.numArcs <= old(graph.numArcs)
    ensures Shrunk(old(graph.View()), graph.View(), old(graph.numArcs) - graph.numArcs)
    ensures TakenFrom(RelOf(old(graph.View())), RelOf(old(graph.View())) - RelOf(graph.View()), v)
    ensures DepsOf(newGraph.View())
         == DepsOf(old(newGraph.View()))
          + Deps(old(graph.View()).vertices, RelOf(old(graph.View())) - RelOf(graph.View()))
    decreases graph.numArcs
  {
    hide Inv, Growing, DepsOf, Deps, RelOf, TakenFrom, Shrunk, Partial, Adjacent, VertexViews, Incident,
      Distinct, Apart;
    ghost var g, h := graph.View(), newGraph.View();
    ghost var e := RelOf(g);
    var vertex := graph.vertices[v];
    ViewAt(graph, v);
    if vertex.refCount == 0 {
      DeadVertex(g, v);
    } else {
      var neighbors := MoveIncident(graph, newGraph, v);
      IncidentWithin(e, v);
      PartialStart(e, v);
      var i := 0;
      while i < |neighbors|
        invariant 0 <= i <= |neighbors|
        invariant graph.Valid() && graph.vertices == old(graph.vertices)
        invariant newGraph.Valid() && Growing(newGraph.View()) && Apart(graph, newGraph)
        invariant old(newGraph.vertices) <= newGraph.vertices
        invariant forall k :: |old(newGraph.vertices)| <= k < |newGraph.vertices| ==> fresh(newGraph.vertices[k])
        invariant graph.numArcs < g.numArcs && Shrunk(g, graph.View(), g.numArcs - graph.numArcs)
        invariant Partial(e, v, RelOf(graph.View()), neighbors[..i])
        invariant DepsOf(newGraph.View()) == DepsOf(h) + Deps(g.vertices, e - RelOf(graph.View()))
      {
        ghost var g1, d1 := graph.View(), DepsOf(newGraph.View());
        assert newGraph.vertices == old(newGraph.vertices) + newGraph.vertices[|old(newGraph.vertices)|..];
        assert neighbors[i] in neighbors;
        NumArcsNat(g1);
        SplitOutVertex(graph, newGraph, neighbors[i]);
        NeighborMoved(g, g1, graph.View(), v, neighbors, i, DepsOf(h), d1, DepsOf(newGraph.View()));
        i := i + 1;
      }
      assert neighbors[..i] == neighbors;
      PartialDone(e, v, RelOf(graph.View()), neighbors);
    }
  }

  lemma IncidentWithin(e: Rel, v: nat)
    ensures e - (e - Incident(e, v)) == Incident(e, v)
  {
  }

  lemma ShrunkRel(g: GraphView, h: GraphView, n: nat)
    requires Shrunk(g, h, n)
    ensures RelOf(h) <= RelOf(g) && RelOf(g) - (RelOf(g) - RelOf(h)) == RelOf(h)
  {
  }

  lemma NumArcsNat(g: GraphView)
    requires Inv(g)
    ensures g.numArcs >= 0
  {
  }

  lemma DeadVertex(g: GraphView, v: nat)
    requires Inv(g) && v < |g.vertices| && g.vertices[v].refCount == 0
    ensures TakenFrom(RelOf(g), RelOf(g) - RelOf(g), v) && Shrunk(g, g, 0)
    ensures Deps(g.vertices, RelOf(g) - RelOf(g)) == {}
  {
    hide RelOf, TakenFrom;
    InuseMeansArc(g, v);
    NothingTaken(RelOf(g), v);
  }

  lemma NothingTaken(e: Rel, v: nat)
    requires !HasOut(e, v) && !HasIn(e, v)
    ensures e - e == {} && TakenFrom(e, e - e, v)
  {
    assert e - {} == e;
  }

  // ---- The driver ----

  /** Returns null when no arc is left; otherwise moves the component of the first live vertex into a
      graph of its own. */
  method Split(graph: Graph) returns (newGraph: Graph?, ghost root: nat)
    requires graph.Valid()
    modifies graph, graph.vertices
    ensures graph.Valid() && graph.vertices == old(graph.vertices) && graph.numArcs >= 0
    ensures newGraph == null <==> RelOf(old(graph.View())) == {}
    ensures newGraph == null ==> graph.View() == old(graph.View())
    ensures newGraph != null ==>
              && newGraph.Valid() && fresh(newGraph) && graph.numArcs < old(graph.numArcs)
              && var g := old(graph.View()); var moved := Component(RelOf(g), root);
                 && moved != {} && Shrunk(g, graph.View(), g.numArcs - graph.numArcs)
                 && RelOf(graph.View()) == RelOf(g) - moved
                 && DepsOf(newGraph.View()) == Deps(g.vertices, moved)
                 && newGraph.numArcs == |moved|
  {
    hide Inv, Growing, DepsOf, Deps, RelOf, TakenFrom, Shrunk, Component;
    ghost var g := graph.View();
    newGraph := null;
    root := 0;
    NumArcsNat(g);
    var v := 0;
    while v < |graph.vertices| && graph.vertices[v].refCount == 0
      invariant 0 <= v <= |graph.vertices|
      invariant forall u :: 0 <= u < v ==> g.vertices[u].refCount == 0
    {
      assert g.vertices[v] == graph.vertices[v].View();
      v := v + 1;
    }
    if v == |graph.vertices| {
      AllDead(g);
      return;
    }
    assert g.vertices[v] == graph.vertices[v].View();
    LiveTouches(g, v);
    root := v;
    newGraph := new Graph();
    NoDeps();
    SplitOutVertex(graph, newGraph, v);
    ghost var moved := RelOf(g) - RelOf(graph.View());
    TakenIsComponent(RelOf(g), moved, v);
    ComponentWithin(RelOf(g), v);
    ShrunkRel(g, graph.View(), g.numArcs - graph.numArcs);
    SplitCounts(g, graph.View(), newGraph.View(), moved);
    NumArcsNat(graph.View());
  }

  lemma AllDead(g: GraphView)
    requires Inv(g) && forall u :: 0 <= u < |g.vertices| ==> g.vertices[u].refCount == 0
    ensures RelOf(g) == {}
  {
    forall k | k in RelOf(g)
      ensures false
    {
      assert KeyOk(g, k);
      ArcIsOk(g, g.arcByKey[k].id);
      InuseMeansArc(g, k.src);
    }
  }

  lemma LiveTouches(g: GraphView, v: nat)
    requires Inv(g) && v < |g.vertices| && g.vertices[v].refCount != 0
    ensures RelOf(g) != {} && (HasOut(RelOf(g), v) || HasIn(RelOf(g), v))
  {
    InuseMeansArc(g, v);
  }

  lemma NoDeps()
    ensures DepsOf(EMPTY) == {}
  {
  }

  lemma SplitCounts(g: GraphView, g': GraphView, h: GraphView, moved: Rel)
    requires Inv(g) && Inv(g') && Inv(h) && moved <= RelOf(g) && RelOf(g') == RelOf(g) - moved
    requires DepsOf(h) == {} + Deps(g.vertices, moved)
    ensures h.numArcs == |moved| && g'.numArcs + h.numArcs == g.numArcs
  {
    hide Inv, Deps, RelOf;
    DepsCount(g, moved);
    DepsCount(h, RelOf(h));
    RelCount(h);
    RelCount(g);
    RelCount(g');
  }
}
