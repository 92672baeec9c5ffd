/** Deleting all the arcs at one end of a vertex, the step shared by pruning and splitting. */
module ArcDeletion {
  import opened ArcRelations
  import opened GraphViews
  import opened CreditGraphs

  /** A live slot of an adjacency list names a live arc at that vertex; deleting it tombstones
      exactly that slot. */
  lemma InSlot(g: GraphView, v: nat, i: nat)
    requires Inv(g) && v < |g.vertices| && i < |g.vertices[v].inbound| && g.vertices[v].inbound[i] >= 0
    ensures var id := g.vertices[v].inbound[i];
            && id in g.arcs && g.arcs[id].sink == v
            && DelArcView(g, id).vertices[v].inbound == Erase(g.vertices[v].inbound, id)
            && DelArcView(g, id).numArcs == g.numArcs - 1
            && DelArcView(g, id).byConn == g.byConn
            && DelArcView(g, id).arcs == g.arcs - {id}
  {
    assert VertexOk(g, v);
    assert ArcOk(g, g.vertices[v].inbound[i]);
  }

  lemma OutSlot(g: GraphView, v: nat, i: nat)
    requires Inv(g) && v < |g.vertices| && i < |g.vertices[v].outbound| && g.vertices[v].outbound[i] >= 0
    ensures var id := g.vertices[v].outbound[i];
            && id in g.arcs && g.arcs[id].source == v
            && DelArcView(g, id).vertices[v].outbound == Erase(g.vertices[v].outbound, id)
            && DelArcView(g, id).numArcs == g.numArcs - 1
            && DelArcView(g, id).byConn == g.byConn
            && DelArcView(g, id).arcs == g.arcs - {id}
  {
    assert VertexOk(g, v);
    assert ArcOk(g, g.vertices[v].outbound[i]);
  }

  lemma AllTombstones(g: GraphView, v: nat)
    requires Inv(g) && v < |g.vertices|
    ensures (forall i :: 0 <= i < |g.vertices[v].inbound| ==> g.vertices[v].inbound[i] < 0)
            ==> !HasIn(RelOf(g), v)
    ensures (forall i :: 0 <= i < |g.vertices[v].outbound| ==> g.vertices[v].outbound[i] < 0)
            ==> !HasOut(RelOf(g), v)
  {
    assert VertexOk(g, v);
    if k :| k in g.arcByKey && k.dst == v {
      assert KeyOk(g, k) && g.arcByKey[k].id in InIds(g, v);
    }
    if k :| k in g.arcByKey && k.src == v {
      assert KeyOk(g, k) && g.arcByKey[k].id in OutIds(g, v);
    }
  }

  /** `h` is `g` after `n` deletions: the surviving arcs keep their ids and ends. */
  ghost predicate Shrunk(g: GraphView, h: GraphView, n: nat) {
    && RelOf(h) <= RelOf(g)
    && h.byConn == g.byConn && |h.vertices| == |g.vertices|
    && (forall id <- h.arcs :: id in g.arcs && h.arcs[id] == g.arcs[id])
    && h.numArcs + n == g.numArcs
    && (n == 0 ==> h == g)
  }

  lemma ShrunkByDel(g: GraphView, h: GraphView, n: nat, id: int)
    requires Shrunk(g, h, n) && Inv(h) && id in h.arcs
    ensures Shrunk(g, DelArcView(h, id), n + 1)
    ensures RelOf(DelArcView(h, id)) == RelOf(h) - {h.arcs[id].Key()}
  {
    DelArcOk(h, id);
  }

  lemma ShrunkTwice(g: GraphView, h: GraphView, i: GraphView, m: nat, n: nat)
    requires Shrunk(g, h, m) && Shrunk(h, i, n)
    ensures Shrunk(g, i, m + n)
  {
  }

  function InboundOf(e: Rel, v: nat): Rel {
    set k <- e | k.dst == v
  }

  /** Only arcs whose dst end is `v` have been deleted. */
  ghost predicate InboundOnly(g: GraphView, h: GraphView, v: nat) {
    forall k <- RelOf(g) :: k.dst != v ==> k in RelOf(h)
  }

  lemma InboundExact(e: Rel, f: Rel, v: nat)
    requires f <= e && !HasIn(f, v)
    requires forall k <- e :: k.dst != v ==> k in f
    ensures f == e - InboundOf(e, v)
  {
  }

  function OutboundOf(e: Rel, v: nat): Rel {
    set k <- e | k.src == v
  }

  /** Only arcs whose src end is `v` have been deleted. */
  ghost predicate OutboundOnly(g: GraphView, h: GraphView, v: nat) {
    forall k <- RelOf(g) :: k.src != v ==> k in RelOf(h)
  }

  lemma OutboundExact(e: Rel, f: Rel, v: nat)
    requires f <= e && !HasOut(f, v)
    requires forall k <- e :: k.src != v ==> k in f
    ensures f == e - OutboundOf(e, v)
  {
  }

  lemma DelInboundSlotOk(h: GraphView, v: nat, i: nat)
    requires Inv(h) && v < |h.vertices| && i < |h.vertices[v].inbound| && h.vertices[v].inbound[i] >= 0
    requires forall k :: 0 <= k < i ==> h.vertices[v].inbound[k] < 0
    ensures var id := h.vertices[v].inbound[i];
            && id in h.arcs
            && var d := DelArcView(h, id);
               && Inv(d) && |d.vertices[v].inbound| == |h.vertices[v].inbound|
               && (forall k :: 0 <= k <= i ==> d.vertices[v].inbound[k] < 0)
  {
    hide Inv;
    InSlot(h, v, i);
    DelArcOk(h, h.vertices[v].inbound[i]);
  }

  /** The graph after the first `i` slots of a vertex's inbound list have been deleted. */
  function DelInbound(g: GraphView, v: nat, i: nat): (h: GraphView)
    requires v < |g.vertices| && i <= |g.vertices[v].inbound|
    ensures |h.vertices| == |g.vertices| && |h.vertices[v].inbound| == |g.vertices[v].inbound|
    decreases i
  {
    if i == 0 then g else
    var h := DelInbound(g, v, i - 1);
    if h.vertices[v].inbound[i - 1] < 0 then h else DelArcView(h, h.vertices[v].inbound[i - 1])
  }

  lemma {:induction false} DelInboundOk(g: GraphView, v: nat, i: nat)
    requires Inv(g) && v < |g.vertices| && i <= |g.vertices[v].inbound|
    ensures Inv(DelInbound(g, v, i))
    ensures forall k :: 0 <= k < i ==> DelInbound(g, v, i).vertices[v].inbound[k] < 0
  {
    hide Inv, DelArcView;
    if i > 0 {
      DelInboundOk(g, v, i - 1);
      var h := DelInbound(g, v, i - 1);
      if h.vertices[v].inbound[i - 1] >= 0 {
        DelInboundSlotOk(h, v, i - 1);
      }
    }
  }

  lemma {:induction false} DelInboundShrinks(g: GraphView, v: nat, i: nat)
    requires Inv(g) && v < |g.vertices| && i <= |g.vertices[v].inbound|
    ensures DelInbound(g, v, i).numArcs <= g.numArcs
    ensures Shrunk(g, DelInbound(g, v, i), g.numArcs - DelInbound(g, v, i).numArcs)
    ensures InboundOnly(g, DelInbound(g, v, i), v)
  {
    hide Inv, DelArcView;
    if i > 0 {
      DelInboundOk(g, v, i - 1);
      DelInboundShrinks(g, v, i - 1);
      var h := DelInbound(g, v, i - 1);
      var id := h.vertices[v].inbound[i - 1];
      if id >= 0 {
        InSlot(h, v, i - 1);
        ShrunkByDel(g, h, g.numArcs - h.numArcs, id);
      }
    }
  }

  /** Every incoming arc of a vertex deleted, slot by slot. */
  function DelAllInbound(g: GraphView, v: nat): (h: GraphView)
    requires v < |g.vertices|
    ensures |h.vertices| == |g.vertices|
  {
    DelInbound(g, v, |g.vertices[v].inbound|)
  }

  lemma DelAllInboundExact(g: GraphView, v: nat)
    requires Inv(g) && v < |g.vertices|
    ensures var h := DelAllInbound(g, v);
            && Inv(h) && h.numArcs <= g.numArcs && Shrunk(g, h, g.numArcs - h.numArcs)
            && RelOf(h) == RelOf(g) - InboundOf(RelOf(g), v)
  {
    hide Inv, DelArcView;
    var h := DelAllInbound(g, v);
    DelInboundOk(g, v, |g.vertices[v].inbound|);
    DelInboundShrinks(g, v, |g.vertices[v].inbound|);
    AllTombstones(h, v);
    InboundExact(RelOf(g), RelOf(h), v);
  }

  /** Deletes every incoming arc of a vertex and returns how many there were. */
  method DeleteInbound(graph: Graph, v: nat) returns (count: int)
    requires graph.Valid() && v < |graph.vertices|
    modifies graph, graph.vertices
    ensures graph.Valid() && graph.vertices == old(graph.vertices)
    ensures graph.View() == DelAllInbound(old(graph.View()), v)
    ensures count == old(graph.numArcs) - graph.numArcs
  {
    hide Inv, DelArcView;
    count := 0;
    ghost var g := graph.View();
    var vertex := graph.vertices[v];
    assert g.vertices[v] == vertex.View();
    var i := 0;
    while i < |vertex.inbound|
      invariant graph.Valid() && graph.vertices == old(graph.vertices)
      invariant 0 <= i <= |g.vertices[v].inbound|
      invariant graph.View() == DelInbound(g, v, i) && graph.View().vertices[v] == vertex.View()
      invariant count == g.numArcs - graph.numArcs
      decreases |g.vertices[v].inbound| - i
    {
      if vertex.inbound[i] >= 0 {
        InSlot(graph.View(), v, i);
        var found := graph.DelArc(vertex.inbound[i]);
        assert found;
        count := count + 1;
        assert graph.View().vertices[v] == vertex.View();
      }
      i := i + 1;
    }
  }

  lemma DelOutboundSlotOk(h: GraphView, v: nat, i: nat)
    requires Inv(h) && v < |h.vertices| && i < |h.vertices[v].outbound| && h.vertices[v].outbound[i] >= 0
    requires forall k :: 0 <= k < i ==> h.vertices[v].outbound[k] < 0
    ensures var id := h.vertices[v].outbound[i];
            && id in h.arcs
            && var d := DelArcView(h, id);
               && Inv(d) && |d.vertices[v].outbound| == |h.vertices[v].outbound|
               && (forall k :: 0 <= k <= i ==> d.vertices[v].outbound[k] < 0)
  {
    hide Inv;
    OutSlot(h, v, i);
    DelArcOk(h, h.vertices[v].outbound[i]);
  }

  /** The graph after the first `i` slots of a vertex's outbound list have been deleted. */
  function DelOutbound(g: GraphView, v: nat, i: nat): (h: GraphView)
    requires v < |g.vertices| && i <= |g.vertices[v].outbound|
    ensures |h.vertices| == |g.vertices| && |h.vertices[v].outbound| == |g.vertices[v].outbound|
    decreases i
  {
    if i == 0 then g else
    var h := DelOutbound(g, v, i - 1);
    if h.vertices[v].outbound[i - 1] < 0 then h else DelArcView(h, h.vertices[v].outbound[i - 1])
  }

  lemma {:induction false} DelOutboundOk(g: GraphView, v: nat, i: nat)
    requires Inv(g) && v < |g.vertices| && i <= |g.vertices[v].outbound|
    ensures Inv(DelOutbound(g, v, i))
    ensures forall k :: 0 <= k < i ==> DelOutbound(g, v, i).vertices[v].outbound[k] < 0
  {
    hide Inv, DelArcView;
    if i > 0 {
      DelOutboundOk(g, v, i - 1);
      var h := DelOutbound(g, v, i - 1);
      if h.vertices[v].outbound[i - 1] >= 0 {
        DelOutboundSlotOk(h, v, i - 1);
      }
    }
  }

  lemma {:induction false} DelOutboundShrinks(g: GraphView, v: nat, i: nat)
    requires Inv(g) && v < |g.vertices| && i <= |g.vertices[v].outbound|
    ensures DelOutbound(g, v, i).numArcs <= g.numArcs
    ensures Shrunk(g, DelOutbound(g, v, i), g.numArcs - DelOutbound(g, v, i).numArcs)
    ensures OutboundOnly(g, DelOutbound(g, v, i), v)
  {
    hide Inv, DelArcView;
    if i > 0 {
      DelOutboundOk(g, v, i - 1);
      DelOutboundShrinks(g, v, i - 1);
      var h := DelOutbound(g, v, i - 1);
      var id := h.vertices[v].outbound[i - 1];
      if id >= 0 {
        OutSlot(h, v, i - 1);
        ShrunkByDel(g, h, g.numArcs - h.numArcs, id);
      }
    }
  }

  /** Every outgoing arc of a vertex deleted, slot by slot. */
  function DelAllOutbound(g: GraphView, v: nat): (h: GraphView)
    requires v < |g.vertices|
    ensures |h.vertices| == |g.vertices|
  {
    DelOutbound(g, v, |g.vertices[v].outbound|)
  }

  lemma DelAllOutboundExact(g: GraphView, v: nat)
    requires Inv(g) && v < |g.vertices|
    ensures var h := DelAllOutbound(g, v);
            && Inv(h) && h.numArcs <= g.numArcs && Shrunk(g, h, g.numArcs - h.numArcs)
            && RelOf(h) == RelOf(g) - OutboundOf(RelOf(g), v)
  {
    hide Inv, DelArcView;
    var h := DelAllOutbound(g, v);
    DelOutboundOk(g, v, |g.vertices[v].outbound|);
    DelOutboundShrinks(g, v, |g.vertices[v].outbound|);
    AllTombstones(h, v);
    OutboundExact(RelOf(g), RelOf(h), v);
  }

  /** Deletes every outgoing arc of a vertex and returns how many there were. */
  method DeleteOutbound(graph: Graph, v: nat) returns (count: int)
    requires graph.Valid() && v < |graph.vertices|
    modifies graph, graph.vertices
    ensures graph.Valid() && graph.vertices == old(graph.vertices)
    ensures graph.View() == DelAllOutbound(old(graph.View()), v)
    ensures count == old(graph.numArcs) - graph.numArcs
  {
    hide Inv, DelArcView;
    count := 0;
    ghost var g := graph.View();
    var vertex := graph.vertices[v];
    assert g.vertices[v] == vertex.View();
    var i := 0;
    while i < |vertex.outbound|
      invariant graph.Valid() && graph.vertices == old(graph.vertices)
      invariant 0 <= i <= |g.vertices[v].outbound|
      invariant graph.View() == DelOutbound(g, v, i) && graph.View().vertices[v] == vertex.View()
      invariant count == g.numArcs - graph.numArcs
      decreases |g.vertices[v].outbound| - i
    {
      if vertex.outbound[i] >= 0 {
        OutSlot(graph.View(), v, i);
        var found := graph.DelArc(vertex.outbound[i]);
        assert found;
        count := count + 1;
        assert graph.View().vertices[v] == vertex.View();
      }
      i := i + 1;
    }
  }

}
