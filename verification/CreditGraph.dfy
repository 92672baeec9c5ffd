/** The mutable channel-dependency graph, method by method against GraphViews. */
module CreditGraphs {
  import opened ArcRelations
  import opened GraphViews

  class Vertex {
    const id: nat
    const conn: Channel
    var refCount: int
    var outbound: seq<int>
    var outboundInuse: int
    var inbound: seq<int>
    var inboundInuse: int

    constructor (id: nat, conn: Channel)
      ensures this.id == id && View() == VertexView(conn, 0, [], 0, [], 0)
    {
      this.id := id;
      this.conn := conn;
      refCount, outboundInuse, inboundInuse := 0, 0, 0;
      outbound, inbound := [], [];
    }

    function View(): VertexView
      reads this
    {
      VertexView(conn, refCount, outbound, outboundInuse, inbound, inboundInuse)
    }

    method AppendOutbound(arcId: int)
      modifies this
      ensures View() == WithOut(old(View()), arcId)
    {
      outbound := outbound + [arcId];
      outboundInuse := outboundInuse + 1;
      refCount := refCount + 1;
    }

    method AppendInbound(arcId: int)
      modifies this
      ensures View() == WithIn(old(View()), arcId)
    {
      inbound := inbound + [arcId];
      inboundInuse := inboundInuse + 1;
      refCount := refCount + 1;
    }

    method EraseOutbound(arcId: int)
      modifies this
      ensures View() == WithoutOut(old(View()), arcId)
    {
      ghost var was := outbound;
      var i := 0;
      while i < |outbound|
        invariant 0 <= i <= |outbound| == |was|
        invariant forall k :: 0 <= k < |was| ==>
                    outbound[k] == if k < i && was[k] == arcId then -1 else was[k]
        invariant refCount == old(refCount) - Occurs(was[..i], arcId)
        invariant outboundInuse == old(outboundInuse) - Occurs(was[..i], arcId)
        invariant inbound == old(inbound) && inboundInuse == old(inboundInuse)
      {
        assert was[..i + 1][..i] == was[..i];
        if arcId == outbound[i] {
          outbound := outbound[i := -1];
          refCount := refCount - 1;
          outboundInuse := outboundInuse - 1;
        }
        i := i + 1;
      }
      assert was[..i] == was;
      assert outbound == Erase(was, arcId);
    }

    method EraseInbound(arcId: int)
      modifies this
      ensures View() == WithoutIn(old(View()), arcId)
    {
      ghost var was := inbound;
      var i := 0;
      while i < |inbound|
        invariant 0 <= i <= |inbound| == |was|
        invariant forall k :: 0 <= k < |was| ==>
                    inbound[k] == if k < i && was[k] == arcId then -1 else was[k]
        invariant refCount == old(refCount) - Occurs(was[..i], arcId)
        invariant inboundInuse == old(inboundInuse) - Occurs(was[..i], arcId)
        invariant outbound == old(outbound) && outboundInuse == old(outboundInuse)
      {
        assert was[..i + 1][..i] == was[..i];
        if arcId == inbound[i] {
          inbound := inbound[i := -1];
          refCount := refCount - 1;
          inboundInuse := inboundInuse - 1;
        }
        i := i + 1;
      }
      assert was[..i] == was;
      assert inbound == Erase(was, arcId);
    }
  }

  class Graph {
    var vertices: seq<Vertex>
    var active: int
    var numArcs: int
    var arcs: map<int, Arc>
    var arcByKey: map<Link, Arc>
    var byConn: map<Channel, nat>

    ghost function View(): GraphView
      reads this, vertices
    {
      GraphView(VertexViews(vertices), active, numArcs, arcs, arcByKey, byConn)
    }

    ghost function Relation(): Rel
      reads this
    {
      arcByKey.Keys
    }

    ghost predicate Valid()
      reads this, vertices
    {
      && Distinct(vertices)
      && (forall i :: 0 <= i < |vertices| ==> vertices[i].id == i)
      && Inv(View())
    }

    constructor ()
      ensures Valid() && View() == EMPTY && Growing(View()) && vertices == []
    {
      vertices, active, numArcs := [], 0, 0;
      arcs, arcByKey, byConn := map[], map[], map[];
      new;
      EmptyOk();
    }

    /** Returns the vertex that stands for `c`, adding it if it is new. */
    method AddVertex(c: Channel) returns (id: nat)
      requires Valid()
      modifies this
      ensures Valid()
      ensures (View(), id) == AddVertexView(old(View()), c)
      ensures old(vertices) <= vertices
      ensures forall k :: |old(vertices)| <= k < |vertices| ==> fresh(vertices[k])
    {
      hide Inv;
      ghost var g := View();
      AddVertexOk(g, c);
      if c in byConn {
        id := byConn[c];
      } else {
        var v := new Vertex(|vertices|, c);
        id := |vertices|;
        vertices := vertices + [v];
        byConn := byConn[c := id];
        active := active + 1;
        assert VertexViews(vertices) == g.vertices + [VertexView(c, 0, [], 0, [], 0)];
        assert View() == AddVertexView(g, c).0;
      }
    }

    /** Returns the id of the arc from source to sink, adding it if it is new; -1 if there can be none. */
    method AddArc(source: nat, sink: nat) returns (arcId: int)
      requires Distinct(vertices)
      modifies this, vertices
      ensures vertices == old(vertices)
      ensures (View(), arcId) == AddArcView(old(View()), source, sink)
      ensures old(Valid() && Growing(View())) ==> Valid() && Growing(View())
    {
      hide Inv, Growing, WithOut, WithIn, VertexViews;
      ghost var g := View();
      if Inv(g) && Growing(g) {
        AddArcOk(g, source, sink);
      }
      arcId := -1;
      if source == sink || source >= |vertices| || sink >= |vertices| {
        return;
      }
      if Link(source, sink) in arcByKey {
        arcId := arcByKey[Link(source, sink)].id;
        return;
      }
      var arc := Arc(|arcs|, source, sink);
      if arc.id !in arcs {
        arcs := arcs[arc.id := arc];
      }
      arcByKey := arcByKey[Link(source, sink) := arc];
      Attach(arc);
      arcId := arc.id;
      numArcs := numArcs + 1;
      assert View() == InsertArc(g, arc);
    }

    /** Lists the arc at its two ends. */
    method Attach(arc: Arc)
      requires Distinct(vertices)
      requires arc.source < |vertices| && arc.sink < |vertices| && arc.source != arc.sink
      modifies vertices
      ensures VertexViews(vertices)
           == var vs := old(VertexViews(vertices));
              vs[arc.source := WithOut(vs[arc.source], arc.id)][arc.sink := WithIn(vs[arc.sink], arc.id)]
    {
      vertices[arc.source].AppendOutbound(arc.id);
      vertices[arc.sink].AppendInbound(arc.id);
    }

    /** Tombstones the arc at its two ends and retires an end that loses its last arc. */
    method Detach(arc: Arc)
      requires Distinct(vertices)
      requires arc.source < |vertices| && arc.sink < |vertices| && arc.source != arc.sink
      modifies `active, vertices
      ensures var vs := old(VertexViews(vertices));
              var source := WithoutOut(vs[arc.source], arc.id);
              var sink := WithoutIn(vs[arc.sink], arc.id);
              && VertexViews(vertices) == vs[arc.source := source][arc.sink := sink]
              && active == old(active) - Retired(source) - Retired(sink)
    {
      hide WithoutOut, WithoutIn;
      var from, to := vertices[arc.source], vertices[arc.sink];
      from.EraseOutbound(arc.id);
      if from.refCount == 0 {
        active := active - 1;
      }
      to.EraseInbound(arc.id);
      if to.refCount == 0 {
        active := active - 1;
      }
    }

    /** Deletes an arc from both indexes and from the lists of its two ends. A negative id is ignored; an
        unknown one is not found, and the program gives up. */
    method DelArc(arcId: int) returns (found: bool)
      requires Valid()
      modifies this, vertices
      ensures Valid() && vertices == old(vertices) && (found <==> arcId < 0 || arcId in old(arcs))
      ensures View() == if arcId < 0 || !found then old(View()) else DelArcView(old(View()), arcId)
    {
      if arcId < 0 {
        return true;
      }
      found := arcId in arcs;
      if found {
        RemoveArc(arcId);
      }
    }

    method RemoveArc(arcId: int)
      requires Valid() && arcId in arcs
      modifies this, vertices
      ensures Valid() && vertices == old(vertices)
      ensures View() == DelArcView(old(View()), arcId)
    {
      hide Inv, WithoutOut, WithoutIn, Retired, DelArcView, VertexViews;
      ghost var g := View();
      DelArcOk(g, arcId);
      ArcIsOk(g, arcId);
      DelArcFields(g, arcId);
      var arc := arcs[arcId];
      arcs := arcs - {arcId};
      if arc.Key() in arcByKey {
        arcByKey := arcByKey - {arc.Key()};
      }
      Detach(arc);
      numArcs := numArcs - 1;
      assert View() == DelArcView(g, arcId);
    }
  }

  lemma ViewAt(graph: Graph, v: nat)
    requires v < |graph.vertices|
    ensures |graph.View().vertices| == |graph.vertices|
    ensures graph.View().vertices[v] == graph.vertices[v].View()
  {
  }

  ghost predicate Distinct(vs: seq<Vertex>) {
    forall i, j :: 0 <= i < j < |vs| ==> vs[i] != vs[j]
  }

  ghost function VertexViews(vs: seq<Vertex>): (r: seq<VertexView>)
    reads vs
    ensures |r| == |vs|
  {
    seq(|vs|, i requires 0 <= i < |vs| reads vs => vs[i].View())
  }
}
