/** CLGraphDataPrune: repeatedly delete the arcs of pure sinks and pure sources. */
module Pruning {
  import opened ArcRelations
  import opened GraphViews
  import opened CreditGraphs
  import opened ArcDeletion

  /** What holds after any number of pruning deletions: no supported subset has been touched. */
  ghost predicate Pruned(e: Rel, orig: Rel) {
    e <= orig && forall t: Rel :: t <= orig && Supported(t) ==> t <= e
  }

  /** The arcs into a vertex without outgoing arcs, and the arcs out of one without incoming arcs,
      are in no supported subset. */
  lemma DeletionIsSafe(e: Rel, orig: Rel, v: nat)
    requires Pruned(e, orig)
    ensures !HasOut(e, v) ==> Pruned(e - InboundOf(e, v), orig)
    ensures !HasIn(e, v) ==> Pruned(e - OutboundOf(e, v), orig)
  {
    forall t: Rel, k: Link | t <= orig && Supported(t) && k in t
      ensures !HasOut(e, v) ==> k.dst != v
      ensures !HasIn(e, v) ==> k.src != v
    {
      FedWithin(t, e, k);
    }
  }

  lemma FedWithin(t: Rel, e: Rel, k: Link)
    requires Supported(t) && t <= e
    ensures k in t ==> HasOut(e, k.dst) && HasIn(e, k.src)
  {
    if k in t {
      assert Fed(t, k);
      var o :| o in t && o.src == k.dst;
      var i :| i in t && i.dst == k.src;
      assert o in e && i in e;
    }
  }

  /** One vertex of a pruning round. */
  method PruneVertex(graph: Graph, v: nat, ghost orig: Rel) returns (progress: nat)
    requires graph.Valid() && v < |graph.vertices| && Pruned(graph.Relation(), orig)
    modifies graph, graph.vertices
    ensures graph.Valid() && graph.vertices == old(graph.vertices)
    ensures Shrunk(old(graph.View()), graph.View(), progress) && Pruned(graph.Relation(), orig)
    ensures progress == 0 ==> Balanced(graph.Relation(), v)
  {
    progress := 0;
    var vertex := graph.vertices[v];
    ghost var g := graph.View();
    assert g.vertices[v] == vertex.View();
    InuseMeansArc(g, v);
    if vertex.refCount != 0 {
      if vertex.outboundInuse == 0 {
        DeletionIsSafe(RelOf(g), orig, v);
        DelAllInboundExact(g, v);
        progress := DeleteInbound(graph, v);
      }
      ghost var h := graph.View();
      assert h.vertices[v] == vertex.View();
      InuseMeansArc(h, v);
      if vertex.inboundInuse == 0 {
        DeletionIsSafe(RelOf(h), orig, v);
        DelAllOutboundExact(h, v);
        var more := DeleteOutbound(graph, v);
        ShrunkTwice(g, h, graph.View(), progress, more);
        progress := progress + more;
      }
    }
  }

  predicate Balanced(e: Rel, v: nat) {
    HasIn(e, v) <==> HasOut(e, v)
  }

  lemma NoProgressIsSupported(g: GraphView)
    requires Inv(g)
    requires forall v {:trigger Balanced(RelOf(g), v)} :: 0 <= v < |g.vertices| ==> Balanced(RelOf(g), v)
    ensures Supported(RelOf(g))
  {
    forall k | k in RelOf(g)
      ensures Fed(RelOf(g), k)
    {
      assert KeyOk(g, k) && ArcOk(g, g.arcByKey[k].id);
      assert HasOut(RelOf(g), k.src) && HasIn(RelOf(g), k.dst);
      assert Balanced(RelOf(g), k.src) && Balanced(RelOf(g), k.dst);
    }
  }

  /** Terminates, and leaves the greatest set of arcs in which every source has an incoming arc and
      every sink an outgoing arc. */
  method Prune(graph: Graph)
    requires graph.Valid()
    modifies graph, graph.vertices
    ensures graph.Valid() && graph.vertices == old(graph.vertices) && graph.byConn == old(graph.byConn)
    ensures GreatestSupported(graph.Relation(), old(graph.Relation()))
    ensures forall id <- graph.arcs :: id in old(graph.arcs) && graph.arcs[id] == old(graph.arcs)[id]
  {
    ghost var orig := graph.Relation();
    ghost var g := graph.View();
    ghost var total: nat := 0;
    var progress := 1;
    while progress != 0
      invariant graph.Valid() && graph.vertices == old(graph.vertices)
      invariant Shrunk(g, graph.View(), total) && progress >= 0 && Pruned(graph.Relation(), orig)
      invariant progress == 0 ==> Supported(graph.Relation())
      decreases graph.numArcs, progress
    {
      progress := 0;
      ghost var round := graph.View();
      var v := 0;
      while v < |graph.vertices|
        invariant 0 <= v <= |graph.vertices| && progress >= 0
        invariant graph.Valid() && graph.vertices == old(graph.vertices)
        invariant Shrunk(round, graph.View(), progress) && Pruned(graph.Relation(), orig)
        invariant progress == 0 ==>
                    forall u {:trigger Balanced(RelOf(graph.View()), u)} ::
                      0 <= u < v ==> Balanced(RelOf(graph.View()), u)
      {
        ghost var h := graph.View();
        var deleted := PruneVertex(graph, v, orig);
        ShrunkTwice(round, h, graph.View(), progress, deleted);
        progress := progress + deleted;
        v := v + 1;
      }
      ShrunkTwice(g, round, graph.View(), total, progress);
      total := total + progress;
      if progress == 0 {
        NoProgressIsSupported(graph.View());
      }
    }
  }
}
