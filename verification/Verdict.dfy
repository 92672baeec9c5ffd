/** The deadlock verdict of ValidateAllCreditLoopRoutes: prune, then split until nothing is left. */
module DeadlockVerdict {
  import opened ArcRelations
  import opened GraphViews
  import opened CreditGraphs
  import opened ArcDeletion
  import opened Splitting
  import opened GraphSplitting
  import opened Pruning
  import opened WeakComponents

  function AllDeps(parts: seq<GraphView>): set<Dep> {
    if parts == [] then {} else AllDeps(parts[..|parts| - 1]) + DepsOf(parts[|parts| - 1])
  }

  function TotalArcs(parts: seq<GraphView>): int {
    if parts == [] then 0 else TotalArcs(parts[..|parts| - 1]) + parts[|parts| - 1].numArcs
  }

  /** The parts as sets of dependencies. */
  function DepsOfAll(parts: seq<GraphView>): set<set<Dep>> {
    set h <- parts :: DepsOf(h)
  }

  /** The components are valid graphs, each contains a cycle, and no two share a dependency. */
  ghost predicate CyclicParts(parts: seq<GraphView>) {
    && (forall i :: 0 <= i < |parts| ==> Inv(parts[i]) && Cyclic(RelOf(parts[i])))
    && (forall i, j :: 0 <= i < j < |parts| ==> DepsOf(parts[i]) !! DepsOf(parts[j]))
  }

  lemma {:induction false} PartInAll(parts: seq<GraphView>, i: nat)
    requires i < |parts|
    ensures DepsOf(parts[i]) <= AllDeps(parts)
  {
    if i < |parts| - 1 {
      PartInAll(parts[..|parts| - 1], i);
      assert parts[..|parts| - 1][i] == parts[i];
    }
  }

  /** What one split of a pruned graph yields. */
  lemma SplitYieldsCycle(g: GraphView, g': GraphView, h: GraphView, root: nat)
    requires Inv(g) && Inv(g') && Inv(h) && Supported(RelOf(g))
    requires Component(RelOf(g), root) != {}
    requires g'.numArcs <= g.numArcs && Shrunk(g, g', g.numArcs - g'.numArcs)
    requires RelOf(g') == RelOf(g) - Component(RelOf(g), root)
    requires DepsOf(h) == Deps(g.vertices, Component(RelOf(g), root))
    ensures Supported(RelOf(g')) && Cyclic(RelOf(h))
    ensures DepsOf(g) == DepsOf(g') + DepsOf(h) && DepsOf(g') !! DepsOf(h)
    ensures g.numArcs == g'.numArcs + h.numArcs
  {
    hide Inv, RelOf, Deps, Component, Shrunk;
    var e := RelOf(g);
    var moved := Component(e, root);
    SplitKeepsSupport(e, root);
    ComponentWithin(e, root);
    SupportTransfers(g, h, moved);
    SupportedHasCycle(RelOf(h));
    SplitCounts(g, g', h, moved);
    RelInRange(g);
    InRangeSubset(e - moved, e, |g.vertices|);
    ShrunkConns(g, g', g.numArcs - g'.numArcs);
    DepsKept(g.vertices, g'.vertices, e - moved);
    DepsUnion(g.vertices, e - moved, moved);
    assert e == (e - moved) + moved;
    DepsCount(g, e);
    DepsCount(g, e - moved);
    DepsCount(g, moved);
    UnionDisjoint(DepsOf(g'), DepsOf(h));
    RelCount(g);
    RelCount(g');
    RelCount(h);
  }

  /** It takes one component, whole, and leaves the others as they were. */
  lemma SplitYieldsPart(g: GraphView, g': GraphView, h: GraphView, root: nat)
    requires Inv(g) && Inv(g') && Component(RelOf(g), root) != {}
    requires g'.numArcs <= g.numArcs && Shrunk(g, g', g.numArcs - g'.numArcs)
    requires RelOf(g') == RelOf(g) - Component(RelOf(g), root)
    requires DepsOf(h) == Deps(g.vertices, Component(RelOf(g), root))
    ensures DepParts(DepsOf(g)) == DepParts(DepsOf(g')) + {DepsOf(h)}
    ensures |DepParts(DepsOf(g))| == |DepParts(DepsOf(g'))| + 1
  {
    hide Inv, RelOf, Deps, Component, Shrunk, Components, DepParts;
    var e := RelOf(g);
    var rest := e - Component(e, root);
    OneComponentLess(e, root);
    ComponentsAreParts(g, e);
    ComponentsAreParts(g, rest);
    RelInRange(g);
    InRangeSubset(rest, e, |g.vertices|);
    ShrunkConns(g, g', g.numArcs - g'.numArcs);
    DepsKept(g.vertices, g'.vertices, rest);
    var c := Component(e, root);
    assert DepsOfEach(g.vertices, Components(e)) == DepsOfEach(g.vertices, Components(rest)) + {Deps(g.vertices, c)};
  }

  lemma UnionDisjoint<T>(a: set<T>, b: set<T>)
    requires |a + b| == |a| + |b|
    ensures a !! b
  {
    var c := a + b - a;
    assert a + b == a + c && a !! c;
    assert |a + c| == |a| + |c|;
    SameSizeSubset(c, b);
  }

  lemma SameSizeSubset<T>(c: set<T>, b: set<T>)
    requires c <= b && |c| == |b|
    ensures c == b
  {
    assert b == c + (b - c) && |b| == |c| + |b - c|;
  }

  lemma {:induction false} PartsStep(parts: seq<GraphView>, h: GraphView, rest: set<Dep>)
    requires CyclicParts(parts) && Inv(h) && Cyclic(RelOf(h))
    requires AllDeps(parts) !! DepsOf(h) + rest && DepsOf(h) !! rest
    ensures CyclicParts(parts + [h])
    ensures AllDeps(parts + [h]) == AllDeps(parts) + DepsOf(h) && AllDeps(parts + [h]) !! rest
    ensures TotalArcs(parts + [h]) == TotalArcs(parts) + h.numArcs
  {
    hide Inv, RelOf, DepsOf, Cyclic;
    var next := parts + [h];
    assert next[..|next| - 1] == parts;
    forall i | 0 <= i < |parts|
      ensures DepsOf(parts[i]) !! DepsOf(h)
    {
      PartInAll(parts, i);
    }
  }

  /** `parts` has been split off `orig`; together with what is left it makes up the whole, and each part is
      a whole component. */
  ghost predicate SplitSoFar(parts: seq<GraphView>, g: GraphView, orig: GraphView) {
    && Inv(g) && Supported(RelOf(g)) && CyclicParts(parts)
    && AllDeps(parts) + DepsOf(g) == DepsOf(orig) && AllDeps(parts) !! DepsOf(g)
    && TotalArcs(parts) + g.numArcs == orig.numArcs
    && DepsOfAll(parts) + DepParts(DepsOf(g)) == DepParts(DepsOf(orig))
    && |parts| + |DepParts(DepsOf(g))| == |DepParts(DepsOf(orig))|
  }

  lemma SplitSoFarStep(parts: seq<GraphView>, g: GraphView, g': GraphView, h: GraphView, root: nat, orig: GraphView)
    requires SplitSoFar(parts, g, orig) && Inv(g') && Inv(h)
    requires Component(RelOf(g), root) != {}
    requires g'.numArcs <= g.numArcs && Shrunk(g, g', g.numArcs - g'.numArcs)
    requires RelOf(g') == RelOf(g) - Component(RelOf(g), root)
    requires DepsOf(h) == Deps(g.vertices, Component(RelOf(g), root))
    ensures SplitSoFar(parts + [h], g', orig)
  {
    hide Inv, RelOf, DepsOf, Cyclic, Component, Shrunk, Supported, CyclicParts, AllDeps, TotalArcs, Deps, DepParts;
    SplitYieldsCycle(g, g', h, root);
    SplitYieldsPart(g, g', h, root);
    PartsStep(parts, h, DepsOf(g'));
    assert DepsOfAll(parts + [h]) == DepsOfAll(parts) + {DepsOf(h)};
  }

  /** Splits off one more component, if there is one. */
  method NextPart(graph: Graph, ghost parts: seq<GraphView>, ghost orig: GraphView)
    returns (newGraph: Graph?, ghost next: seq<GraphView>)
    requires graph.Valid() && SplitSoFar(parts, graph.View(), orig)
    modifies graph, graph.vertices
    ensures graph.Valid() && graph.vertices == old(graph.vertices) && graph.numArcs >= 0
    ensures SplitSoFar(next, graph.View(), orig)
    ensures newGraph == null <==> RelOf(old(graph.View())) == {}
    ensures newGraph == null ==> next == parts && RelOf(graph.View()) == {}
    ensures newGraph != null ==>
              next == parts + [newGraph.View()] && fresh(newGraph) && graph.numArcs < old(graph.numArcs)
  {
    hide Inv, RelOf, DepsOf, Deps, Component, Shrunk, SplitSoFar, VertexViews;
    ghost var g := graph.View();
    ghost var root;
    next := parts;
    newGraph, root := Split(graph);
    if newGraph != null {
      SplitSoFarStep(parts, g, graph.View(), newGraph.View(), root, orig);
      next := parts + [newGraph.View()];
    }
  }

  /** Splits a pruned graph until it is empty: the parts are its weakly connected components, one for one.
      They partition its dependencies, and each contains a cycle. */
  method SplitAll(graph: Graph) returns (count: nat, ghost parts: seq<GraphView>)
    requires graph.Valid() && Supported(graph.Relation())
    modifies graph, graph.vertices
    ensures graph.Valid() && graph.vertices == old(graph.vertices) && RelOf(graph.View()) == {}
    ensures count == |parts| == |Components(RelOf(old(graph.View())))| && CyclicParts(parts)
    ensures DepsOfAll(parts) == DepParts(DepsOf(old(graph.View())))
    ensures AllDeps(parts) == DepsOf(old(graph.View())) && TotalArcs(parts) == old(graph.numArcs)
  {
    hide Inv, DepsOf, VertexViews, CyclicParts, AllDeps, TotalArcs, SplitSoFar, Components, DepParts, DepsOfAll;
    ghost var g := graph.View();
    NothingSplit(g);
    count := 0;
    var newGraph: Graph?;
    newGraph, parts := NextPart(graph, [], g);
    while newGraph != null
      invariant graph.Valid() && graph.vertices == old(graph.vertices) && graph.numArcs >= 0
      invariant SplitSoFar(parts, graph.View(), g)
      invariant newGraph == null ==> RelOf(graph.View()) == {} && count == |parts|
      invariant newGraph != null ==> count + 1 == |parts|
      decreases newGraph != null, graph.numArcs
    {
      newGraph, parts := NextPart(graph, parts, g);
      count := count + 1;
    }
    AllSplit(parts, graph.View(), g);
  }

  lemma NothingSplit(g: GraphView)
    requires Inv(g) && Supported(RelOf(g))
    ensures SplitSoFar([], g, g)
  {
    hide Inv, Supported, DepsOf, DepParts;
  }

  lemma NoParts()
    ensures DepParts({}) == {}
  {
  }

  lemma AllSplit(parts: seq<GraphView>, g: GraphView, orig: GraphView)
    requires SplitSoFar(parts, g, orig) && RelOf(g) == {} && Inv(orig)
    ensures CyclicParts(parts) && AllDeps(parts) == DepsOf(orig) && TotalArcs(parts) == orig.numArcs
    ensures DepsOfAll(parts) == DepParts(DepsOf(orig)) && |parts| == |Components(RelOf(orig))|
  {
    hide Inv, CyclicParts, AllDeps, TotalArcs, Components, DepParts, Deps, Supported;
    DepsNone(g.vertices);
    NoParts();
    RelCount(g);
    ComponentsAreParts(orig, RelOf(orig));
  }

  /** The printed verdict: "deadlock free" exactly when the dependency relation has no cycle, and the number
      of disconnected parts: the weakly connected components of what pruning leaves, the greatest supported
      set of arcs. */
  method DeadlockFree(graph: Graph) returns (free: bool, count: nat, ghost core: Rel)
    requires graph.Valid()
    modifies graph, graph.vertices
    ensures graph.Valid()
    ensures GreatestSupported(core, RelOf(old(graph.View()))) && count == |Components(core)|
    ensures free <==> !Cyclic(RelOf(old(graph.View())))
    ensures free <==> count == 0
  {
    hide Inv, VertexViews, CyclicParts, AllDeps, TotalArcs, Components, DepParts, DepsOfAll;
    ghost var e := graph.Relation();
    Prune(graph);
    core := graph.Relation();
    VerdictExact(core, e);
    NoComponents(core);
    ghost var parts;
    count, parts := SplitAll(graph);
    free := count == 0;
  }

  lemma NoComponents(e: Rel)
    ensures |Components(e)| == 0 <==> e == {}
  {
    if e != {} {
      var k := Member(e);
      assert Component(e, k.src) in Components(e);
    }
  }
}
