/** CLGraphDataSplit: move one weakly connected component of the graph into a graph of its own. */
module Splitting {
  import opened ArcRelations
  import opened GraphViews
  import opened ArcDeletion

  // ---- Weak connectivity ----

  predicate Touches(e: Rel, v: nat) {
    HasIn(e, v) || HasOut(e, v)
  }

  predicate Adjacent(e: Rel, u: nat, v: nat) {
    Link(u, v) in e || Link(v, u) in e
  }

  /** `p` is a path from `u` to `v` that may use arcs in either direction. */
  predicate IsWeakPath(e: Rel, p: seq<nat>, u: nat, v: nat) {
    && |p| > 0 && p[0] == u && p[|p| - 1] == v
    && forall k :: 1 <= k < |p| ==> Adjacent(e, p[k - 1], p[k])
  }

  ghost predicate Connected(e: Rel, u: nat, v: nat) {
    exists p :: IsWeakPath(e, p, u, v)
  }

  lemma ConnectedSelf(e: Rel, v: nat)
    ensures Connected(e, v, v)
  {
    assert IsWeakPath(e, [v], v, v);
  }

  lemma ConnectedStep(e: Rel, u: nat, v: nat, w: nat)
    requires Adjacent(e, u, v) && Connected(e, v, w)
    ensures Connected(e, u, w)
  {
    var p :| IsWeakPath(e, p, v, w);
    var q := [u] + p;
    forall k | 1 <= k < |q| ensures Adjacent(e, q[k - 1], q[k]) {
      assert k > 1 ==> Adjacent(e, p[k - 2], p[k - 1]);
    }
    assert IsWeakPath(e, q, u, w);
  }

  lemma ConnectedMonotone(e: Rel, f: Rel, u: nat, v: nat)
    requires e <= f && Connected(e, u, v)
    ensures Connected(f, u, v)
  {
    var p :| IsWeakPath(e, p, u, v);
    assert IsWeakPath(f, p, u, v);
  }

  /** The arcs of the weakly connected component of `v`. */
  ghost function Component(e: Rel, v: nat): Rel {
    set k <- e | Connected(e, v, k.src)
  }

  /** `moved` has been taken from `e` starting at `v`: nothing is left at `v` or at any vertex a
      moved arc touches, and only arcs connected to `v` have moved. */
  ghost predicate TakenFrom(e: Rel, moved: Rel, v: nat) {
    && moved <= e
    && !Touches(e - moved, v)
    && (forall x {:trigger Touches(moved, x)} :: Touches(moved, x) ==> !Touches(e - moved, x))
    && (forall k <- moved :: Connected(e, v, k.src))
  }

  lemma ArcTouches(e: Rel, k: Link)
    ensures k in e ==> Touches(e, k.src) && Touches(e, k.dst)
  {
  }

  lemma {:induction false} NothingLeftOnPath(e: Rel, moved: Rel, v: nat, p: seq<nat>, x: nat)
    requires TakenFrom(e, moved, v) && IsWeakPath(e, p, v, x)
    ensures !Touches(e - moved, x)
    decreases |p|
  {
    if |p| > 1 {
      var y := p[|p| - 2];
      NothingLeftOnPath(e, moved, v, p[..|p| - 1], y);
      assert Adjacent(e, y, x);
      var k := if Link(y, x) in e then Link(y, x) else Link(x, y);
      ArcTouches(e - moved, k);
      ArcTouches(moved, k);
    }
  }

  /** The recursion's local contract pins the moved arcs down: exactly the component of `v`. */
  lemma TakenIsComponent(e: Rel, moved: Rel, v: nat)
    requires TakenFrom(e, moved, v)
    ensures moved == Component(e, v)
  {
    forall k | k in e && Connected(e, v, k.src)
      ensures k in moved
    {
      var p :| IsWeakPath(e, p, v, k.src);
      NothingLeftOnPath(e, moved, v, p, k.src);
      ArcTouches(e - moved, k);
    }
  }

  // ---- Dependencies between connections: what the two graphs have in common ----

  datatype Dep = Dep(from: Channel, to: Channel)

  function DepOf(vs: seq<VertexView>, k: Link): Dep
    requires k.src < |vs| && k.dst < |vs|
  {
    Dep(vs[k.src].conn, vs[k.dst].conn)
  }

  function Deps(vs: seq<VertexView>, e: Rel): set<Dep> {
    set k {:trigger k in e} | k in e && k.src < |vs| && k.dst < |vs| :: DepOf(vs, k)
  }

  /** The graph as a relation between connections. */
  function DepsOf(g: GraphView): set<Dep> {
    Deps(g.vertices, RelOf(g))
  }

  lemma DepsNone(vs: seq<VertexView>)
    ensures Deps(vs, {}) == {}
  {
  }

  lemma DepsUnion(vs: seq<VertexView>, e: Rel, f: Rel)
    ensures Deps(vs, e + f) == Deps(vs, e) + Deps(vs, f)
  {
  }

  predicate SameConns(vs: seq<VertexView>, ws: seq<VertexView>) {
    |vs| <= |ws| && forall v :: 0 <= v < |vs| ==> ws[v].conn == vs[v].conn
  }

  predicate InRange(e: Rel, n: nat) {
    forall k <- e :: k.src < n && k.dst < n
  }

  lemma RelInRange(g: GraphView)
    requires Inv(g)
    ensures InRange(RelOf(g), |g.vertices|)
  {
    forall k | k in RelOf(g) ensures k.src < |g.vertices| && k.dst < |g.vertices| {
      assert KeyOk(g, k) && ArcOk(g, g.arcByKey[k].id);
    }
  }

  lemma DepsKept(vs: seq<VertexView>, ws: seq<VertexView>, e: Rel)
    requires SameConns(vs, ws) && InRange(e, |vs|)
    ensures Deps(ws, e) == Deps(vs, e)
  {
    forall k | k in e ensures DepOf(ws, k) == DepOf(vs, k) {
    }
  }

  lemma ShrunkConns(g: GraphView, h: GraphView, n: nat)
    requires Inv(g) && Inv(h) && Shrunk(g, h, n)
    ensures SameConns(g.vertices, h.vertices)
  {
    forall v | 0 <= v < |g.vertices| ensures h.vertices[v].conn == g.vertices[v].conn {
      assert ConnOk(g, v) && NameOk(h, g.vertices[v].conn);
    }
  }

  lemma AddVertexDeps(g: GraphView, c: Channel)
    requires Inv(g)
    ensures DepsOf(AddVertexView(g, c).0) == DepsOf(g)
  {
    RelInRange(g);
    AddVertexOk(g, c);
    DepsKept(g.vertices, AddVertexView(g, c).0.vertices, RelOf(g));
  }

  lemma AddArcDeps(g: GraphView, source: nat, sink: nat)
    requires Inv(g) && source != sink && source < |g.vertices| && sink < |g.vertices|
    ensures DepsOf(AddArcView(g, source, sink).0)
         == DepsOf(g) + {Dep(g.vertices[source].conn, g.vertices[sink].conn)}
  {
    var h := AddArcView(g, source, sink).0;
    RelInRange(g);
    AddArcEffect(g, source, sink);
    DepsKept(g.vertices, h.vertices, RelOf(g) + {Link(source, sink)});
    DepsUnion(g.vertices, RelOf(g), {Link(source, sink)});
    assert Deps(g.vertices, {Link(source, sink)}) == {DepOf(g.vertices, Link(source, sink))};
  }

  // ---- The new graph ----

  /** Adds the dependency of the connection `c` on the vertex `id`. */
  function LinkOut(h: GraphView, id: nat, c: Channel): GraphView {
    var (h1, sink) := AddVertexView(h, c);
    AddArcView(h1, id, sink).0
  }

  /** Adds the dependency of the vertex `id` on the connection `c`. */
  function LinkIn(h: GraphView, id: nat, c: Channel): GraphView {
    var (h1, source) := AddVertexView(h, c);
    AddArcView(h1, source, id).0
  }

  predicate Names(h: GraphView, id: nat, c: Channel) {
    id < |h.vertices| && h.vertices[id].conn == c
  }

  lemma LinkOutDeps(h: GraphView, id: nat, c: Channel, d: Channel)
    requires Inv(h) && Growing(h) && Names(h, id, d) && c != d
    ensures Inv(LinkOut(h, id, c)) && Growing(LinkOut(h, id, c)) && Names(LinkOut(h, id, c), id, d)
    ensures DepsOf(LinkOut(h, id, c)) == DepsOf(h) + {Dep(d, c)}
  {
    hide Inv, Growing, DepsOf, AddArcView, AddVertexView;
    var (h1, sink) := AddVertexView(h, c);
    AddVertexOk(h, c);
    AddVertexDeps(h, c);
    AddArcOk(h1, id, sink);
    AddArcEffect(h1, id, sink);
    AddArcDeps(h1, id, sink);
  }

  lemma LinkInDeps(h: GraphView, id: nat, c: Channel, d: Channel)
    requires Inv(h) && Growing(h) && Names(h, id, d) && c != d
    ensures Inv(LinkIn(h, id, c)) && Growing(LinkIn(h, id, c)) && Names(LinkIn(h, id, c), id, d)
    ensures DepsOf(LinkIn(h, id, c)) == DepsOf(h) + {Dep(c, d)}
  {
    hide Inv, Growing, DepsOf, AddArcView, AddVertexView;
    var (h1, source) := AddVertexView(h, c);
    AddVertexOk(h, c);
    AddVertexDeps(h, c);
    AddArcOk(h1, source, id);
    AddArcEffect(h1, source, id);
    AddArcDeps(h1, source, id);
  }

  lemma DistinctConns(g: GraphView, u: nat, v: nat)
    requires Inv(g) && u < |g.vertices| && v < |g.vertices| && u != v
    ensures g.vertices[u].conn != g.vertices[v].conn
    ensures Deps(g.vertices, {Link(u, v)}) == {Dep(g.vertices[u].conn, g.vertices[v].conn)}
  {
    assert ConnOk(g, u) && ConnOk(g, v);
    assert DepOf(g.vertices, Link(u, v)) == Dep(g.vertices[u].conn, g.vertices[v].conn);
  }

  // ---- Copying the arcs out of a vertex ----

  /** The arcs out of `v` that the first `i` slots of its list name. */
  function OutPrefix(g: GraphView, v: nat, i: nat): Rel
    requires v < |g.vertices| && i <= |g.vertices[v].outbound|
  {
    set k <- g.arcByKey | k.src == v && g.arcByKey[k].id in g.vertices[v].outbound[..i]
  }

  lemma OutPrefixStep(g: GraphView, v: nat, i: nat)
    requires Inv(g) && v < |g.vertices| && i < |g.vertices[v].outbound|
    ensures var id := g.vertices[v].outbound[i];
            if id < 0 then OutPrefix(g, v, i + 1) == OutPrefix(g, v, i)
            else
              && id in g.arcs && g.arcs[id].source == v && g.arcs[id].sink != v
              && g.arcs[id].sink < |g.vertices| && g.arcs[id].Key() in RelOf(g)
              && OutPrefix(g, v, i + 1) == OutPrefix(g, v, i) + {g.arcs[id].Key()}
  {
    var ids := g.vertices[v].outbound;
    var id := ids[i];
    assert ids[..i + 1] == ids[..i] + [id];
    assert VertexOk(g, v);
    forall k | k in g.arcByKey ensures KeyOk(g, k) {
    }
    if id >= 0 {
      assert ArcOk(g, id);
    }
  }

  lemma OutPrefixWhole(g: GraphView, v: nat)
    requires Inv(g) && v < |g.vertices|
    ensures OutPrefix(g, v, |g.vertices[v].outbound|) == OutboundOf(RelOf(g), v)
    ensures OutPrefix(g, v, 0) == {}
  {
    var x := g.vertices[v];
    assert x.outbound[..|x.outbound|] == x.outbound;
    assert VertexOk(g, v);
    forall k | k in g.arcByKey && k.src == v
      ensures g.arcByKey[k].id in x.outbound
    {
      assert KeyOk(g, k);
      assert g.arcByKey[k].id in OutIds(g, v);
    }
  }

  /** The sinks of the arcs that the first `i` slots name. */
  function OutNeighbors(g: GraphView, v: nat, i: nat): seq<nat>
    requires v < |g.vertices| && i <= |g.vertices[v].outbound|
  {
    if i == 0 then [] else
    var id := g.vertices[v].outbound[i - 1];
    OutNeighbors(g, v, i - 1) + if id in g.arcs then [g.arcs[id].sink] else []
  }

  /** The new graph after those arcs have been copied into it. */
  function CopyOut(g: GraphView, v: nat, h: GraphView, vertex: nat, i: nat): GraphView
    requires v < |g.vertices| && i <= |g.vertices[v].outbound|
  {
    if i == 0 then h else
    var copied := CopyOut(g, v, h, vertex, i - 1);
    var id := g.vertices[v].outbound[i - 1];
    if id in g.arcs && g.arcs[id].sink < |g.vertices|
    then LinkOut(copied, vertex, g.vertices[g.arcs[id].sink].conn) else copied
  }

  lemma OutSlotFacts(g: GraphView, v: nat, i: nat)
    requires Inv(g) && v < |g.vertices| && i < |g.vertices[v].outbound|
    ensures var id := g.vertices[v].outbound[i];
            && (id in g.arcs <==> id >= 0)
            && (id < 0 ==> OutPrefix(g, v, i + 1) == OutPrefix(g, v, i))
            && (id >= 0 ==>
                  && g.arcs[id].sink < |g.vertices| && Link(v, g.arcs[id].sink) in RelOf(g)
                  && g.vertices[g.arcs[id].sink].conn != g.vertices[v].conn
                  && OutPrefix(g, v, i + 1) == OutPrefix(g, v, i) + {Link(v, g.arcs[id].sink)}
                  && Deps(g.vertices, OutPrefix(g, v, i + 1))
                     == Deps(g.vertices, OutPrefix(g, v, i))
                      + {Dep(g.vertices[v].conn, g.vertices[g.arcs[id].sink].conn)})
  {
    hide Inv, OutPrefix, Deps;
    OutPrefixStep(g, v, i);
    var id := g.vertices[v].outbound[i];
    if id >= 0 {
      var a := g.arcs[id];
      DepsUnion(g.vertices, OutPrefix(g, v, i), {a.Key()});
      DistinctConns(g, a.source, a.sink);
    } else {
      OutNoNegative(g, id);
    }
  }

  lemma OutNoNegative(g: GraphView, id: int)
    requires Inv(g) && id < 0
    ensures id !in g.arcs
  {
    assert id in g.arcs ==> ArcOk(g, id);
  }

  lemma {:induction false} CopyOutDeps(g: GraphView, v: nat, h: GraphView, vertex: nat, i: nat)
    requires Inv(g) && v < |g.vertices| && i <= |g.vertices[v].outbound|
    requires Inv(h) && Growing(h) && Names(h, vertex, g.vertices[v].conn)
    ensures var r := CopyOut(g, v, h, vertex, i);
            && Inv(r) && Growing(r) && Names(r, vertex, g.vertices[v].conn)
            && DepsOf(r) == DepsOf(h) + Deps(g.vertices, OutPrefix(g, v, i))
  {
    hide Inv, Growing, DepsOf, OutPrefix, Deps, LinkOut;
    if i == 0 {
      OutPrefixWhole(g, v);
      DepsNone(g.vertices);
    } else {
      CopyOutDeps(g, v, h, vertex, i - 1);
      OutSlotFacts(g, v, i - 1);
      var id := g.vertices[v].outbound[i - 1];
      if id >= 0 {
        LinkOutDeps(CopyOut(g, v, h, vertex, i - 1), vertex, g.vertices[g.arcs[id].sink].conn, g.vertices[v].conn);
      }
    }
  }

  lemma {:induction false} OutNeighborsExact(g: GraphView, v: nat, i: nat)
    requires Inv(g) && v < |g.vertices| && i <= |g.vertices[v].outbound|
    ensures forall n <- OutNeighbors(g, v, i) :: n < |g.vertices| && Link(v, n) in RelOf(g)
    ensures forall k <- OutPrefix(g, v, i) :: k.dst in OutNeighbors(g, v, i)
  {
    hide Inv, OutPrefix, Deps;
    if i == 0 {
      OutPrefixWhole(g, v);
    } else {
      OutNeighborsExact(g, v, i - 1);
      OutSlotFacts(g, v, i - 1);
    }
  }

  // ---- Copying the arcs into a vertex ----

  /** The arcs into `v` that the first `i` slots of its list name. */
  function InPrefix(g: GraphView, v: nat, i: nat): Rel
    requires v < |g.vertices| && i <= |g.vertices[v].inbound|
  {
    set k <- g.arcByKey | k.dst == v && g.arcByKey[k].id in g.vertices[v].inbound[..i]
  }

  lemma InPrefixStep(g: GraphView, v: nat, i: nat)
    requires Inv(g) && v < |g.vertices| && i < |g.vertices[v].inbound|
    ensures var id := g.vertices[v].inbound[i];
            if id < 0 then InPrefix(g, v, i + 1) == InPrefix(g, v, i)
            else
              && id in g.arcs && g.arcs[id].sink == v && g.arcs[id].source != v
              && g.arcs[id].source < |g.vertices| && g.arcs[id].Key() in RelOf(g)
              && InPrefix(g, v, i + 1) == InPrefix(g, v, i) + {g.arcs[id].Key()}
  {
    var ids := g.vertices[v].inbound;
    var id := ids[i];
    assert ids[..i + 1] == ids[..i] + [id];
    assert VertexOk(g, v);
    forall k | k in g.arcByKey ensures KeyOk(g, k) {
    }
    if id >= 0 {
      assert ArcOk(g, id);
    }
  }

  lemma InPrefixWhole(g: GraphView, v: nat)
    requires Inv(g) && v < |g.vertices|
    ensures InPrefix(g, v, |g.vertices[v].inbound|) == InboundOf(RelOf(g), v)
    ensures InPrefix(g, v, 0) == {}
  {
    var x := g.vertices[v];
    assert x.inbound[..|x.inbound|] == x.inbound;
    assert VertexOk(g, v);
    forall k | k in g.arcByKey && k.dst == v
      ensures g.arcByKey[k].id in x.inbound
    {
      assert KeyOk(g, k);
      assert g.arcByKey[k].id in InIds(g, v);
    }
  }

  /** The sources of the arcs that the first `i` slots name. */
  function InNeighbors(g: GraphView, v: nat, i: nat): seq<nat>
    requires v < |g.vertices| && i <= |g.vertices[v].inbound|
  {
    if i == 0 then [] else
    var id := g.vertices[v].inbound[i - 1];
    InNeighbors(g, v, i - 1) + if id in g.arcs then [g.arcs[id].source] else []
  }

  /** The new graph after those arcs have been copied into it. */
  function CopyIn(g: GraphView, v: nat, h: GraphView, vertex: nat, i: nat): GraphView
    requires v < |g.vertices| && i <= |g.vertices[v].inbound|
  {
    if i == 0 then h else
    var copied := CopyIn(g, v, h, vertex, i - 1);
    var id := g.vertices[v].inbound[i - 1];
    if id in g.arcs && g.arcs[id].source < |g.vertices|
    then LinkIn(copied, vertex, g.vertices[g.arcs[id].source].conn) else copied
  }

  lemma InSlotFacts(g: GraphView, v: nat, i: nat)
    requires Inv(g) && v < |g.vertices| && i < |g.vertices[v].inbound|
    ensures var id := g.vertices[v].inbound[i];
            && (id in g.arcs <==> id >= 0)
            && (id < 0 ==> InPrefix(g, v, i + 1) == InPrefix(g, v, i))
            && (id >= 0 ==>
                  && g.arcs[id].source < |g.vertices| && Link(g.arcs[id].source, v) in RelOf(g)
                  && g.vertices[g.arcs[id].source].conn != g.vertices[v].conn
                  && InPrefix(g, v, i + 1) == InPrefix(g, v, i) + {Link(g.arcs[id].source, v)}
                  && Deps(g.vertices, InPrefix(g, v, i + 1))
                     == Deps(g.vertices, InPrefix(g, v, i))
                      + {Dep(g.vertices[g.arcs[id].source].conn, g.vertices[v].conn)})
  {
    hide Inv, InPrefix, Deps;
    InPrefixStep(g, v, i);
    var id := g.vertices[v].inbound[i];
    if id >= 0 {
      var a := g.arcs[id];
      DepsUnion(g.vertices, InPrefix(g, v, i), {a.Key()});
      DistinctConns(g, a.source, a.sink);
    } else {
      InNoNegative(g, id);
    }
  }

  lemma InNoNegative(g: GraphView, id: int)
    requires Inv(g) && id < 0
    ensures id !in g.arcs
  {
    assert id in g.arcs ==> ArcOk(g, id);
  }

  lemma {:induction false} CopyInDeps(g: GraphView, v: nat, h: GraphView, vertex: nat, i: nat)
    requires Inv(g) && v < |g.vertices| && i <= |g.vertices[v].inbound|
    requires Inv(h) && Growing(h) && Names(h, vertex, g.vertices[v].conn)
    ensures var r := CopyIn(g, v, h, vertex, i);
            && Inv(r) && Growing(r) && Names(r, vertex, g.vertices[v].conn)
            && DepsOf(r) == DepsOf(h) + Deps(g.vertices, InPrefix(g, v, i))
  {
    hide Inv, Growing, DepsOf, InPrefix, Deps, LinkIn;
    if i == 0 {
      InPrefixWhole(g, v);
      DepsNone(g.vertices);
    } else {
      CopyInDeps(g, v, h, vertex, i - 1);
      InSlotFacts(g, v, i - 1);
      var id := g.vertices[v].inbound[i - 1];
      if id >= 0 {
        LinkInDeps(CopyIn(g, v, h, vertex, i - 1), vertex, g.vertices[g.arcs[id].source].conn, g.vertices[v].conn);
      }
    }
  }

  lemma {:induction false} InNeighborsExact(g: GraphView, v: nat, i: nat)
    requires Inv(g) && v < |g.vertices| && i <= |g.vertices[v].inbound|
    ensures forall n <- InNeighbors(g, v, i) :: n < |g.vertices| && Link(n, v) in RelOf(g)
    ensures forall k <- InPrefix(g, v, i) :: k.src in InNeighbors(g, v, i)
  {
    hide Inv, InPrefix, Deps;
    if i == 0 {
      InPrefixWhole(g, v);
    } else {
      InNeighborsExact(g, v, i - 1);
      InSlotFacts(g, v, i - 1);
    }
  }

  // ---- The destructive recursion ----

  /** The arcs at a vertex. */
  function Incident(e: Rel, v: nat): Rel {
    set k <- e | k.src == v || k.dst == v
  }

  /** The neighbors of `v` seen so far have nothing left in `cur`, nor has any vertex that an arc
      moved by the recursion touches. */
  ghost predicate Partial(e: Rel, v: nat, cur: Rel, ns: seq<nat>) {
    && cur <= e - Incident(e, v)
    && (forall n <- ns :: !Touches(cur, n))
    && (forall x {:trigger Touches(e - Incident(e, v) - cur, x)} ::
          Touches(e - Incident(e, v) - cur, x) ==> !Touches(cur, x))
    && (forall k <- e - cur :: Connected(e, v, k.src))
  }

  lemma PartialStart(e: Rel, v: nat)
    ensures Partial(e, v, e - Incident(e, v), [])
  {
    forall k | k in Incident(e, v)
      ensures Connected(e, v, k.src)
    {
      ConnectedSelf(e, v);
      if k.src != v {
        ConnectedSelf(e, k.src);
        ConnectedStep(e, v, k.src, k.src);
      }
    }
  }

  lemma PartialStep(e: Rel, v: nat, cur: Rel, ns: seq<nat>, n: nat, moved: Rel)
    requires Partial(e, v, cur, ns) && TakenFrom(cur, moved, n) && Adjacent(e, v, n)
    ensures Partial(e, v, cur - moved, ns + [n])
  {
    var next := cur - moved;
    forall x | Touches(e - Incident(e, v) - next, x)
      ensures !Touches(next, x)
    {
      TouchesUnion(e - Incident(e, v) - next, e - Incident(e, v) - cur, moved, x);
      TouchesMonotone(next, cur, x);
    }
    forall m | m in ns + [n]
      ensures !Touches(next, m)
    {
      TouchesMonotone(next, cur, m);
    }
    forall k | k in e - next
      ensures Connected(e, v, k.src)
    {
      if k in moved {
        ConnectedMonotone(cur, e, n, k.src);
        ConnectedStep(e, v, n, k.src);
      }
    }
  }

  lemma TouchesMonotone(e: Rel, f: Rel, x: nat)
    requires e <= f
    ensures Touches(e, x) ==> Touches(f, x)
  {
  }

  lemma TouchesUnion(e: Rel, f: Rel, g: Rel, x: nat)
    requires e <= f + g
    ensures Touches(e, x) ==> Touches(f, x) || Touches(g, x)
  {
  }

  lemma PartialDone(e: Rel, v: nat, cur: Rel, ns: seq<nat>)
    requires Partial(e, v, cur, ns)
    requires forall k <- Incident(e, v) :: (k.src == v || k.src in ns) && (k.dst == v || k.dst in ns)
    ensures TakenFrom(e, e - cur, v)
  {
    var moved := e - cur;
    assert e - moved == cur;
    forall x | Touches(moved, x)
      ensures !Touches(cur, x)
    {
      TouchesUnion(moved, Incident(e, v), e - Incident(e, v) - cur, x);
    }
  }

  // ---- Components of a pruned graph ----

  lemma ConnectedOn(e: Rel, u: nat, v: nat, w: nat)
    requires Connected(e, u, v) && Adjacent(e, v, w)
    ensures Connected(e, u, w)
  {
    var p :| IsWeakPath(e, p, u, v);
    var q := p + [w];
    forall k | 1 <= k < |q| ensures Adjacent(e, q[k - 1], q[k]) {
      assert k < |p| ==> Adjacent(e, p[k - 1], p[k]);
    }
    assert IsWeakPath(e, q, u, w);
  }

  lemma ComponentClosed(e: Rel, v: nat, k: Link, a: Link)
    requires k in e && a in e && (a.dst == k.src || a.src == k.dst)
    ensures k in Component(e, v) <==> a in Component(e, v)
  {
    assert Adjacent(e, k.src, k.dst) && Adjacent(e, k.dst, k.src);
    assert Adjacent(e, a.src, a.dst) && Adjacent(e, a.dst, a.src);
    if Connected(e, v, k.src) {
      ConnectedOn(e, v, k.src, k.dst);
      if a.dst == k.src {
        ConnectedOn(e, v, a.dst, a.src);
      }
    }
    if Connected(e, v, a.src) {
      ConnectedOn(e, v, a.src, a.dst);
      if a.src == k.dst {
        ConnectedOn(e, v, k.dst, k.src);
      }
    }
  }

  lemma FedBy(e: Rel, k: Link, i: Link, o: Link)
    requires i in e && i.dst == k.src && o in e && o.src == k.dst
    ensures Fed(e, k)
  {
  }

  lemma FedInItsHalf(e: Rel, v: nat, k: Link)
    requires k in e && Fed(e, k)
    ensures k in Component(e, v) ==> Fed(Component(e, v), k)
    ensures k !in Component(e, v) ==> Fed(e - Component(e, v), k)
  {
    hide Component;
    var i :| i in e && i.dst == k.src;
    var o :| o in e && o.src == k.dst;
    ComponentClosed(e, v, k, i);
    ComponentClosed(e, v, k, o);
    if k in Component(e, v) {
      FedBy(Component(e, v), k, i, o);
    } else {
      FedBy(e - Component(e, v), k, i, o);
    }
  }

  /** Splitting keeps both halves pruned: the component and what is left of the graph. */
  lemma SplitKeepsSupport(e: Rel, v: nat)
    requires Supported(e)
    ensures Supported(Component(e, v))
    ensures Supported(e - Component(e, v))
  {
    hide Component, Fed;
    ComponentWithin(e, v);
    forall k | k in e
      ensures k in Component(e, v) ==> Fed(Component(e, v), k)
      ensures k !in Component(e, v) ==> Fed(e - Component(e, v), k)
    {
      assert Fed(e, k);
      FedInItsHalf(e, v, k);
    }
  }

  lemma ComponentWithin(e: Rel, v: nat)
    ensures Component(e, v) <= e
    ensures HasOut(e, v) || HasIn(e, v) ==> Component(e, v) != {}
  {
    ConnectedSelf(e, v);
    if k :| k in e && k.src == v {
      assert k in Component(e, v);
    } else if k :| k in e && k.dst == v {
      assert Adjacent(e, v, k.src);
      ConnectedOn(e, v, v, k.src);
      assert k in Component(e, v);
    }
  }

  lemma FedTransfers(g: GraphView, h: GraphView, moved: Rel, k: Link)
    requires Inv(h) && InRange(moved, |g.vertices|) && InRange(RelOf(h), |h.vertices|)
    requires Supported(moved) && DepsOf(h) == Deps(g.vertices, moved) && k in RelOf(h)
    ensures Fed(RelOf(h), k)
  {
    hide Inv, DepsOf, Deps, RelOf;
    var m := Origin(g.vertices, moved, h, k);
    assert Fed(moved, m);
    var i :| i in moved && i.dst == m.src;
    var o :| o in moved && o.src == m.dst;
    var hi := Copied(g.vertices, moved, h, i);
    var ho := Copied(g.vertices, moved, h, o);
    SameConnSameVertex(h, hi.dst, k.src);
    SameConnSameVertex(h, ho.src, k.dst);
    FedBy(RelOf(h), k, hi, ho);
  }

  /** Graphs with the same dependencies are pruned together, whatever their vertex ids. */
  lemma SupportTransfers(g: GraphView, h: GraphView, moved: Rel)
    requires Inv(g) && Inv(h) && moved <= RelOf(g) && Supported(moved)
    requires DepsOf(h) == Deps(g.vertices, moved)
    ensures Supported(RelOf(h))
    ensures moved != {} ==> RelOf(h) != {}
  {
    hide Inv, Fed, DepsOf, Deps, RelOf;
    RelInRange(g);
    RelInRange(h);
    assert InRange(moved, |g.vertices|);
    forall k | k in RelOf(h)
      ensures Fed(RelOf(h), k)
    {
      FedTransfers(g, h, moved, k);
    }
    if moved != {} {
      var m := Member(moved);
      var k := Copied(g.vertices, moved, h, m);
    }
  }

  lemma SameConnSameVertex(h: GraphView, u: nat, v: nat)
    requires Inv(h) && u < |h.vertices| && v < |h.vertices|
    requires h.vertices[u].conn == h.vertices[v].conn
    ensures u == v
  {
    VertexIsOk(h, u);
    VertexIsOk(h, v);
  }

  lemma Origin(vs: seq<VertexView>, moved: Rel, h: GraphView, k: Link) returns (m: Link)
    requires DepsOf(h) == Deps(vs, moved) && k in RelOf(h) && InRange(RelOf(h), |h.vertices|)
    ensures m in moved && m.src < |vs| && m.dst < |vs| && DepOf(vs, m) == DepOf(h.vertices, k)
  {
    assert DepOf(h.vertices, k) in DepsOf(h);
    m :| m in moved && m.src < |vs| && m.dst < |vs| && DepOf(vs, m) == DepOf(h.vertices, k);
  }

  lemma Copied(vs: seq<VertexView>, moved: Rel, h: GraphView, m: Link) returns (k: Link)
    requires DepsOf(h) == Deps(vs, moved) && m in moved && InRange(moved, |vs|)
    ensures k in RelOf(h) && k.src < |h.vertices| && k.dst < |h.vertices| && DepOf(h.vertices, k) == DepOf(vs, m)
  {
    assert DepOf(vs, m) in Deps(vs, moved);
    k :| k in RelOf(h) && k.src < |h.vertices| && k.dst < |h.vertices| && DepOf(h.vertices, k) == DepOf(vs, m);
  }

  // ---- Nothing is duplicated: arcs, keys and dependencies correspond one to one ----

  lemma {:induction false} DepsCount(g: GraphView, e: Rel)
    requires Inv(g) && e <= RelOf(g)
    ensures |Deps(g.vertices, e)| == |e|
    decreases |e|
  {
    hide Inv;
    RelInRange(g);
    if e == {} {
      DepsNone(g.vertices);
    } else {
      var k := Member(e);
      var rest := e - {k};
      DepsCount(g, rest);
      DepsUnion(g.vertices, rest, {k});
      assert e == rest + {k};
      var d := DepOf(g.vertices, k);
      assert Deps(g.vertices, {k}) == {d};
      forall m | m in rest
        ensures DepOf(g.vertices, m) != d
      {
        if DepOf(g.vertices, m) == d {
          SameConnSameVertex(g, m.src, k.src);
          SameConnSameVertex(g, m.dst, k.dst);
        }
      }
      assert d !in Deps(g.vertices, rest);
    }
  }

  function KeysOf(arcs: map<int, Arc>, ids: set<int>): Rel
    requires ids <= arcs.Keys
  {
    set id <- ids :: arcs[id].Key()
  }

  lemma {:induction false} KeysCount(g: GraphView, ids: set<int>)
    requires Inv(g) && ids <= g.arcs.Keys
    ensures |KeysOf(g.arcs, ids)| == |ids|
    decreases |ids|
  {
    hide Inv;
    if ids != {} {
      var id := Member(ids);
      var rest := ids - {id};
      KeysCount(g, rest);
      assert KeysOf(g.arcs, ids) == KeysOf(g.arcs, rest) + {g.arcs[id].Key()};
      forall i | i in rest
        ensures g.arcs[i].Key() != g.arcs[id].Key()
      {
        ArcIsOk(g, i);
        ArcIsOk(g, id);
      }
    }
  }

  lemma RelCount(g: GraphView)
    requires Inv(g)
    ensures |RelOf(g)| == g.numArcs
  {
    KeysCount(g, g.arcs.Keys);
    forall k | k in g.arcByKey ensures k in KeysOf(g.arcs, g.arcs.Keys) {
      assert KeyOk(g, k);
    }
    forall id | id in g.arcs ensures g.arcs[id].Key() in RelOf(g) {
      assert ArcOk(g, id);
    }
    assert KeysOf(g.arcs, g.arcs.Keys) == RelOf(g);
  }
}
