/** The weakly connected components of a graph: counted over arcs, and over dependencies between channels. */
module WeakComponents {
  import opened ArcRelations
  import opened GraphViews
  import opened Splitting

  // ---- Components partition the arcs ----

  /** The weakly connected components of a relation, each as its set of arcs. */
  ghost function Components(e: Rel): set<Rel> {
    set k <- e :: Component(e, k.src)
  }

  lemma {:induction false} ConnectedAlong(e: Rel, p: seq<nat>, u: nat, v: nat, i: nat)
    requires IsWeakPath(e, p, u, v) && i < |p|
    ensures Connected(e, u, p[i]) && Connected(e, p[i], v)
  {
    assert IsWeakPath(e, p[..i + 1], u, p[i]);
    assert IsWeakPath(e, p[i..], p[i], v);
  }

  lemma {:induction false} ConnectedBack(e: Rel, p: seq<nat>, u: nat, v: nat)
    requires IsWeakPath(e, p, u, v)
    ensures Connected(e, v, u)
    decreases |p|
  {
    if |p| == 1 {
      ConnectedSelf(e, v);
    } else {
      assert IsWeakPath(e, p[1..], p[1], v);
      ConnectedBack(e, p[1..], p[1], v);
      ConnectedOn(e, v, p[1], u);
    }
  }

  lemma {:induction false} ConnectedJoin(e: Rel, p: seq<nat>, u: nat, v: nat, w: nat)
    requires IsWeakPath(e, p, u, v) && Connected(e, v, w)
    ensures Connected(e, u, w)
    decreases |p|
  {
    if |p| > 1 {
      assert IsWeakPath(e, p[1..], p[1], v);
      ConnectedJoin(e, p[1..], p[1], v, w);
      ConnectedStep(e, u, p[1], w);
    }
  }

  lemma ConnectedSym(e: Rel, u: nat, v: nat)
    requires Connected(e, u, v)
    ensures Connected(e, v, u)
  {
    var p :| IsWeakPath(e, p, u, v);
    ConnectedBack(e, p, u, v);
  }

  lemma ConnectedTrans(e: Rel, u: nat, v: nat, w: nat)
    requires Connected(e, u, v) && Connected(e, v, w)
    ensures Connected(e, u, w)
  {
    var p :| IsWeakPath(e, p, u, v);
    ConnectedJoin(e, p, u, v, w);
  }

  lemma SameComponent(e: Rel, u: nat, v: nat)
    requires Connected(e, u, v)
    ensures Component(e, u) == Component(e, v)
  {
    hide Connected;
    ConnectedSym(e, u, v);
    forall k <- e
      ensures Connected(e, u, k.src) <==> Connected(e, v, k.src)
    {
      if Connected(e, u, k.src) {
        ConnectedTrans(e, v, u, k.src);
      }
      if Connected(e, v, k.src) {
        ConnectedTrans(e, u, v, k.src);
      }
    }
  }

  /** Taking another component away leaves paths as they are. */
  lemma PathStays(e: Rel, root: nat, p: seq<nat>, u: nat, v: nat)
    requires IsWeakPath(e, p, u, v) && !Connected(e, root, u)
    ensures IsWeakPath(e - Component(e, root), p, u, v)
  {
    forall k | 1 <= k < |p|
      ensures Adjacent(e - Component(e, root), p[k - 1], p[k])
    {
      forall i | i == k || i == k - 1
        ensures !Connected(e, root, p[i])
      {
        ConnectedAlong(e, p, u, v, i);
        if Connected(e, root, p[i]) {
          ConnectedSym(e, u, p[i]);
          ConnectedTrans(e, root, p[i], u);
        }
      }
    }
  }

  lemma ComponentStays(e: Rel, root: nat, u: nat)
    requires !Connected(e, root, u)
    ensures Component(e - Component(e, root), u) == Component(e, u)
  {
    var rest := e - Component(e, root);
    forall k | k in e
      ensures Connected(e, u, k.src) <==> k in rest && Connected(rest, u, k.src)
    {
      if Connected(e, u, k.src) {
        var p :| IsWeakPath(e, p, u, k.src);
        PathStays(e, root, p, u, k.src);
        if Connected(e, root, k.src) {
          ConnectedSym(e, u, k.src);
          ConnectedTrans(e, root, k.src, u);
        }
      }
      if k in rest && Connected(rest, u, k.src) {
        ConnectedMonotone(rest, e, u, k.src);
      }
    }
  }

  /** Taking one component away leaves the others, each whole. */
  lemma OneComponentLess(e: Rel, root: nat)
    requires Component(e, root) != {}
    ensures Components(e) == Components(e - Component(e, root)) + {Component(e, root)}
    ensures Component(e, root) !in Components(e - Component(e, root))
  {
    hide Connected;
    var c := Component(e, root);
    var rest := e - c;
    forall k <- e
      ensures Component(e, k.src) == if k in rest then Component(rest, k.src) else c
    {
      if k in rest {
        ComponentStays(e, root, k.src);
      } else {
        SameComponent(e, root, k.src);
      }
    }
    var m := Member(c);
    assert Component(e, m.src) == c;
    forall k <- rest
      ensures Component(rest, k.src) != c
    {
      assert m !in Component(rest, k.src);
    }
  }

  // ---- Dependencies that feed each other, and what connects them ----

  ghost function AsDeps(ds: set<Dep>): iset<Dep> {
    iset d | d in ds
  }

  /** Some dependency leads into where `d` starts, and some other out of where it ends. */
  predicate DepFed(ds: set<Dep>, d: Dep) {
    (exists i <- ds :: i.to == d.from) && (exists o <- ds :: o.from == d.to)
  }

  /** Dependencies out of `all` that feed each other. */
  ghost predicate FedWithin(ds: set<Dep>, all: iset<Dep>) {
    && (forall d <- ds :: d in all)
    && (forall d {:trigger DepFed(ds, d)} :: d in ds ==> DepFed(ds, d))
  }

  /** The most dependencies out of `all` that feed each other. */
  ghost predicate IsCore(core: set<Dep>, all: iset<Dep>) {
    FedWithin(core, all) && forall ds: set<Dep> :: FedWithin(ds, all) ==> ds <= core
  }

  lemma CoreUnique(a: set<Dep>, b: set<Dep>, all: iset<Dep>)
    requires IsCore(a, all) && IsCore(b, all)
    ensures a == b
  {
  }

  predicate Joined(ds: set<Dep>, c: Channel, d: Channel) {
    Dep(c, d) in ds || Dep(d, c) in ds
  }

  /** Channels that lead from `c` to `d` along dependencies in either direction. */
  predicate IsDepPath(ds: set<Dep>, cs: seq<Channel>, c: Channel, d: Channel) {
    && |cs| > 0 && cs[0] == c && cs[|cs| - 1] == d
    && forall i :: 1 <= i < |cs| ==> Joined(ds, cs[i - 1], cs[i])
  }

  ghost predicate Related(ds: set<Dep>, c: Channel, d: Channel) {
    exists cs :: IsDepPath(ds, cs, c, d)
  }

  /** The dependencies connected to the channel `c`. */
  ghost function DepPart(ds: set<Dep>, c: Channel): set<Dep> {
    set d <- ds | Related(ds, c, d.from)
  }

  /** The disconnected parts of a set of dependencies. */
  ghost function DepParts(ds: set<Dep>): set<set<Dep>> {
    set d <- ds :: DepPart(ds, d.from)
  }

  // ---- From vertices to channels ----

  lemma LinkHasDep(g: GraphView, e: Rel, k: Link)
    requires Inv(g) && e <= RelOf(g) && k in e
    ensures k.src < |g.vertices| && k.dst < |g.vertices| && DepOf(g.vertices, k) in Deps(g.vertices, e)
  {
    RelInRange(g);
  }

  lemma {:induction false} PathHasDeps(g: GraphView, e: Rel, p: seq<nat>, u: nat, v: nat)
    requires Inv(g) && e <= RelOf(g) && IsWeakPath(e, p, u, v) && u < |g.vertices|
    ensures v < |g.vertices| && Related(Deps(g.vertices, e), g.vertices[u].conn, g.vertices[v].conn)
    decreases |p|
  {
    hide Inv, Deps;
    var ds := Deps(g.vertices, e);
    if |p| == 1 {
      assert IsDepPath(ds, [g.vertices[u].conn], g.vertices[u].conn, g.vertices[v].conn);
    } else {
      assert Adjacent(e, p[0], p[1]);
      LinkHasDep(g, e, if Link(p[0], p[1]) in e then Link(p[0], p[1]) else Link(p[1], p[0]));
      assert IsWeakPath(e, p[1..], p[1], v);
      PathHasDeps(g, e, p[1..], p[1], v);
      var cs :| IsDepPath(ds, cs, g.vertices[p[1]].conn, g.vertices[v].conn);
      var ds' := [g.vertices[u].conn] + cs;
      forall i | 1 <= i < |ds'|
        ensures Joined(ds, ds'[i - 1], ds'[i])
      {
        assert i > 1 ==> Joined(ds, cs[i - 2], cs[i - 1]);
      }
      assert IsDepPath(ds, ds', g.vertices[u].conn, g.vertices[v].conn);
    }
  }

  /** The vertex at the other end of a dependency of the channel of `u`. */
  lemma JoinedVertex(g: GraphView, e: Rel, u: nat, c: Channel) returns (w: nat)
    requires Inv(g) && e <= RelOf(g) && u < |g.vertices| && Joined(Deps(g.vertices, e), g.vertices[u].conn, c)
    ensures w < |g.vertices| && g.vertices[w].conn == c && Adjacent(e, u, w)
  {
    hide Inv;
    var ds, b := Deps(g.vertices, e), g.vertices[u].conn;
    var d := if Dep(b, c) in ds then Dep(b, c) else Dep(c, b);
    var k :| k in e && k.src < |g.vertices| && k.dst < |g.vertices| && DepOf(g.vertices, k) == d;
    if d == Dep(b, c) {
      SameConnSameVertex(g, k.src, u);
      w := k.dst;
    } else {
      SameConnSameVertex(g, k.dst, u);
      w := k.src;
    }
  }

  lemma {:induction false} DepPathHasLinks(g: GraphView, e: Rel, cs: seq<Channel>, u: nat, v: nat)
    requires Inv(g) && e <= RelOf(g) && u < |g.vertices| && v < |g.vertices|
    requires IsDepPath(Deps(g.vertices, e), cs, g.vertices[u].conn, g.vertices[v].conn)
    ensures Connected(e, u, v)
    decreases |cs|
  {
    hide Inv, Deps, Connected;
    var ds := Deps(g.vertices, e);
    if |cs| == 1 {
      SameConnSameVertex(g, u, v);
      ConnectedSelf(e, u);
    } else {
      assert Joined(ds, cs[0], cs[1]);
      var w := JoinedVertex(g, e, u, cs[1]);
      assert IsDepPath(ds, cs[1..], cs[1], g.vertices[v].conn);
      DepPathHasLinks(g, e, cs[1..], w, v);
      ConnectedStep(e, u, w, v);
    }
  }

  /** A component of vertices is a part of the dependencies. */
  lemma ComponentIsPart(g: GraphView, e: Rel, u: nat)
    requires Inv(g) && e <= RelOf(g) && u < |g.vertices|
    ensures DepPart(Deps(g.vertices, e), g.vertices[u].conn) == Deps(g.vertices, Component(e, u))
  {
    hide Inv, Related, Connected;
    var ds, vs := Deps(g.vertices, e), g.vertices;
    RelInRange(g);
    forall k <- e
      ensures k.src < |vs| && k.dst < |vs|
      ensures Related(ds, vs[u].conn, vs[k.src].conn) <==> Connected(e, u, k.src)
    {
      RelatedIsConnected(g, e, u, k.src);
    }
    forall d <- ds
      ensures d in DepPart(ds, vs[u].conn) <==> d in Deps(vs, Component(e, u))
    {
      var k :| k in e && k.src < |vs| && k.dst < |vs| && DepOf(vs, k) == d;
      if m :| m in Component(e, u) && m.src < |vs| && m.dst < |vs| && DepOf(vs, m) == d {
        assert m in e && Related(ds, vs[u].conn, vs[m.src].conn);
      }
    }
  }

  lemma RelatedIsConnected(g: GraphView, e: Rel, u: nat, v: nat)
    requires Inv(g) && e <= RelOf(g) && u < |g.vertices| && v < |g.vertices|
    ensures Related(Deps(g.vertices, e), g.vertices[u].conn, g.vertices[v].conn) <==> Connected(e, u, v)
  {
    hide Inv, Deps;
    if Connected(e, u, v) {
      var p :| IsWeakPath(e, p, u, v);
      PathHasDeps(g, e, p, u, v);
    }
    if cs :| IsDepPath(Deps(g.vertices, e), cs, g.vertices[u].conn, g.vertices[v].conn) {
      DepPathHasLinks(g, e, cs, u, v);
    }
  }

  function DepsOfEach(vs: seq<VertexView>, es: set<Rel>): set<set<Dep>> {
    set e <- es :: Deps(vs, e)
  }

  lemma SameDepsSameArcs(g: GraphView, a: Rel, b: Rel)
    requires Inv(g) && a <= RelOf(g) && b <= RelOf(g) && Deps(g.vertices, a) == Deps(g.vertices, b)
    ensures a <= b
  {
    hide Inv;
    forall k | k in a
      ensures k in b
    {
      LinkHasDep(g, a, k);
      var m :| m in b && m.src < |g.vertices| && m.dst < |g.vertices| && DepOf(g.vertices, m) == DepOf(g.vertices, k);
      SameConnSameVertex(g, k.src, m.src);
      SameConnSameVertex(g, k.dst, m.dst);
    }
  }

  lemma DepsInjective(g: GraphView, a: Rel, b: Rel)
    requires Inv(g) && a <= RelOf(g) && b <= RelOf(g)
    ensures Deps(g.vertices, a) == Deps(g.vertices, b) ==> a == b
  {
    hide Inv, Deps;
    if Deps(g.vertices, a) == Deps(g.vertices, b) {
      SameDepsSameArcs(g, a, b);
      SameDepsSameArcs(g, b, a);
    }
  }

  lemma {:induction false} EachCounted(g: GraphView, es: set<Rel>)
    requires Inv(g) && forall e <- es :: e <= RelOf(g)
    ensures |DepsOfEach(g.vertices, es)| == |es|
    decreases |es|
  {
    hide Inv, Deps;
    if es != {} {
      var e := Member(es);
      var rest := es - {e};
      EachCounted(g, rest);
      assert DepsOfEach(g.vertices, es) == DepsOfEach(g.vertices, rest) + {Deps(g.vertices, e)};
      forall r <- rest
        ensures Deps(g.vertices, r) != Deps(g.vertices, e)
      {
        DepsInjective(g, r, e);
      }
    }
  }

  /** The components of vertices are the parts of the dependencies, one for one. */
  lemma ComponentsAreParts(g: GraphView, e: Rel)
    requires Inv(g) && e <= RelOf(g)
    ensures DepParts(Deps(g.vertices, e)) == DepsOfEach(g.vertices, Components(e))
    ensures |DepParts(Deps(g.vertices, e))| == |Components(e)|
  {
    hide Inv, Component, DepPart;
    var vs, ds := g.vertices, Deps(g.vertices, e);
    RelInRange(g);
    forall k <- e
      ensures k.src < |vs| && k.dst < |vs|
      ensures DepPart(ds, vs[k.src].conn) == Deps(vs, Component(e, k.src)) && Component(e, k.src) <= e
    {
      ComponentIsPart(g, e, k.src);
      ComponentWithin(e, k.src);
    }
    forall d <- ds
      ensures DepPart(ds, d.from) in DepsOfEach(vs, Components(e))
    {
      var k :| k in e && k.src < |vs| && k.dst < |vs| && DepOf(vs, k) == d;
      assert Component(e, k.src) in Components(e);
    }
    forall c <- Components(e)
      ensures Deps(vs, c) in DepParts(ds)
    {
      var k :| k in e && Component(e, k.src) == c;
      assert DepOf(vs, k) in ds;
    }
    EachCounted(g, Components(e));
  }

  // ---- What pruning leaves, in terms of dependencies ----

  lemma DepsFed(g: GraphView, s: Rel, k: Link)
    requires Inv(g) && s <= RelOf(g) && k in s && Fed(s, k)
    ensures k.src < |g.vertices| && k.dst < |g.vertices| && DepFed(Deps(g.vertices, s), DepOf(g.vertices, k))
  {
    hide Inv, Deps;
    var i :| i in s && i.dst == k.src;
    var o :| o in s && o.src == k.dst;
    LinkHasDep(g, s, k);
    LinkHasDep(g, s, i);
    LinkHasDep(g, s, o);
  }

  /** The arcs of the dependencies `ds`. */
  function ArcsOf(g: GraphView, ds: set<Dep>): Rel {
    set k {:trigger k in RelOf(g)} | k in RelOf(g) && k.src < |g.vertices| && k.dst < |g.vertices|
                                     && DepOf(g.vertices, k) in ds
  }

  lemma DepHasLink(g: GraphView, d: Dep) returns (k: Link)
    requires d in DepsOf(g)
    ensures k in RelOf(g) && k.src < |g.vertices| && k.dst < |g.vertices| && DepOf(g.vertices, k) == d
  {
    k :| k in RelOf(g) && k.src < |g.vertices| && k.dst < |g.vertices| && DepOf(g.vertices, k) == d;
  }

  lemma ArcFed(g: GraphView, ds: set<Dep>, k: Link)
    requires Inv(g) && ds <= DepsOf(g) && k in ArcsOf(g, ds) && DepFed(ds, DepOf(g.vertices, k))
    ensures Fed(ArcsOf(g, ds), k)
  {
    hide Inv, DepsOf;
    var i :| i in ds && i.to == DepOf(g.vertices, k).from;
    var o :| o in ds && o.from == DepOf(g.vertices, k).to;
    var ki := DepHasLink(g, i);
    var ko := DepHasLink(g, o);
    SameConnSameVertex(g, ki.dst, k.src);
    SameConnSameVertex(g, ko.src, k.dst);
    FedBy(ArcsOf(g, ds), k, ki, ko);
  }

  lemma ArcsFed(g: GraphView, ds: set<Dep>)
    requires Inv(g) && FedWithin(ds, AsDeps(DepsOf(g)))
    ensures Supported(ArcsOf(g, ds)) && Deps(g.vertices, ArcsOf(g, ds)) == ds
  {
    hide Inv, DepsOf, Fed, DepFed;
    assert ds <= DepsOf(g);
    forall k <- ArcsOf(g, ds)
      ensures Fed(ArcsOf(g, ds), k)
    {
      assert DepFed(ds, DepOf(g.vertices, k));
      ArcFed(g, ds, k);
    }
    forall d <- ds
      ensures d in Deps(g.vertices, ArcsOf(g, ds))
    {
      var k := DepHasLink(g, d);
      assert k in ArcsOf(g, ds);
    }
  }

  /** The dependencies of the greatest supported set of arcs are the core of the dependencies. */
  lemma CoreOfGraph(g: GraphView, s: Rel)
    requires Inv(g) && GreatestSupported(s, RelOf(g))
    ensures IsCore(Deps(g.vertices, s), AsDeps(DepsOf(g)))
    ensures |DepParts(Deps(g.vertices, s))| == |Components(s)|
  {
    hide Inv, Fed, DepFed, DepParts, Components;
    var vs := g.vertices;
    var core := Deps(vs, s);
    forall d | d in core
      ensures DepFed(core, d)
    {
      var k :| k in s && k.src < |vs| && k.dst < |vs| && DepOf(vs, k) == d;
      assert Fed(s, k);
      DepsFed(g, s, k);
    }
    forall ds: set<Dep> | FedWithin(ds, AsDeps(DepsOf(g)))
      ensures ds <= core
    {
      ArcsFed(g, ds);
      assert ArcsOf(g, ds) <= s;
    }
    ComponentsAreParts(g, s);
  }
}
