/** The relaxation and back-walk of CLDijkstraFindDistancesAndRoutes for one source vertex. The work
    list is popped in id order and never sorted by distance. */
module Relaxation {
  import opened ArcRelations
  import opened GraphViews

  const INFINITY := 0xffff

  /** A walk whose vertices, the last one excepted, have ascending ids. */
  predicate Ascending(e: Rel, p: seq<nat>, from: nat, to: nat) {
    && IsWalk(e, p) && p[0] == from && p[|p| - 1] == to
    && forall k :: 0 <= k && k + 2 < |p| ==> p[k] < p[k + 1]
  }

  /** All vertices but the last are below `bound`. */
  predicate Below(p: seq<nat>, bound: nat) {
    forall k :: 0 <= k < |p| - 1 ==> p[k] < bound
  }

  ghost predicate Reached(e: Rel, source: nat, bound: nat, v: nat, d: int) {
    exists p :: Ascending(e, p, source, v) && Below(p, bound) && |p| == d + 1
  }

  lemma AscendingPrefix(e: Rel, p: seq<nat>, from: nat, to: nat)
    requires Ascending(e, p, from, to) && |p| >= 2
    ensures var q := p[..|p| - 1]; var u := p[|p| - 2];
            Ascending(e, q, from, u) && Below(q, u) && Link(u, to) in e
  {
    var q := p[..|p| - 1];
    forall k | 0 <= k && k + 1 < |q| ensures ArcAt(q, k) in e {
      assert ArcAt(q, k) == ArcAt(p, k);
    }
    assert ArcAt(p, |p| - 2) in e;
    BelowLast(p, |p| - 2);
  }

  lemma {:induction false} BelowLast(p: seq<nat>, m: nat)
    requires m + 1 < |p| && forall k :: 0 <= k && k + 2 < |p| ==> p[k] < p[k + 1]
    ensures forall k :: 0 <= k < m ==> p[k] < p[m]
  {
    if m > 0 {
      BelowLast(p, m - 1);
    }
  }

  lemma AscendingExtends(e: Rel, p: seq<nat>, from: nat, u: nat, v: nat)
    requires Ascending(e, p, from, u) && Below(p, u) && Link(u, v) in e
    ensures Ascending(e, p + [v], from, v) && Below(p + [v], u + 1)
  {
    var q := p + [v];
    forall k | 0 <= k && k + 1 < |q| ensures ArcAt(q, k) in e {
      assert k + 1 < |p| ==> ArcAt(q, k) == ArcAt(p, k);
    }
  }

  // ---- The invariant of the relaxation ----

  /** A distance within a bound, or as large as distances get. */
  predicate AtMost(d: int, bound: int) {
    d <= bound || d == INFINITY <= bound
  }

  /** Predecessors are real: every finite vertex but the source was reached over an arc from a vertex
      that is nearer by at least one, even if that vertex's distance has dropped since. */
  ghost predicate Chained(e: Rel, live: set<nat>, source: nat, dist: seq<int>, prev: seq<nat>) {
    && LiveOk(e, live, |dist|) && |prev| == |dist| && source in live && dist[source] == 0
    && forall v {:trigger prev[v]} :: v in live && v != source && dist[v] < INFINITY ==>
         prev[v] in live && Link(prev[v], v) in e && 0 <= dist[prev[v]] < dist[v]
  }

  /** Distances are exact for the ascending walks whose vertices, the last excepted, are below
      `bound`. */
  ghost predicate ExactBelow(e: Rel, live: set<nat>, source: nat, dist: seq<int>, bound: nat) {
    && LiveOk(e, live, |dist|)
    && (forall v {:trigger Reached(e, source, bound, v, dist[v])} :: v in live && dist[v] < INFINITY ==>
          Reached(e, source, bound, v, dist[v]))
    && (forall p, v {:trigger Ascending(e, p, source, v)} ::
          v in live && Ascending(e, p, source, v) && Below(p, bound) ==>
          AtMost(dist[v], |p| - 1))
  }

  /** The same while the arcs out of `u` are being relaxed, those into `done` already are. */
  ghost predicate ExactDuring(e: Rel, live: set<nat>, source: nat, dist: seq<int>, u: nat, done: set<nat>) {
    && LiveOk(e, live, |dist|)
    && (forall v {:trigger Reached(e, source, u + 1, v, dist[v])} :: v in live && dist[v] < INFINITY ==>
          Reached(e, source, u + 1, v, dist[v]))
    && u in live
    && (dist[u] < INFINITY ==> Reached(e, source, u, u, dist[u]))
    && (forall p, v {:trigger Ascending(e, p, source, v)} ::
          v in live && Ascending(e, p, source, v) && Below(p, u + 1)
          && (|p| >= 2 && p[|p| - 2] == u ==> v in done) ==>
            AtMost(dist[v], |p| - 1))
  }

  predicate InRange(dist: seq<int>) {
    forall v :: 0 <= v < |dist| ==> 0 <= dist[v] <= INFINITY
  }

  /** `live` are the vertices that have an arc. */
  predicate LiveOk(e: Rel, live: set<nat>, n: nat) {
    (forall k <- e :: k.src in live && k.dst in live) && forall v <- live :: v < n
  }

  lemma ReachedHigher(e: Rel, source: nat, b: nat, c: nat, v: nat, d: int)
    requires Reached(e, source, b, v, d) && b <= c
    ensures Reached(e, source, c, v, d)
  {
    var p :| Ascending(e, p, source, v) && Below(p, b) && |p| == d + 1;
    assert Below(p, c);
  }

  /** Nothing changes across vertices without arcs out. */
  lemma SkipTo(e: Rel, live: set<nat>, source: nat, dist: seq<int>, b: nat, c: nat)
    requires ExactBelow(e, live, source, dist, b) && b <= c && forall u :: b <= u < c ==> !HasOut(e, u)
    ensures ExactBelow(e, live, source, dist, c)
  {
    forall v | v in live && dist[v] < INFINITY
      ensures Reached(e, source, c, v, dist[v])
    {
      ReachedHigher(e, source, b, c, v, dist[v]);
    }
    forall p, v | v in live && Ascending(e, p, source, v) && Below(p, c)
      ensures Below(p, b)
    {
      forall k | 0 <= k < |p| - 1 ensures p[k] < b {
        assert ArcAt(p, k) in e;
        assert HasOut(e, p[k]);
      }
    }
  }

  lemma BeginVertex(e: Rel, live: set<nat>, source: nat, dist: seq<int>, u: nat)
    requires ExactBelow(e, live, source, dist, u) && u in live
    ensures ExactDuring(e, live, source, dist, u, {})
  {
    forall v | v in live && dist[v] < INFINITY
      ensures Reached(e, source, u + 1, v, dist[v])
    {
      ReachedHigher(e, source, u, u + 1, v, dist[v]);
    }
    forall p, v | v in live && Ascending(e, p, source, v) && Below(p, u + 1)
                  && (|p| >= 2 ==> p[|p| - 2] != u)
      ensures Below(p, u)
    {
      if |p| >= 2 {
        BelowLast(p, |p| - 2);
      }
    }
  }

  /** What one relaxation does to the distances. */
  function Relaxed(dist: seq<int>, u: nat, v: nat): seq<int>
    requires u < |dist| && v < |dist|
  {
    if dist[u] + 1 < dist[v] then dist[v := dist[u] + 1] else dist
  }

  lemma RelaxExact(e: Rel, live: set<nat>, source: nat, dist: seq<int>, u: nat, done: set<nat>, v: nat)
    requires ExactDuring(e, live, source, dist, u, done) && InRange(dist)
    requires v < |dist| && u != v && Link(u, v) in e
    ensures ExactDuring(e, live, source, Relaxed(dist, u, v), u, done + {v}) && InRange(Relaxed(dist, u, v))
  {
    var next := Relaxed(dist, u, v);
    forall w | w in live && next[w] < INFINITY
      ensures Reached(e, source, u + 1, w, next[w])
    {
      if w == v && next != dist {
        var p :| Ascending(e, p, source, u) && Below(p, u) && |p| == dist[u] + 1;
        AscendingExtends(e, p, source, u, v);
        assert |p + [v]| == next[v] + 1;
      }
    }
    forall p, w | w in live && Ascending(e, p, source, w) && Below(p, u + 1)
                  && (|p| >= 2 && p[|p| - 2] == u ==> w in done + {v})
      ensures AtMost(next[w], |p| - 1)
    {
      if |p| >= 2 && p[|p| - 2] == u && w == v {
        AscendingPrefix(e, p, source, w);
        var q := p[..|p| - 1];
        assert Ascending(e, q, source, u) && Below(q, u + 1);
        assert |q| >= 2 ==> q[|q| - 2] != u by {
          if |q| >= 2 {
            assert q[|q| - 2] < u;
          }
        }
      }
    }
  }

  lemma EndVertex(e: Rel, live: set<nat>, source: nat, dist: seq<int>, u: nat, done: set<nat>)
    requires ExactDuring(e, live, source, dist, u, done)
    requires forall k <- e :: k.src == u ==> k.dst in done
    ensures ExactBelow(e, live, source, dist, u + 1)
  {
    forall p, v | v in live && Ascending(e, p, source, v) && Below(p, u + 1)
      ensures AtMost(dist[v], |p| - 1)
    {
      if |p| >= 2 && p[|p| - 2] == u {
        AscendingPrefix(e, p, source, v);
      }
    }
  }

  lemma RelaxChained(e: Rel, live: set<nat>, source: nat, dist: seq<int>, prev: seq<nat>, u: nat, v: nat)
    requires Chained(e, live, source, dist, prev) && InRange(dist) && u < |dist| && v < |dist| && u != v
    requires Link(u, v) in e
    ensures Chained(e, live, source, Relaxed(dist, u, v), if dist[u] + 1 < dist[v] then prev[v := u] else prev)
  {
  }

  lemma BelowShort(p: seq<nat>, bound: nat)
    requires |p| > 0 && Below(p, bound)
    ensures |p| == 1 || bound > 0
  {
    if |p| > 1 {
      assert p[0] < bound;
    }
  }

  lemma BeginSource(e: Rel, live: set<nat>, source: nat, dist: seq<int>, prev: seq<nat>)
    requires LiveOk(e, live, |dist|) && source in live && |prev| == |dist|
    requires dist[source] == 0 && forall v <- live :: v != source ==> dist[v] == INFINITY
    ensures ExactBelow(e, live, source, dist, 0) && Chained(e, live, source, dist, prev)
  {
    assert Ascending(e, [source], source, source) && Below([source], 0) && |[source]| == dist[source] + 1;
    forall p, v | v in live && Ascending(e, p, source, v) && Below(p, 0)
      ensures AtMost(dist[v], |p| - 1)
    {
      BelowShort(p, 0);
    }
  }

  // ---- The loops ----

  lemma LiveIsOk(g: GraphView)
    requires Inv(g)
    ensures LiveOk(RelOf(g), Live(g), |g.vertices|)
    ensures forall v: nat :: v < |g.vertices| ==> (v in Live(g) <==> g.vertices[v].refCount != 0)
    ensures forall v: nat :: v < |g.vertices| && v !in Live(g) ==> !HasOut(RelOf(g), v)
  {
    forall v: nat | v < |g.vertices| ensures v in Live(g) <==> g.vertices[v].refCount != 0 {
      VertexIsOk(g, v);
    }
    forall k | k in RelOf(g) ensures k.src in Live(g) && k.dst in Live(g) {
      assert KeyOk(g, k);
      ArcIsOk(g, g.arcByKey[k].id);
      InuseMeansArc(g, k.src);
      InuseMeansArc(g, k.dst);
    }
    forall v: nat | v < |g.vertices| && v !in Live(g) ensures !HasOut(RelOf(g), v) {
      InuseMeansArc(g, v);
    }
  }

  /** What the inner loop does with the first `i` slots of a vertex. */
  function SlotSinks(g: GraphView, u: nat, i: nat): set<nat>
    requires u < |g.vertices| && i <= |g.vertices[u].outbound|
  {
    set c | 0 <= c < i && g.vertices[u].outbound[c] in g.arcs :: g.arcs[g.vertices[u].outbound[c]].sink
  }

  lemma AllSinks(g: GraphView, u: nat)
    requires Inv(g) && u < |g.vertices|
    ensures forall k <- RelOf(g) :: k.src == u ==> k.dst in SlotSinks(g, u, |g.vertices[u].outbound|)
  {
    VertexIsOk(g, u);
    forall k | k in RelOf(g) && k.src == u
      ensures k.dst in SlotSinks(g, u, |g.vertices[u].outbound|)
    {
      assert KeyOk(g, k);
      var id := g.arcByKey[k].id;
      assert id in OutIds(g, u);
      var c :| 0 <= c < |g.vertices[u].outbound| && g.vertices[u].outbound[c] == id;
    }
  }

  lemma SlotArc(g: GraphView, u: nat, c: nat)
    requires Inv(g) && u < |g.vertices| && c < |g.vertices[u].outbound|
    ensures var id := g.vertices[u].outbound[c];
            && (id in g.arcs <==> id >= 0)
            && (id in g.arcs ==>
                  g.arcs[id].sink < |g.vertices| && g.arcs[id].sink != u && Link(u, g.arcs[id].sink) in RelOf(g))
            && (if id in g.arcs then SlotSinks(g, u, c + 1) == SlotSinks(g, u, c) + {g.arcs[id].sink}
                else SlotSinks(g, u, c + 1) == SlotSinks(g, u, c))
  {
    VertexIsOk(g, u);
    var id := g.vertices[u].outbound[c];
    if id in g.arcs {
      ArcIsOk(g, id);
    }
  }

  /** Relaxes the arcs out of one vertex, slot by slot. */
  method RelaxVertex(g: GraphView, source: nat, u: nat, dist: array<int>, prev: array<nat>)
    requires Inv(g) && u in Live(g) && dist.Length == prev.Length == |g.vertices|
    requires ExactBelow(RelOf(g), Live(g), source, dist[..], u) && InRange(dist[..])
    requires Chained(RelOf(g), Live(g), source, dist[..], prev[..])
    modifies dist, prev
    ensures ExactBelow(RelOf(g), Live(g), source, dist[..], u + 1) && InRange(dist[..])
    ensures Chained(RelOf(g), Live(g), source, dist[..], prev[..])
  {
    hide Inv, ExactBelow, ExactDuring, Chained, SlotSinks, Live;
    ghost var e, live := RelOf(g), Live(g);
    BeginVertex(e, live, source, dist[..], u);
    LiveBelow(g, u);
    NoSinks(g, u);
    var c := 0;
    while c < |g.vertices[u].outbound|
      invariant 0 <= c <= |g.vertices[u].outbound|
      invariant ExactDuring(e, live, source, dist[..], u, SlotSinks(g, u, c)) && InRange(dist[..])
      invariant Chained(e, live, source, dist[..], prev[..])
    {
      SlotArc(g, u, c);
      var arcId := g.vertices[u].outbound[c];
      if arcId >= 0 && arcId in g.arcs {
        var j := g.arcs[arcId].sink;
        RelaxExact(e, live, source, dist[..], u, SlotSinks(g, u, c), j);
        RelaxChained(e, live, source, dist[..], prev[..], u, j);
        ghost var next := Relaxed(dist[..], u, j);
        ghost var nextPrev := if dist[u] + 1 < dist[j] then prev[..][j := u] else prev[..];
        var d := dist[u] + 1;
        if d < dist[j] {
          dist[j] := d;
          prev[j] := u;
        }
        assert dist[..] == next && prev[..] == nextPrev;
      }
      c := c + 1;
    }
    AllSinks(g, u);
    EndVertex(e, live, source, dist[..], u, SlotSinks(g, u, c));
  }

  lemma NoSinks(g: GraphView, u: nat)
    requires u < |g.vertices|
    ensures SlotSinks(g, u, 0) == {}
  {
  }

  lemma LiveBelow(g: GraphView, u: nat)
    requires u in Live(g)
    ensures u < |g.vertices|
  {
  }

  /** The work list: the live vertices not yet popped, in ascending order. */
  predicate Sorted(todo: seq<nat>) {
    forall i, j :: 0 <= i < j < |todo| ==> todo[i] < todo[j]
  }

  ghost predicate WorkList(todo: seq<nat>, live: set<nat>, bound: nat) {
    && Sorted(todo)
    && (forall v <- todo :: v in live && v >= bound)
    && (forall v <- live :: v >= bound ==> v in todo)
  }

  lemma PopWork(todo: seq<nat>, live: set<nat>, bound: nat)
    requires WorkList(todo, live, bound) && todo != []
    ensures todo[0] in live && bound <= todo[0] && WorkList(todo[1..], live, todo[0] + 1)
    ensures forall v <- live :: v < bound || v >= todo[0]
  {
    assert todo[0] in todo;
    forall v | v in live && v >= todo[0] + 1
      ensures v in todo[1..]
    {
      assert v in todo;
      var i :| 0 <= i < |todo| && todo[i] == v;
      assert todo[1..][i - 1] == v;
    }
    forall v | v in todo[1..]
      ensures v in live && v >= todo[0] + 1
    {
      var i :| 0 <= i < |todo| - 1 && todo[1..][i] == v;
      assert todo[i + 1] == v;
    }
    forall v | v in live && v >= bound
      ensures v >= todo[0]
    {
      assert v in todo;
      var i :| 0 <= i < |todo| && todo[i] == v;
    }
  }

  /** `hop` is a first step from `source` towards `v` on a walk of at most `d` arcs. */
  ghost predicate LeadsOn(e: Rel, source: nat, v: nat, hop: nat, d: int) {
    exists p :: IsWalk(e, p) && |p| >= 2 && p[0] == source && p[1] == hop && p[|p| - 1] == v && |p| - 1 <= d
  }

  lemma WalkBack(e: Rel, p: seq<nat>, u: nat)
    requires IsWalk(e, p) && Link(u, p[0]) in e
    ensures IsWalk(e, [u] + p)
  {
    var q := [u] + p;
    forall k | 0 <= k && k + 1 < |q| ensures ArcAt(q, k) in e {
      assert k > 0 ==> ArcAt(q, k) == ArcAt(p, k - 1);
    }
  }

  /** The back-walk along the predecessors terminates, and its last vertex before the source is a true
      out-neighbor of the source. */
  method NextHop(e: Rel, ghost live: set<nat>, source: nat, v: nat, dist: array<int>, prev: array<nat>)
    returns (next: nat)
    requires Chained(e, live, source, dist[..], prev[..]) && InRange(dist[..])
    requires v in live && dist[v] < INFINITY
    ensures if v == source then next == source
            else Link(source, next) in e && LeadsOn(e, source, v, next, dist[v])
  {
    var current := v;
    next := current;
    ghost var p := [v];
    assert dist[v] == dist[..][v];
    while current != source
      invariant current in live && dist[current] < INFINITY
      invariant IsWalk(e, p) && p[0] == current && p[|p| - 1] == v && |p| - 1 + dist[current] <= dist[v]
      invariant v == source ==> current == v && next == v
      invariant v != source && current == source ==> |p| >= 2 && p[1] == next
      decreases dist[current]
    {
      next := current;
      assert prev[..][current] == prev[current] && dist[..][current] == dist[current];
      WalkBack(e, p, prev[current]);
      p := [prev[current]] + p;
      current := prev[current];
      assert dist[..][current] == dist[current];
    }
    assert dist[..][source] == dist[source];
    if v != source {
      assert ArcAt(p, 0) in e;
    }
  }

  /** The state before the first pop. */
  method InitWork(g: GraphView, source: nat) returns (dist: array<int>, prev: array<nat>, todo: seq<nat>)
    requires Inv(g) && source in Live(g)
    ensures fresh(dist) && fresh(prev) && dist.Length == prev.Length == |g.vertices|
    ensures WorkList(todo, Live(g), 0) && InRange(dist[..])
    ensures ExactBelow(RelOf(g), Live(g), source, dist[..], 0)
    ensures Chained(RelOf(g), Live(g), source, dist[..], prev[..])
  {
    hide Inv, ExactBelow, Chained;
    ghost var live := Live(g);
    var n := |g.vertices|;
    LiveIsOk(g);
    dist := new int[n](_ => 0);
    prev := new nat[n](_ => 0);
    todo := [];
    var j := 0;
    while j < n
      invariant 0 <= j <= n
      invariant forall v :: 0 <= v < n ==> dist[v] == if v < j && v in live then INFINITY else 0
      invariant Sorted(todo) && (forall i :: 0 <= i < |todo| ==> todo[i] in live && todo[i] < j)
      invariant forall v <- live :: v < j ==> v in todo
    {
      if g.vertices[j].refCount != 0 {
        dist[j] := INFINITY;
        todo := todo + [j];
        prev[j] := 0;
      }
      j := j + 1;
    }
    dist[source] := 0;
    prev[source] := source;
    BeginSource(RelOf(g), live, source, dist[..], prev[..]);
  }

  /** Pops and relaxes every vertex of the work list. */
  method RelaxAll(g: GraphView, source: nat, todo: seq<nat>, dist: array<int>, prev: array<nat>)
    requires Inv(g) && source in Live(g) && dist.Length == prev.Length == |g.vertices|
    requires WorkList(todo, Live(g), 0) && InRange(dist[..])
    requires ExactBelow(RelOf(g), Live(g), source, dist[..], 0)
    requires Chained(RelOf(g), Live(g), source, dist[..], prev[..])
    modifies dist, prev
    ensures ExactBelow(RelOf(g), Live(g), source, dist[..], |g.vertices|) && InRange(dist[..])
    ensures Chained(RelOf(g), Live(g), source, dist[..], prev[..])
  {
    hide Inv, ExactBelow, Chained, Live, WorkList;
    ghost var e, live := RelOf(g), Live(g);
    LiveIsOk(g);
    var rest := todo;
    ghost var bound: nat := 0;
    while rest != []
      invariant WorkList(rest, live, bound) && bound <= |g.vertices|
      invariant ExactBelow(e, live, source, dist[..], bound) && InRange(dist[..])
      invariant Chained(e, live, source, dist[..], prev[..])
      decreases |rest|
    {
      PopWork(rest, live, bound);
      var current := rest[0];
      rest := rest[1..];
      LiveBelow(g, current);
      SkipTo(e, live, source, dist[..], bound, current);
      RelaxVertex(g, source, current, dist, prev);
      bound := current + 1;
    }
    NoWorkLeft(live, bound);
    SkipTo(e, live, source, dist[..], bound, |g.vertices|);
  }

  lemma NoWorkLeft(live: set<nat>, bound: nat)
    requires WorkList([], live, bound)
    ensures forall v <- live :: v < bound
  {
  }

  /** Distances, predecessors and next hops from one source. */
  method FindDistances(g: GraphView, source: nat) returns (dist: array<int>, prev: array<nat>, route: array<nat>)
    requires Inv(g) && source in Live(g)
    ensures dist.Length == prev.Length == route.Length == |g.vertices|
    ensures ExactBelow(RelOf(g), Live(g), source, dist[..], |g.vertices|) && InRange(dist[..])
    ensures Chained(RelOf(g), Live(g), source, dist[..], prev[..])
    ensures forall v <- Live(g) :: v < |g.vertices| && (dist[v] < INFINITY ==>
              if v == source then route[v] == source
              else Link(source, route[v]) in RelOf(g) && LeadsOn(RelOf(g), source, v, route[v], dist[v]))
  {
    hide Inv, ExactBelow, Chained, LeadsOn, WorkList;
    var todo;
    dist, prev, todo := InitWork(g, source);
    RelaxAll(g, source, todo, dist, prev);
    LiveIsOk(g);
    route := new nat[|g.vertices|](_ => 0);
    var j := 0;
    while j < |g.vertices|
      invariant 0 <= j <= |g.vertices|
      invariant ExactBelow(RelOf(g), Live(g), source, dist[..], |g.vertices|) && InRange(dist[..])
      invariant Chained(RelOf(g), Live(g), source, dist[..], prev[..])
      invariant forall v <- Live(g) :: v < j && dist[v] < INFINITY ==>
                  if v == source then route[v] == source
                  else Link(source, route[v]) in RelOf(g) && LeadsOn(RelOf(g), source, v, route[v], dist[v])
    {
      if g.vertices[j].refCount != 0 && dist[j] != INFINITY {
        assert dist[..][j] == dist[j];
        route[j] := NextHop(RelOf(g), Live(g), source, j, dist, prev);
      }
      j := j + 1;
    }
  }

  // ---- What the distances are ----

  /** A finite distance is the length of the shortest walk whose vertices, the last one excepted, come
      in ascending id order; the distance is infinite exactly when there is no such walk, or none
      shorter than the largest representable distance. */
  lemma DistancesExact(e: Rel, live: set<nat>, source: nat, dist: seq<int>, v: nat)
    requires ExactBelow(e, live, source, dist, |dist|) && InRange(dist) && v in live
    ensures forall p :: Ascending(e, p, source, v) ==> AtMost(dist[v], |p| - 1)
    ensures dist[v] < INFINITY <==> exists p :: Ascending(e, p, source, v) && |p| - 1 < INFINITY
    ensures dist[v] < INFINITY ==> exists p :: Ascending(e, p, source, v) && |p| - 1 == dist[v]
  {
    forall p | Ascending(e, p, source, v)
      ensures AtMost(dist[v], |p| - 1)
    {
      AllBelow(e, live, p, source, v, |dist|);
    }
    if dist[v] < INFINITY {
      assert Reached(e, source, |dist|, v, dist[v]);
      var p :| Ascending(e, p, source, v) && Below(p, |dist|) && |p| == dist[v] + 1;
      assert Ascending(e, p, source, v) && |p| - 1 == dist[v];
    }
  }

  lemma AllBelow(e: Rel, live: set<nat>, p: seq<nat>, source: nat, v: nat, n: nat)
    requires LiveOk(e, live, n) && Ascending(e, p, source, v)
    ensures Below(p, n)
  {
    forall k | 0 <= k < |p| - 1 ensures p[k] < n {
      assert ArcAt(p, k) in e;
    }
  }

  ghost predicate Shortest(e: Rel, p: seq<nat>, from: nat, to: nat) {
    && IsWalk(e, p) && p[0] == from && p[|p| - 1] == to
    && forall q {:trigger IsWalk(e, q)} :: IsWalk(e, q) && q[0] == from && q[|q| - 1] == to ==> |p| <= |q|
  }

  /** The distance is never below the true one, and it is the true one if and only if some shortest walk
      visits its vertices, the last one excepted, in ascending id order. */
  lemma ShortestExact(e: Rel, live: set<nat>, source: nat, dist: seq<int>, v: nat, p: seq<nat>)
    requires ExactBelow(e, live, source, dist, |dist|) && InRange(dist) && v in live
    requires Shortest(e, p, source, v) && |p| - 1 < INFINITY
    ensures v < |dist| && dist[v] >= |p| - 1
    ensures dist[v] == |p| - 1 <==> exists q :: Ascending(e, q, source, v) && |q| == |p|
  {
    DistancesExact(e, live, source, dist, v);
    if dist[v] < INFINITY {
      var q :| Ascending(e, q, source, v) && |q| - 1 == dist[v];
      assert IsWalk(e, q);
    }
  }

  /** The arcs 0-1, 1-3, 3-2 and 2-0: nothing for the pruning to delete. */
  const SQUARE: Rel := {Link(0, 1), Link(1, 3), Link(3, 2), Link(2, 0)}

  /** So the distances are not always the shortest, not even in a graph that the pruning leaves: in this
      one vertex 0 is three arcs from vertex 1, but its distance stays infinite because vertices 0 and 2
      were popped before they were reached. */
  lemma NotShortest(dist: seq<int>)
    requires |dist| == 4 && InRange(dist) && ExactBelow(SQUARE, {0, 1, 2, 3}, 1, dist, 4)
    ensures Supported(SQUARE) && IsWalk(SQUARE, [1, 3, 2, 0]) && dist[0] == INFINITY
  {
    var w := [1, 3, 2, 0];
    assert ArcAt(w, 0) == Link(1, 3) && ArcAt(w, 1) == Link(3, 2) && ArcAt(w, 2) == Link(2, 0);
    SquareSupported();
    if dist[0] < INFINITY {
      assert Reached(SQUARE, 1, 4, 0, dist[0]);
      var p :| Ascending(SQUARE, p, 1, 0) && Below(p, 4) && |p| == dist[0] + 1;
      NoAscendingWalk(p);
    }
  }

  lemma SquareSupported()
    ensures Supported(SQUARE)
  {
    assert Link(0, 1) in SQUARE && Link(1, 3) in SQUARE && Link(3, 2) in SQUARE && Link(2, 0) in SQUARE;
    assert HasIn(SQUARE, 0) && HasIn(SQUARE, 1) && HasIn(SQUARE, 2) && HasIn(SQUARE, 3);
    assert HasOut(SQUARE, 0) && HasOut(SQUARE, 1) && HasOut(SQUARE, 2) && HasOut(SQUARE, 3);
  }

  lemma LastSteps(p: seq<nat>)
    requires IsWalk(SQUARE, p) && |p| >= 2 && p[|p| - 1] == 0
    ensures p[|p| - 2] == 2 && (|p| >= 3 ==> p[|p| - 3] == 3)
  {
    assert ArcAt(p, |p| - 2) in SQUARE;
    if |p| >= 3 {
      assert ArcAt(p, |p| - 3) in SQUARE;
    }
  }

  lemma NoAscendingWalk(p: seq<nat>)
    requires |p| > 0
    ensures !Ascending(SQUARE, p, 1, 0)
  {
    if |p| >= 2 && p[|p| - 1] == 0 && IsWalk(SQUARE, p) {
      LastSteps(p);
      assert |p| >= 3 ==> p[|p| - 3] > p[|p| - 2];
    }
  }
}
