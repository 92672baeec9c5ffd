/** The channel-dependency graph as a value: what each operation computes, and the
    representation invariant every operation keeps. */
module GraphViews {
  import opened ArcRelations

  /** Identity of a connection record: a device, its egress port and a service channel. */
  datatype Channel = Channel(node: nat, port: nat, sc: nat)

  datatype Arc = Arc(id: nat, source: nat, sink: nat) {
    function Key(): Link { Link(source, sink) }
  }

  datatype VertexView = VertexView(
    conn: Channel,
    refCount: int,
    outbound: seq<int>, outboundInuse: int,
    inbound: seq<int>, inboundInuse: int)

  datatype GraphView = GraphView(
    vertices: seq<VertexView>,
    active: int,
    numArcs: int,
    arcs: map<int, Arc>,
    arcByKey: map<Link, Arc>,
    byConn: map<Channel, nat>)

  /** The dependency relation between vertex ids. */
  function RelOf(g: GraphView): Rel {
    g.arcByKey.Keys
  }

  const EMPTY := GraphView([], 0, 0, map[], map[], map[])

  // ---- Representation invariant ----

  function OutIds(g: GraphView, v: nat): set<int> {
    set id <- g.arcs | g.arcs[id].source == v
  }

  function InIds(g: GraphView, v: nat): set<int> {
    set id <- g.arcs | g.arcs[id].sink == v
  }

  /** `ids` lists each member of `live` exactly once; every other slot is a tombstone. */
  predicate Lists(ids: seq<int>, live: set<int>) {
    && (forall i :: 0 <= i < |ids| ==> ids[i] == -1 || ids[i] in live)
    && (forall id <- live :: 0 <= id && id in ids)
    && (forall i, j :: 0 <= i < j < |ids| && ids[i] == ids[j] ==> ids[i] == -1)
  }

  predicate VertexOk(g: GraphView, v: nat)
    requires v < |g.vertices|
  {
    var x := g.vertices[v];
    && Lists(x.outbound, OutIds(g, v)) && x.outboundInuse == |OutIds(g, v)|
    && Lists(x.inbound, InIds(g, v)) && x.inboundInuse == |InIds(g, v)|
    && x.refCount == x.outboundInuse + x.inboundInuse
  }

  predicate ArcOk(g: GraphView, id: int)
    requires id in g.arcs
  {
    var a := g.arcs[id];
    && a.id == id && a.source < |g.vertices| && a.sink < |g.vertices| && a.source != a.sink
    && a.Key() in g.arcByKey && g.arcByKey[a.Key()] == a
  }

  predicate KeyOk(g: GraphView, k: Link)
    requires k in g.arcByKey
  {
    var a := g.arcByKey[k];
    a.Key() == k && a.id in g.arcs && g.arcs[a.id] == a
  }

  predicate ConnOk(g: GraphView, v: nat)
    requires v < |g.vertices|
  {
    g.vertices[v].conn in g.byConn && g.byConn[g.vertices[v].conn] == v
  }

  predicate NameOk(g: GraphView, c: Channel)
    requires c in g.byConn
  {
    g.byConn[c] < |g.vertices| && g.vertices[g.byConn[c]].conn == c
  }

  ghost predicate ConnsOk(g: GraphView) {
    && (forall v {:trigger ConnOk(g, v)} :: 0 <= v < |g.vertices| ==> ConnOk(g, v))
    && (forall c {:trigger NameOk(g, c)} :: c in g.byConn ==> NameOk(g, c))
  }

  function LiveIn(vs: seq<VertexView>): set<nat> {
    set v | 0 <= v < |vs| && vs[v].refCount > 0
  }

  /** The vertices that still have an arc. */
  function Live(g: GraphView): set<nat> {
    LiveIn(g.vertices)
  }

  ghost predicate Inv(g: GraphView) {
    && ConnsOk(g)
    && (forall id {:trigger ArcOk(g, id)} :: id in g.arcs ==> ArcOk(g, id))
    && (forall k {:trigger KeyOk(g, k)} :: k in g.arcByKey ==> KeyOk(g, k))
    && (forall v {:trigger VertexOk(g, v)} :: 0 <= v < |g.vertices| ==> VertexOk(g, v))
    && g.numArcs == |g.arcs|
    && g.active >= |Live(g)|
  }

  /** The add-only phase: arc ids are 0, 1, .., so the number of arcs is a fresh id, and no
      vertex has been retired yet. */
  ghost predicate Growing(g: GraphView) {
    && (forall id :: id in g.arcs <==> 0 <= id < g.numArcs)
    && g.active == |g.vertices|
  }

  lemma LiveBound(g: GraphView)
    ensures |Live(g)| <= |g.vertices|
  {
    RangeSize(Live(g), |g.vertices|);
  }

  lemma {:induction false} RangeSize(s: set<nat>, n: nat)
    requires forall x <- s :: x < n
    ensures |s| <= n
  {
    if n > 0 {
      RangeSize(s - {n - 1}, n - 1);
    } else {
      assert s == {};
    }
  }

  /** Vertices keep their connections through every arc operation. */
  lemma ConnsKept(g: GraphView, h: GraphView)
    requires ConnsOk(g) && h.byConn == g.byConn && |h.vertices| == |g.vertices|
    requires forall v :: 0 <= v < |g.vertices| ==> h.vertices[v].conn == g.vertices[v].conn
    ensures ConnsOk(h)
  {
    forall v | 0 <= v < |h.vertices| ensures ConnOk(h, v) {
      assert ConnOk(g, v);
    }
    forall c | c in h.byConn ensures NameOk(h, c) {
      assert NameOk(g, c);
    }
  }

  // Reading the invariant one fact at a time.

  lemma ArcIsOk(g: GraphView, id: int)
    requires Inv(g) && id in g.arcs
    ensures ArcOk(g, id)
  {
  }

  lemma VertexIsOk(g: GraphView, v: nat)
    requires Inv(g) && v < |g.vertices|
    ensures VertexOk(g, v) && ConnOk(g, v)
  {
  }

  lemma EmptyOk()
    ensures Inv(EMPTY) && Growing(EMPTY)
  {
    assert Live(EMPTY) == {};
  }

  // ---- AddVertex ----

  function AddVertexView(g: GraphView, c: Channel): (GraphView, nat) {
    if c in g.byConn then (g, g.byConn[c])
    else (g.(vertices := g.vertices + [VertexView(c, 0, [], 0, [], 0)],
             active := g.active + 1,
             byConn := g.byConn[c := |g.vertices|]),
          |g.vertices|)
  }

  lemma AddVertexOk(g: GraphView, c: Channel)
    requires Inv(g)
    ensures var (h, v) := AddVertexView(g, c);
            && Inv(h) && RelOf(h) == RelOf(g) && v < |h.vertices| && h.vertices[v].conn == c
            && g.vertices <= h.vertices
            && (Growing(g) ==> Growing(h))
  {
    var (h, v) := AddVertexView(g, c);
    if c in g.byConn {
      assert NameOk(g, c);
    } else {
      forall u | 0 <= u < |h.vertices| ensures ConnOk(h, u) {
        assert u < |g.vertices| ==> ConnOk(g, u);
      }
      forall d | d in h.byConn ensures NameOk(h, d) {
        assert d != c ==> NameOk(g, d);
      }
      forall id | id in h.arcs ensures ArcOk(h, id) {
        assert ArcOk(g, id);
      }
      forall k | k in h.arcByKey ensures KeyOk(h, k) {
        assert KeyOk(g, k);
      }
      forall u | 0 <= u < |h.vertices| ensures VertexOk(h, u) {
        assert OutIds(h, u) == OutIds(g, u) && InIds(h, u) == InIds(g, u);
        if u < |g.vertices| {
          assert VertexOk(g, u);
        } else {
          assert OutIds(g, u) == {} && InIds(g, u) == {} by {
            forall id | id in g.arcs ensures g.arcs[id].source != u && g.arcs[id].sink != u {
              assert ArcOk(g, id);
            }
          }
        }
      }
      assert Live(h) == Live(g);
      LiveBound(g);
    }
  }

  // ---- AddArc ----

  function WithOut(x: VertexView, id: int): VertexView {
    x.(outbound := x.outbound + [id], outboundInuse := x.outboundInuse + 1, refCount := x.refCount + 1)
  }

  function WithIn(x: VertexView, id: int): VertexView {
    x.(inbound := x.inbound + [id], inboundInuse := x.inboundInuse + 1, refCount := x.refCount + 1)
  }

  predicate Placeable(g: GraphView, a: Arc) {
    a.source < |g.vertices| && a.sink < |g.vertices| && a.source != a.sink
  }

  /** An arc whose id is taken is not filed under it. */
  function InsertArc(g: GraphView, a: Arc): (h: GraphView)
    requires Placeable(g, a)
    ensures |h.vertices| == |g.vertices|
  {
    g.(vertices := g.vertices[a.source := WithOut(g.vertices[a.source], a.id)]
                             [a.sink := WithIn(g.vertices[a.sink], a.id)],
       numArcs := g.numArcs + 1,
       arcs := if a.id in g.arcs then g.arcs else g.arcs[a.id := a],
       arcByKey := g.arcByKey[a.Key() := a])
  }

  /** -1 for a self arc or an unknown vertex, otherwise the id of the arc from source to sink;
      a new arc takes the number of arcs as its id. */
  function AddArcView(g: GraphView, source: nat, sink: nat): (GraphView, int) {
    if source == sink || source >= |g.vertices| || sink >= |g.vertices| then (g, -1)
    else if Link(source, sink) in g.arcByKey then (g, g.arcByKey[Link(source, sink)].id)
    else (InsertArc(g, Arc(|g.arcs|, source, sink)), |g.arcs|)
  }

  lemma ListsAppend(ids: seq<int>, live: set<int>, id: int)
    requires Lists(ids, live) && id !in live && id >= 0
    ensures Lists(ids + [id], live + {id})
  {
  }

  lemma InsertArcIds(g: GraphView, a: Arc, u: nat)
    requires Placeable(g, a) && a.id !in g.arcs
    ensures OutIds(InsertArc(g, a), u) == OutIds(g, u) + if u == a.source then {a.id} else {}
    ensures InIds(InsertArc(g, a), u) == InIds(g, u) + if u == a.sink then {a.id} else {}
    ensures a.id !in OutIds(g, u) && a.id !in InIds(g, u)
  {
  }

  lemma InsertArcVertexOk(g: GraphView, a: Arc, u: nat)
    requires Inv(g) && Placeable(g, a) && a.id !in g.arcs && u < |g.vertices|
    ensures VertexOk(InsertArc(g, a), u)
  {
    assert VertexOk(g, u);
    InsertArcIds(g, a, u);
    if u == a.source {
      ListsAppend(g.vertices[u].outbound, OutIds(g, u), a.id);
    }
    if u == a.sink {
      ListsAppend(g.vertices[u].inbound, InIds(g, u), a.id);
    }
  }

  lemma InsertArcIndexOk(g: GraphView, a: Arc)
    requires Inv(g) && Placeable(g, a) && a.id !in g.arcs && a.Key() !in g.arcByKey
    ensures var h := InsertArc(g, a);
            (forall i <- h.arcs :: ArcOk(h, i)) && (forall k <- h.arcByKey :: KeyOk(h, k))
  {
    var h := InsertArc(g, a);
    forall i | i in h.arcs ensures ArcOk(h, i) {
      if i != a.id {
        assert ArcOk(g, i);
      }
    }
    forall k | k in h.arcByKey ensures KeyOk(h, k) {
      if k != a.Key() {
        assert KeyOk(g, k);
      }
    }
  }

  lemma InsertArcOk(g: GraphView, a: Arc)
    requires Inv(g) && Placeable(g, a) && a.id !in g.arcs && a.Key() !in g.arcByKey
    requires g.active >= |Live(InsertArc(g, a))|
    ensures Inv(InsertArc(g, a))
  {
    var h := InsertArc(g, a);
    ConnsKept(g, h);
    InsertArcIndexOk(g, a);
    forall u | 0 <= u < |h.vertices| ensures VertexOk(h, u) {
      InsertArcVertexOk(g, a, u);
    }
  }

  lemma InsertArcGrows(g: GraphView, a: Arc)
    requires Growing(g) && Placeable(g, a) && a.id == g.numArcs
    ensures Growing(InsertArc(g, a))
  {
  }

  /** Adding an arc keeps the invariant and the add-only phase. */
  lemma AddArcOk(g: GraphView, source: nat, sink: nat)
    requires Inv(g) && Growing(g)
    ensures Inv(AddArcView(g, source, sink).0) && Growing(AddArcView(g, source, sink).0)
  {
    var a := Arc(|g.arcs|, source, sink);
    if Placeable(g, a) && a.Key() !in g.arcByKey {
      InsertArcGrows(g, a);
      LiveBound(InsertArc(g, a));
      InsertArcOk(g, a);
    }
  }

  /** In any graph, adding an arc keeps the invariant if and only if the arc is not new, or the number of
      arcs is a free id and the count of active vertices covers the ends. After a deletion that may fail:
      ids are not given out again in order, and a retired vertex does not become active again. */
  lemma AddArcExact(g: GraphView, source: nat, sink: nat)
    requires Inv(g)
    ensures var a := Arc(|g.arcs|, source, sink); var h := AddArcView(g, source, sink).0;
            Inv(h) <==> !Placeable(g, a) || a.Key() in g.arcByKey || (|g.arcs| !in g.arcs && g.active >= |Live(h)|)
  {
    var a := Arc(|g.arcs|, source, sink);
    if Placeable(g, a) && a.Key() !in g.arcByKey && a.id !in g.arcs && g.active >= |Live(InsertArc(g, a))| {
      InsertArcOk(g, a);
    }
  }

  lemma InsertArcEffect(g: GraphView, a: Arc)
    requires Placeable(g, a)
    ensures RelOf(InsertArc(g, a)) == RelOf(g) + {a.Key()}
    ensures InsertArc(g, a).byConn == g.byConn
    ensures forall v :: 0 <= v < |g.vertices| ==> InsertArc(g, a).vertices[v].conn == g.vertices[v].conn
  {
  }

  /** The relation gains exactly the requested arc, unless the code refuses it with -1. */
  lemma AddArcEffect(g: GraphView, source: nat, sink: nat)
    ensures var (h, id) := AddArcView(g, source, sink);
            && |h.vertices| == |g.vertices| && h.byConn == g.byConn
            && (forall v :: 0 <= v < |g.vertices| ==> h.vertices[v].conn == g.vertices[v].conn)
            && (id == -1 <==> source == sink || source >= |g.vertices| || sink >= |g.vertices|)
            && RelOf(h) == RelOf(g) + if id == -1 then {} else {Link(source, sink)}
  {
    var a := Arc(|g.arcs|, source, sink);
    if Placeable(g, a) && a.Key() !in g.arcByKey {
      InsertArcEffect(g, a);
    }
  }

  // ---- DelArc ----

  /** Tombstone every slot of `ids` that holds `id`. */
  function Erase(ids: seq<int>, id: int): seq<int> {
    seq(|ids|, i requires 0 <= i < |ids| => if ids[i] == id then -1 else ids[i])
  }

  /** How many slots of `ids` hold `id`. */
  function Occurs(ids: seq<int>, id: int): nat {
    if ids == [] then 0
    else Occurs(ids[..|ids| - 1], id) + (if ids[|ids| - 1] == id then 1 else 0)
  }

  lemma {:induction false} OccursNever(ids: seq<int>, id: int)
    requires id !in ids
    ensures Occurs(ids, id) == 0
  {
    if ids != [] {
      OccursNever(ids[..|ids| - 1], id);
    }
  }

  lemma {:induction false} OccursOnce(ids: seq<int>, live: set<int>, id: int)
    requires Lists(ids, live) && id >= 0
    ensures Occurs(ids, id) == if id in ids then 1 else 0
  {
    if ids != [] {
      var front := ids[..|ids| - 1];
      if ids[|ids| - 1] == id {
        forall i | 0 <= i < |front| ensures front[i] != id {
          assert front[i] == ids[i];
        }
        OccursNever(front, id);
      } else {
        var rest := set x <- live | x in front;
        forall i | 0 <= i < |front| ensures front[i] == -1 || front[i] in rest {
          assert front[i] == ids[i];
        }
        OccursOnce(front, rest, id);
        if id in ids {
          var i :| 0 <= i < |ids| && ids[i] == id;
          assert front[i] == id;
        }
      }
    }
  }

  function WithoutOut(x: VertexView, id: int): VertexView {
    x.(outbound := Erase(x.outbound, id),
       outboundInuse := x.outboundInuse - Occurs(x.outbound, id),
       refCount := x.refCount - Occurs(x.outbound, id))
  }

  function WithoutIn(x: VertexView, id: int): VertexView {
    x.(inbound := Erase(x.inbound, id),
       inboundInuse := x.inboundInuse - Occurs(x.inbound, id),
       refCount := x.refCount - Occurs(x.inbound, id))
  }

  function Retired(x: VertexView): nat {
    if x.refCount == 0 then 1 else 0
  }

  /** The graph without the arc `id`; an end that loses its last arc is retired. */
  function DelArcView(g: GraphView, id: int): (h: GraphView)
    ensures |h.vertices| == |g.vertices|
    ensures forall v :: 0 <= v < |g.vertices| ==>
              && |h.vertices[v].inbound| == |g.vertices[v].inbound|
              && |h.vertices[v].outbound| == |g.vertices[v].outbound|
  {
    if id !in g.arcs || g.arcs[id].source >= |g.vertices| || g.arcs[id].sink >= |g.vertices| then g else
    var a := g.arcs[id];
    var source := WithoutOut(g.vertices[a.source], id);
    var vertices := g.vertices[a.source := source];
    var sink := WithoutIn(vertices[a.sink], id);
    g.(vertices := vertices[a.sink := sink],
       active := g.active - Retired(source) - Retired(sink),
       numArcs := g.numArcs - 1,
       arcs := g.arcs - {id},
       arcByKey := g.arcByKey - {a.Key()})
  }

  lemma DelArcFields(g: GraphView, id: int)
    requires id in g.arcs && ArcOk(g, id)
    ensures var a := g.arcs[id]; var h := DelArcView(g, id);
            var source := WithoutOut(g.vertices[a.source], id);
            var sink := WithoutIn(g.vertices[a.sink], id);
            h == GraphView(g.vertices[a.source := source][a.sink := sink],
                           g.active - Retired(source) - Retired(sink), g.numArcs - 1,
                           g.arcs - {id}, g.arcByKey - {a.Key()}, g.byConn)
  {
  }

  lemma ListsErase(ids: seq<int>, live: set<int>, id: int)
    requires Lists(ids, live) && id in live
    ensures Lists(Erase(ids, id), live - {id})
  {
    var e := Erase(ids, id);
    forall x | x in live - {id} ensures x in e {
      var i :| 0 <= i < |ids| && ids[i] == x;
      assert e[i] == x;
    }
  }

  lemma DelArcIds(g: GraphView, id: int, u: nat)
    requires Inv(g) && id in g.arcs
    ensures OutIds(DelArcView(g, id), u) == OutIds(g, u) - {id}
    ensures InIds(DelArcView(g, id), u) == InIds(g, u) - {id}
    ensures id in OutIds(g, u) <==> u == g.arcs[id].source
    ensures id in InIds(g, u) <==> u == g.arcs[id].sink
  {
    assert ArcOk(g, id);
  }

  lemma DelArcVertexOk(g: GraphView, id: int, u: nat)
    requires Inv(g) && id in g.arcs && u < |g.vertices|
    ensures VertexOk(DelArcView(g, id), u)
    ensures DelArcView(g, id).vertices[u].refCount
         == g.vertices[u].refCount - (if u == g.arcs[id].source || u == g.arcs[id].sink then 1 else 0)
  {
    assert VertexOk(g, u) && ArcOk(g, id);
    DelArcIds(g, id, u);
    var x := g.vertices[u];
    if u == g.arcs[id].source {
      ListsErase(x.outbound, OutIds(g, u), id);
      OccursOnce(x.outbound, OutIds(g, u), id);
    } else if u == g.arcs[id].sink {
      ListsErase(x.inbound, InIds(g, u), id);
      OccursOnce(x.inbound, InIds(g, u), id);
    }
  }

  lemma DelArcIndexOk(g: GraphView, id: int)
    requires Inv(g) && id in g.arcs
    ensures var h := DelArcView(g, id);
            (forall i <- h.arcs :: ArcOk(h, i)) && (forall k <- h.arcByKey :: KeyOk(h, k))
  {
    var h := DelArcView(g, id);
    forall i | i in h.arcs ensures ArcOk(h, i) {
      assert ArcOk(g, i) && ArcOk(g, id);
    }
    forall k | k in h.arcByKey ensures KeyOk(h, k) {
      assert KeyOk(g, k) && ArcOk(g, id);
    }
  }

  lemma DelArcRefCounts(g: GraphView, id: int)
    requires Inv(g) && id in g.arcs
    ensures var a := g.arcs[id]; var h := DelArcView(g, id);
            && a.source < |g.vertices| && a.sink < |g.vertices| && a.source != a.sink
            && g.vertices[a.source].refCount > 0 && g.vertices[a.sink].refCount > 0
            && h.vertices[a.source].refCount == g.vertices[a.source].refCount - 1
            && h.vertices[a.sink].refCount == g.vertices[a.sink].refCount - 1
            && h.active == g.active - Retired(h.vertices[a.source]) - Retired(h.vertices[a.sink])
  {
    var a := g.arcs[id];
    assert ArcOk(g, id);
    assert VertexOk(g, a.source) && VertexOk(g, a.sink);
    DelArcIds(g, id, a.source);
    DelArcIds(g, id, a.sink);
    DelArcVertexOk(g, id, a.source);
    DelArcVertexOk(g, id, a.sink);
  }

  lemma DelArcLive(g: GraphView, id: int)
    requires Inv(g) && id in g.arcs
    ensures DelArcView(g, id).active >= |Live(DelArcView(g, id))|
  {
    var h := DelArcView(g, id);
    var a := g.arcs[id];
    DelArcRefCounts(g, id);
    LiveDrops(g.vertices, h.vertices, a.source, a.sink);
  }

  lemma LiveDrops(before: seq<VertexView>, after: seq<VertexView>, u: nat, v: nat)
    requires |after| == |before| && u < |before| && v < |before| && u != v
    requires after == before[u := after[u]][v := after[v]]
    requires before[u].refCount == after[u].refCount + 1 > 0
    requires before[v].refCount == after[v].refCount + 1 > 0
    ensures |LiveIn(after)| + Retired(after[u]) + Retired(after[v]) == |LiveIn(before)|
  {
    var goneU := if after[u].refCount == 0 then {u} else {};
    var goneV := if after[v].refCount == 0 then {v} else {};
    assert LiveIn(before) == LiveIn(after) + goneU + goneV;
  }

  /** Deleting an arc keeps the representation invariant and removes exactly that arc. */
  lemma DelArcOk(g: GraphView, id: int)
    requires Inv(g) && id in g.arcs
    ensures Inv(DelArcView(g, id))
    ensures RelOf(DelArcView(g, id)) == RelOf(g) - {g.arcs[id].Key()}
    ensures g.arcs[id].Key() in RelOf(g)
  {
    var h := DelArcView(g, id);
    assert ArcOk(g, id);
    ConnsKept(g, h);
    DelArcIndexOk(g, id);
    forall u | 0 <= u < |h.vertices| ensures VertexOk(h, u) {
      DelArcVertexOk(g, id, u);
    }
    DelArcLive(g, id);
  }

  // ---- What the counters say about the relation ----

  lemma InuseMeansArc(g: GraphView, v: nat)
    requires Inv(g) && v < |g.vertices|
    ensures g.vertices[v].outboundInuse == 0 <==> !HasOut(RelOf(g), v)
    ensures g.vertices[v].inboundInuse == 0 <==> !HasIn(RelOf(g), v)
    ensures g.vertices[v].refCount == 0 <==> !HasOut(RelOf(g), v) && !HasIn(RelOf(g), v)
  {
    assert VertexOk(g, v);
    if OutIds(g, v) != {} {
      var id := Member(OutIds(g, v));
      assert ArcOk(g, id) && g.arcs[id].Key().src == v;
    }
    if HasOut(RelOf(g), v) {
      var k :| k in g.arcByKey && k.src == v;
      assert KeyOk(g, k) && g.arcByKey[k].id in OutIds(g, v);
    }
    if InIds(g, v) != {} {
      var id := Member(InIds(g, v));
      assert ArcOk(g, id) && g.arcs[id].Key().dst == v;
    }
    if HasIn(RelOf(g), v) {
      var k :| k in g.arcByKey && k.dst == v;
      assert KeyOk(g, k) && g.arcByKey[k].id in InIds(g, v);
    }
  }
}
