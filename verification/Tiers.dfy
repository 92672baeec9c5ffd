/** DetermineSwitchTiers: fat-tree tiers by layered search. The tier of a switch is its hop distance to
    the nearest FI. */
module FatTreeTiers {
  import opened Fabrics

  ghost predicate Linked(f: Fabric, m: nat, n: nat) {
    exists p: Port {:trigger Peer(f, p)} :: p.node == m && Peer(f, p).Some? && Peer(f, p).value.node == n
  }

  /** Some path of `k` links leads from node `n` to an FI. */
  ghost predicate ReachesFi(f: Fabric, n: nat, k: nat)
    decreases k
  {
    if k == 0 then IsNode(f, n, FI)
    else exists m {:trigger ReachesFi(f, m, k - 1)} :: Linked(f, n, m) && ReachesFi(f, m, k - 1)
  }

  /** `t` is the distance of `n` to the nearest FI, or 0 if there is none. */
  ghost predicate TierRight(f: Fabric, n: nat, t: nat) {
    if t == 0 then forall k: nat :: !ReachesFi(f, n, k)
    else ReachesFi(f, n, t) && forall k: nat :: k < t ==> !ReachesFi(f, n, k)
  }

  lemma LinkBack(f: Fabric, p: Port)
    requires FabricOk(f) && p in f.ports && f.ports[p].neighbor.Some?
    ensures p.node in f.nodes && f.ports[p].neighbor.value.node in f.nodes
    ensures Linked(f, p.node, f.ports[p].neighbor.value.node) && Linked(f, f.ports[p].neighbor.value.node, p.node)
  {
    Neighbor(f, p);
    assert Peer(f, p).Some? && Peer(f, f.ports[p].neighbor.value) == Some(p);
  }

  lemma LinkedBack(f: Fabric, m: nat, n: nat)
    requires FabricOk(f) && Linked(f, m, n)
    ensures Linked(f, n, m) && m in f.nodes && n in f.nodes
  {
    var p: Port :| p.node == m && Peer(f, p).Some? && Peer(f, p).value.node == n;
    LinkBack(f, p);
  }

  // ---- What the tiers say ----

  /** Linked switches with tiers differ by at most one tier. */
  lemma LinkedTiers(f: Fabric, m: nat, n: nat, tm: nat, tn: nat)
    requires FabricOk(f) && Linked(f, m, n) && TierRight(f, m, tm) && TierRight(f, n, tn)
    ensures tm > 0 && tn > 0 ==> tm <= tn + 1 && tn <= tm + 1
    ensures tm > 0 && IsNode(f, n, SW) ==> tn > 0
  {
    LinkedBack(f, m, n);
    if tm > 0 {
      assert ReachesFi(f, n, tm + 1);
    }
    if tn > 0 {
      assert ReachesFi(f, m, tn + 1);
    }
  }

  /** A switch of tier 1 is linked to an FI, one of a higher tier to a switch of the tier below. */
  lemma TierBelow(f: Fabric, n: nat, t: nat)
    requires FabricOk(f) && TierRight(f, n, t) && t > 0
    ensures exists m ::
              Linked(f, n, m) && (if t == 1 then IsNode(f, m, FI) else IsNode(f, m, SW) && TierRight(f, m, t - 1))
  {
    var m :| Linked(f, n, m) && ReachesFi(f, m, t - 1);
    LinkedBack(f, n, m);
    forall k: nat | k < t - 1
      ensures !ReachesFi(f, m, k)
    {
      OneFarther(f, n, m, k);
    }
    assert t > 1 ==> !ReachesFi(f, m, 0);
  }

  // ---- The search, layer by layer ----

  type Analysis = map<nat, nat>

  /** Switches within `t` hops of an FI have their distance, and the others 0. */
  ghost predicate LayerRight(f: Fabric, a: Analysis, n: nat, t: nat)
    requires n in a
  {
    if a[n] == 0 then forall k: nat :: k <= t ==> !ReachesFi(f, n, k)
    else a[n] <= t && TierRight(f, n, a[n])
  }

  ghost predicate LayersRight(f: Fabric, a: Analysis, t: nat) {
    forall n <- f.nodes :: n in a && (IsNode(f, n, SW) ==> LayerRight(f, a, n, t))
  }

  lemma OneFarther(f: Fabric, n: nat, m: nat, k: nat)
    ensures Linked(f, n, m) && ReachesFi(f, m, k) ==> ReachesFi(f, n, k + 1)
  {
  }

  /** Nothing is farther than an empty layer. */
  lemma {:induction false} EmptyLayer(f: Fabric, a: Analysis, t: nat, n: nat, k: nat)
    requires FabricOk(f) && LayersRight(f, a, t) && t >= 1 && IsNode(f, n, SW)
    requires forall m <- a :: IsNode(f, m, SW) ==> a[m] != t
    requires a[n] == 0
    ensures !ReachesFi(f, n, k)
    decreases k
  {
    assert LayerRight(f, a, n, t);
    if k > t {
      forall m | Linked(f, n, m)
        ensures !ReachesFi(f, m, k - 1)
      {
        LinkedBack(f, n, m);
        OneFarther(f, n, m, 0);
        OneFarther(f, n, m, a[m]);
        if IsNode(f, m, SW) && a[m] == 0 {
          EmptyLayer(f, a, t, m, k - 1);
        }
      }
    }
  }

  /** All switches linked to FIs, and only those, have been marked. */
  predicate MarkedFrom(f: Fabric, a: Analysis, p: Port) {
    Peer(f, p).Some? && IsNode(f, Peer(f, p).value.node, SW) ==>
      Peer(f, p).value.node in a && a[Peer(f, p).value.node] == 1
  }

  ghost predicate Marks(f: Fabric, a: Analysis) {
    && a.Keys == f.nodes.Keys
    && forall n <- a :: a[n] == 0 || (a[n] == 1 && IsNode(f, n, SW) && ReachesFi(f, n, 1))
  }

  lemma MarksAreLayerOne(f: Fabric, a: Analysis)
    requires FabricOk(f) && Marks(f, a)
    requires forall p: Port {:trigger MarkedFrom(f, a, p)} :: p in f.ports && IsNode(f, p.node, FI) ==>
               MarkedFrom(f, a, p)
    ensures LayersRight(f, a, 1)
  {
    forall n | IsNode(f, n, SW)
      ensures LayerRight(f, a, n, 1)
    {
      if ReachesFi(f, n, 1) {
        var m :| Linked(f, n, m) && ReachesFi(f, m, 0);
        LinkedBack(f, n, m);
        var p: Port :| p.node == m && Peer(f, p).Some? && Peer(f, p).value.node == n;
        assert MarkedFrom(f, a, p);
      }
    }
  }

  /** One round, part done: some nodes without a tier now have tier `t`. */
  ghost predicate InRound(f: Fabric, start: Analysis, a: Analysis, t: nat) {
    && start.Keys == a.Keys == f.nodes.Keys
    && forall n <- a :: a[n] == start[n] || (start[n] == 0 && a[n] == t && (IsNode(f, n, SW) ==> ReachesFi(f, n, t)))
  }

  predicate Spread(f: Fabric, a: Analysis, p: Port) {
    Peer(f, p).Some? ==> Peer(f, p).value.node in a && a[Peer(f, p).value.node] != 0
  }

  predicate SpreadFrom(f: Fabric, a: Analysis, ports: seq<Port>) {
    forall p {:trigger Spread(f, a, p)} :: p in ports ==> Spread(f, a, p)
  }

  /** If switch `n` had tier `t - 1`, all its neighbors have a tier now. */
  predicate Expanded(f: Fabric, l: Lists, start: Analysis, a: Analysis, t: nat, n: nat) {
    n in l.ports && n in start && start[n] == t - 1 ==> SpreadFrom(f, a, l.ports[n])
  }

  /** A switch of tier `t - 1` has passed a tier on to its neighbors. */
  lemma SpreadAlong(f: Fabric, l: Lists, start: Analysis, a: Analysis, t: nat, m: nat, n: nat)
    requires FabricOk(f) && ListsOk(f, l) && Linked(f, m, n) && m in start && start[m] == t - 1
    requires Expanded(f, l, start, a, t, m)
    ensures n in a && a[n] != 0
  {
    LinkedBack(f, m, n);
    var p: Port :| p.node == m && Peer(f, p).Some? && Peer(f, p).value.node == n;
    assert Spread(f, a, p);
  }

  lemma RoundDone(f: Fabric, l: Lists, start: Analysis, a: Analysis, t: nat)
    requires FabricOk(f) && ListsOk(f, l) && t >= 2 && LayersRight(f, start, t - 1) && InRound(f, start, a, t)
    requires forall n <- l.switches :: Expanded(f, l, start, a, t, n)
    ensures LayersRight(f, a, t)
  {
    forall n | IsNode(f, n, SW)
      ensures LayerRight(f, a, n, t)
    {
      assert LayerRight(f, start, n, t - 1);
      if a[n] == 0 && ReachesFi(f, n, t) {
        var m :| Linked(f, n, m) && ReachesFi(f, m, t - 1);
        LinkedBack(f, n, m);
        OneFarther(f, n, m, 0);
        OneFarther(f, n, m, start[m]);
        assert IsNode(f, m, SW) && LayerRight(f, start, m, t - 1);
        SpreadAlong(f, l, start, a, t, m, n);
      }
    }
  }

  ghost function Untiered(a: Analysis): set<nat> {
    set n | n in a && a[n] == 0
  }

  lemma FoundNext(f: Fabric, start: Analysis, a: Analysis, p: Port, t: nat)
    requires FabricOk(f) && t >= 2 && LayersRight(f, start, t - 1) && InRound(f, start, a, t)
    requires Peer(f, p).Some? && IsNode(f, p.node, SW) && a[p.node] == t - 1
    requires Peer(f, p).value.node in a && a[Peer(f, p).value.node] == 0
    ensures var next := a[Peer(f, p).value.node := t];
            InRound(f, start, next, t) && Untiered(next) < Untiered(a)
  {
    LinkBack(f, p);
    var n := Peer(f, p).value.node;
    assert LayerRight(f, start, p.node, t - 1);
    OneFarther(f, n, p.node, t - 1);
    assert n in Untiered(a) && n !in Untiered(a[n := t]);
  }

  lemma MarksStart(f: Fabric, a: Analysis)
    requires a.Keys == f.nodes.Keys && forall n <- a :: a[n] == 0
    ensures Marks(f, a) && MarkedAll(f, a, [], [])
  {
  }

  lemma MarksEnd(f: Fabric, l: Lists, a: Analysis)
    requires FabricOk(f) && ListsOk(f, l) && Marks(f, a) && MarkedAll(f, a, l.fis[..|l.fis|], [])
    ensures a.Keys == f.nodes.Keys && LayersRight(f, a, 1)
  {
    assert l.fis[..|l.fis|] == l.fis;
    MarksAreLayerOne(f, a);
  }

  lemma MarkOk(f: Fabric, a: Analysis, n: nat)
    requires Marks(f, a) && IsNode(f, n, SW) && ReachesFi(f, n, 1)
    ensures Marks(f, a[n := 1])
  {
  }

  /** The ports of `nodes`, and `ports`, have been looked at. */
  ghost predicate MarkedAll(f: Fabric, a: Analysis, nodes: seq<nat>, ports: seq<Port>) {
    forall p: Port {:trigger MarkedFrom(f, a, p)} :: (p in f.ports && p.node in nodes) || p in ports ==>
      MarkedFrom(f, a, p)
  }

  lemma MarkOneMore(f: Fabric, a: Analysis, nodes: seq<nat>, ports: seq<Port>, j: nat)
    requires j < |ports| && MarkedAll(f, a, nodes, ports[..j]) && MarkedFrom(f, a, ports[j])
    ensures MarkedAll(f, a, nodes, ports[..j + 1])
  {
    forall p: Port | (p in f.ports && p.node in nodes) || p in ports[..j + 1]
      ensures MarkedFrom(f, a, p)
    {
      assert p in ports[..j + 1] ==> p in ports[..j] || p == ports[j];
    }
  }

  lemma MarkNode(f: Fabric, l: Lists, a: Analysis, i: nat)
    requires ListsOk(f, l) && i < |l.fis| && l.fis[i] in l.ports && MarkedAll(f, a, l.fis[..i], l.ports[l.fis[i]])
    ensures MarkedAll(f, a, l.fis[..i + 1], [])
  {
    forall p: Port | p in f.ports && p.node in l.fis[..i + 1]
      ensures MarkedFrom(f, a, p)
    {
      assert p.node in l.fis[..i] || p.node == l.fis[i];
    }
  }

  lemma MarkKept(f: Fabric, a: Analysis, n: nat)
    ensures forall nodes, ports {:trigger MarkedAll(f, a[n := 1], nodes, ports)} ::
              MarkedAll(f, a, nodes, ports) ==> MarkedAll(f, a[n := 1], nodes, ports)
  {
    forall nodes, ports | MarkedAll(f, a, nodes, ports)
      ensures MarkedAll(f, a[n := 1], nodes, ports)
    {
      forall p: Port | (p in f.ports && p.node in nodes) || p in ports
        ensures MarkedFrom(f, a[n := 1], p)
      {
        assert MarkedFrom(f, a, p);
      }
    }
  }

  lemma SpreadKept(f: Fabric, l: Lists, start: Analysis, a: Analysis, t: nat, n: nat)
    requires t > 0
    ensures forall m {:trigger Expanded(f, l, start, a[n := t], t, m)} ::
              Expanded(f, l, start, a, t, m) ==> Expanded(f, l, start, a[n := t], t, m)
    ensures forall ports {:trigger SpreadFrom(f, a[n := t], ports)} :: SpreadFrom(f, a, ports) ==>
              SpreadFrom(f, a[n := t], ports)
  {
    forall ports | SpreadFrom(f, a, ports)
      ensures SpreadFrom(f, a[n := t], ports)
    {
      forall p | p in ports
        ensures Spread(f, a[n := t], p)
      {
        assert Spread(f, a, p);
      }
    }
  }

  lemma SpreadNone(f: Fabric, a: Analysis, ports: seq<Port>)
    ensures SpreadFrom(f, a, ports[..0])
  {
  }

  lemma SpreadOneMore(f: Fabric, a: Analysis, ports: seq<Port>, j: nat)
    requires j < |ports| && SpreadFrom(f, a, ports[..j]) && Spread(f, a, ports[j])
    ensures SpreadFrom(f, a, ports[..j + 1])
  {
    forall p | p in ports[..j + 1]
      ensures Spread(f, a, p)
    {
      assert p in ports[..j] || p == ports[j];
    }
  }

  lemma MarkNext(f: Fabric, p: Port)
    requires FabricOk(f) && Peer(f, p).Some?
    ensures Peer(f, p).value.node in f.nodes && (IsNode(f, p.node, FI) ==> ReachesFi(f, Peer(f, p).value.node, 1))
  {
    LinkBack(f, p);
    OneFarther(f, Peer(f, p).value.node, p.node, 0);
  }

  lemma RoundStarts(f: Fabric, l: Lists, a: Analysis, t: nat)
    requires a.Keys == f.nodes.Keys && t >= 2 && LayersRight(f, a, t - 1)
    ensures InRound(f, a, a, t)
    ensures forall n <- a :: IsNode(f, n, SW) ==> a[n] != t
  {
    forall n | n in a && IsNode(f, n, SW)
      ensures a[n] != t
    {
      assert LayerRight(f, a, n, t - 1);
    }
  }

  lemma ExpandedNow(f: Fabric, l: Lists, start: Analysis, a: Analysis, t: nat, n: nat)
    requires InRound(f, start, a, t) && t >= 2
    requires n in l.ports && n in a && (a[n] == t - 1 ==> SpreadFrom(f, a, l.ports[n]))
    ensures Expanded(f, l, start, a, t, n)
  {
  }

  class TierSearch {
    var analysis: Analysis

    /** Every switch gets its distance to the nearest FI. */
    method DetermineSwitchTiers(f: Fabric, l: Lists)
      requires FabricOk(f) && ListsOk(f, l)
      requires analysis.Keys == f.nodes.Keys && forall n <- analysis :: analysis[n] == 0
      modifies this
      ensures analysis.Keys == f.nodes.Keys
      ensures forall n <- analysis :: IsNode(f, n, SW) ==> TierRight(f, n, analysis[n])
    {
      MarkTierOne(f, l);
      var tier := 2;
      var found := true;
      while found
        invariant tier >= 2 && analysis.Keys == f.nodes.Keys && LayersRight(f, analysis, tier - 1)
        invariant !found ==> forall n <- analysis :: IsNode(f, n, SW) ==> analysis[n] != tier - 1
        decreases found, Untiered(analysis)
      {
        found := Round(f, l, tier);
        tier := tier + 1;
      }
      forall n | n in analysis && IsNode(f, n, SW)
        ensures TierRight(f, n, analysis[n])
      {
        assert LayerRight(f, analysis, n, tier - 1);
        if analysis[n] == 0 {
          forall k: nat
            ensures !ReachesFi(f, n, k)
          {
            EmptyLayer(f, analysis, tier - 1, n, k);
          }
        }
      }
    }

    method MarkTierOne(f: Fabric, l: Lists)
      requires FabricOk(f) && ListsOk(f, l)
      requires analysis.Keys == f.nodes.Keys && forall n <- analysis :: analysis[n] == 0
      modifies this
      ensures analysis.Keys == f.nodes.Keys && LayersRight(f, analysis, 1)
    {
      hide FabricOk, Marks, MarkedAll, ReachesFi;
      MarksStart(f, analysis);
      var i := 0;
      while i < |l.fis|
        invariant 0 <= i <= |l.fis| && Marks(f, analysis) && MarkedAll(f, analysis, l.fis[..i], [])
      {
        assert IsNode(f, l.fis[i], FI);
        var ports := l.ports[l.fis[i]];
        var j := 0;
        assert ports[..0] == [];
        while j < |ports|
          invariant 0 <= j <= |ports| && Marks(f, analysis) && MarkedAll(f, analysis, l.fis[..i], ports[..j])
        {
          var p := ports[j];
          if f.ports[p].neighbor.Some? {
            MarkNext(f, p);
          }
          if f.ports[p].neighbor.Some? && f.nodes[f.ports[p].neighbor.value.node].kind == SW {
            MarkKept(f, analysis, f.ports[p].neighbor.value.node);
            MarkOk(f, analysis, f.ports[p].neighbor.value.node);
            analysis := analysis[f.ports[p].neighbor.value.node := 1];
          }
          MarkOneMore(f, analysis, l.fis[..i], ports, j);
          j := j + 1;
        }
        assert ports[..j] == ports;
        MarkNode(f, l, analysis, i);
        i := i + 1;
      }
      MarksEnd(f, l, analysis);
    }

    method Round(f: Fabric, l: Lists, tier: nat) returns (found: bool)
      requires FabricOk(f) && ListsOk(f, l) && tier >= 2 && analysis.Keys == f.nodes.Keys
      requires LayersRight(f, analysis, tier - 1)
      modifies this
      ensures analysis.Keys == f.nodes.Keys && LayersRight(f, analysis, tier)
      ensures found ==> Untiered(analysis) < Untiered(old(analysis))
      ensures !found ==> forall n <- analysis :: IsNode(f, n, SW) ==> analysis[n] != tier
    {
      hide FabricOk, LayersRight, InRound, SpreadFrom, Expanded, Untiered;
      RoundStarts(f, l, analysis, tier);
      found := false;
      ghost var start := analysis;
      var i := 0;
      while i < |l.switches|
        invariant 0 <= i <= |l.switches| && InRound(f, start, analysis, tier) && analysis.Keys == f.nodes.Keys
        invariant forall n <- l.switches[..i] :: Expanded(f, l, start, analysis, tier, n)
        invariant if found then Untiered(analysis) < Untiered(start) else analysis == start
      {
        var n := l.switches[i];
        assert IsNode(f, n, SW);
        if analysis[n] == tier - 1 {
          var ports := l.ports[n];
          SpreadNone(f, analysis, ports);
          var j := 0;
          while j < |ports|
            invariant 0 <= j <= |ports| && InRound(f, start, analysis, tier) && analysis.Keys == f.nodes.Keys
            invariant forall m <- l.switches[..i] :: Expanded(f, l, start, analysis, tier, m)
            invariant SpreadFrom(f, analysis, ports[..j]) && analysis[n] == tier - 1
            invariant if found then Untiered(analysis) < Untiered(start) else analysis == start
          {
            var p := ports[j];
            if f.ports[p].neighbor.Some? {
              LinkBack(f, p);
            }
            if f.ports[p].neighbor.Some? && f.nodes[p.node].kind == SW
               && analysis[f.ports[p].neighbor.value.node] == 0 {
              FoundNext(f, start, analysis, p, tier);
              SpreadKept(f, l, start, analysis, tier, f.ports[p].neighbor.value.node);
              analysis := analysis[f.ports[p].neighbor.value.node := tier];
              found := true;
            }
            SpreadOneMore(f, analysis, ports, j);
            j := j + 1;
          }
          assert ports[..j] == ports;
        }
        ExpandedNow(f, l, start, analysis, tier, n);
        i := i + 1;
      }
      RoundDone(f, l, start, analysis, tier);
    }
  }
}
