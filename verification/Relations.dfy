/** Finite directed relations: walks, cycles and supported arc sets. */
module ArcRelations {

  datatype Link = Link(src: nat, dst: nat)

  type Rel = set<Link>

  predicate HasIn(e: Rel, v: nat) {
    exists a <- e :: a.dst == v
  }

  predicate HasOut(e: Rel, v: nat) {
    exists a <- e :: a.src == v
  }

  /** The source of `a` has an incoming arc and its sink an outgoing one. */
  predicate Fed(e: Rel, a: Link) {
    HasIn(e, a.src) && HasOut(e, a.dst)
  }

  predicate Supported(e: Rel) {
    forall a {:trigger Fed(e, a)} :: a in e ==> Fed(e, a)
  }

  /** The k-th arc of the walk that visits the vertices `p`. */
  function ArcAt(p: seq<nat>, k: nat): Link
    requires k + 1 < |p|
  {
    Link(p[k], p[k + 1])
  }

  predicate IsWalk(e: Rel, p: seq<nat>) {
    |p| > 0 && forall k {:trigger ArcAt(p, k)} :: 0 <= k && k + 1 < |p| ==> ArcAt(p, k) in e
  }

  predicate IsCycle(e: Rel, p: seq<nat>) {
    IsWalk(e, p) && |p| >= 2 && p[0] == p[|p| - 1]
  }

  ghost predicate Cyclic(e: Rel) {
    exists p :: IsCycle(e, p)
  }

  function ArcsAlong(p: seq<nat>): Rel {
    set k {:trigger ArcAt(p, k)} | 0 <= k < |p| - 1 :: ArcAt(p, k)
  }

  lemma ArcAtIsAlong(p: seq<nat>, k: nat)
    requires k + 1 < |p|
    ensures ArcAt(p, k) in ArcsAlong(p)
  {
  }

  lemma WalkStaysIn(e: Rel, p: seq<nat>)
    requires IsWalk(e, p)
    ensures ArcsAlong(p) <= e
  {
  }

  /** The arcs of a cycle support each other, so no pruning step may touch them. */
  lemma CycleIsSupported(e: Rel, p: seq<nat>)
    requires IsCycle(e, p)
    ensures Supported(ArcsAlong(p))
  {
    forall a | a in ArcsAlong(p)
      ensures Fed(ArcsAlong(p), a)
    {
      var k :| 0 <= k < |p| - 1 && a == ArcAt(p, k);
      ArcAtIsFed(e, p, k);
    }
  }

  lemma ArcAtIsFed(e: Rel, p: seq<nat>, k: nat)
    requires IsCycle(e, p) && k + 1 < |p|
    ensures Fed(ArcsAlong(p), ArcAt(p, k))
  {
    var n := |p| - 1;
    var before := if k == 0 then n - 1 else k - 1;
    ArcAtIsAlong(p, before);
    assert ArcAt(p, before).dst == ArcAt(p, k).src;
    var after := if k + 1 == n then 0 else k + 1;
    ArcAtIsAlong(p, after);
    assert ArcAt(p, after).src == ArcAt(p, k).dst;
  }

  lemma Member<T>(s: set<T>) returns (x: T)
    requires s != {}
    ensures x in s
  {
    x :| x in s;
  }

  /** Pigeonhole: a sequence longer than the set it draws from repeats an element. */
  lemma {:induction false} Pigeonhole<T>(p: seq<T>, s: set<T>)
    requires forall x <- p :: x in s
    requires |p| > |s|
    ensures exists i, j :: 0 <= i < j < |p| && p[i] == p[j]
    decreases |p|
  {
    var n := |p| - 1;
    if i :| 0 <= i < n && p[i] == p[n] {
    } else {
      forall x | x in p[..n]
        ensures x in s - {p[n]}
      {
      }
      assert p[n] in s;
      Pigeonhole(p[..n], s - {p[n]});
      var i, j :| 0 <= i < j < n && p[..n][i] == p[..n][j];
      assert p[i] == p[j];
    }
  }

  function Sources(e: Rel): set<nat> {
    set a <- e :: a.src
  }

  /** In a supported set every walk can be continued, to any length. */
  lemma {:induction false} LongWalk(e: Rel, v: nat, n: nat) returns (p: seq<nat>)
    requires Supported(e) && HasOut(e, v)
    ensures IsWalk(e, p) && |p| == n + 1 && p[0] == v
    ensures forall x <- p :: x in Sources(e)
    decreases n
  {
    var a :| a in e && a.src == v;
    p := [v];
    if n > 0 {
      assert Fed(e, a);
      var q := LongWalk(e, a.dst, n - 1);
      p := [v] + q;
      forall k | 0 <= k && k + 1 < |p|
        ensures ArcAt(p, k) in e
      {
        assert k == 0 || ArcAt(p, k) == ArcAt(q, k - 1);
      }
    }
  }

  /** A nonempty supported set contains a cycle: a long enough walk repeats a vertex. */
  lemma SupportedHasCycle(e: Rel)
    requires Supported(e) && e != {}
    ensures Cyclic(e)
  {
    var a :| a in e;
    var p := LongWalk(e, a.src, |Sources(e)|);
    Pigeonhole(p, Sources(e));
    var i, j :| 0 <= i < j < |p| && p[i] == p[j];
    var q := p[i..j + 1];
    forall k | 0 <= k && k + 1 < |q|
      ensures ArcAt(q, k) in e
    {
      assert ArcAt(q, k) == ArcAt(p, i + k);
    }
    assert IsCycle(e, q);
  }

  lemma CyclicMonotone(e: Rel, f: Rel)
    requires e <= f && Cyclic(e)
    ensures Cyclic(f)
  {
    var p :| IsCycle(e, p);
    assert IsCycle(f, p);
  }

  /** What pruning must reach: supported, and containing every supported subset of `e`. */
  ghost predicate GreatestSupported(s: Rel, e: Rel) {
    s <= e && Supported(s) && forall t: Rel :: t <= e && Supported(t) ==> t <= s
  }

  lemma GreatestSupportedUnique(s: Rel, t: Rel, e: Rel)
    requires GreatestSupported(s, e) && GreatestSupported(t, e)
    ensures s == t
  {
    assert s <= t && t <= s;
  }

  /** Exactness: the greatest supported subset is empty if and only if there is no cycle. */
  lemma VerdictExact(s: Rel, e: Rel)
    requires GreatestSupported(s, e)
    ensures s == {} <==> !Cyclic(e)
  {
    if s != {} {
      SupportedHasCycle(s);
      CyclicMonotone(s, e);
    }
    if Cyclic(e) {
      var p :| IsCycle(e, p);
      CycleIsSupported(e, p);
      WalkStaysIn(e, p);
      ArcAtIsAlong(p, 0);
    }
  }
}
