/** Points select ports, nodes, IOCs or a system for a report. Compressing a point to a coarser object
    keeps what the compare functions say, unless its list holds something twice. */
module Points {
  import opened Fabrics

  /** Which node each port is on, which system each node is in, which IOU each IOC is on, and the node
      of each IOU. */
  datatype Inventory = Inventory(nodeOf: map<nat, nat>, systemOf: map<nat, nat>, iouOf: map<nat, nat>,
                                 iouNode: map<nat, nat>)

  /** Everything is on or in something known, and a node has at most one IOU. */
  ghost predicate InventoryOk(v: Inventory) {
    && (forall p <- v.nodeOf :: v.nodeOf[p] in v.systemOf)
    && (forall c <- v.iouOf :: v.iouOf[c] in v.iouNode)
    && (forall u <- v.iouNode :: v.iouNode[u] in v.systemOf)
    && (forall u, w | u in v.iouNode && w in v.iouNode && v.iouNode[u] == v.iouNode[w] :: u == w)
  }

  /** What a point selects in the fabric. */
  datatype Selection =
    | NoneSelected
    | OnePort(port: nat) | PortList(ports: seq<nat>)
    | OneNode(node: nat) | NodeList(nodes: seq<nat>)
    | OneIoc(ioc: nat) | IocList(iocs: seq<nat>)
    | OneSystem(system: nat)
    | NodePairs(left: seq<nat>, right: seq<nat>)

  /** Selected objects exist, and lists are not empty. */
  ghost predicate SelectionOk(v: Inventory, s: Selection) {
    match s
    case NoneSelected => true
    case OnePort(p) => p in v.nodeOf
    case PortList(ps) => ps != [] && forall p <- ps :: p in v.nodeOf
    case OneNode(n) => n in v.systemOf
    case NodeList(ns) => ns != [] && forall n <- ns :: n in v.systemOf
    case OneIoc(c) => c in v.iouOf
    case IocList(cs) => cs != [] && forall c <- cs :: c in v.iouOf
    case OneSystem(_) => true
    case NodePairs(l, r) => (forall n <- l :: n in v.systemOf) && (forall n <- r :: n in v.systemOf)
  }

  function IocNode(v: Inventory, c: nat): nat
    requires InventoryOk(v) && c in v.iouOf
  {
    v.iouNode[v.iouOf[c]]
  }

  // ---- The compare functions ----

  /** `expected` says that the point also selects expected nodes, SMs or links. */
  predicate PointValid(s: Selection, expected: bool) {
    s != NoneSelected || expected
  }

  predicate ComparePort(v: Inventory, s: Selection, expected: bool, p: nat)
    requires InventoryOk(v) && SelectionOk(v, s) && p in v.nodeOf
  {
    PointValid(s, expected) ==>
      match s
      case NoneSelected => false
      case OnePort(q) => p == q
      case PortList(ps) => p in ps
      case OneNode(n) => v.nodeOf[p] == n
      case NodeList(ns) => v.nodeOf[p] in ns
      case OneIoc(c) => v.nodeOf[p] == IocNode(v, c)
      case IocList(cs) => exists c <- cs :: v.nodeOf[p] == IocNode(v, c)
      case OneSystem(y) => v.systemOf[v.nodeOf[p]] == y
      case NodePairs(l, r) => v.nodeOf[p] in l || v.nodeOf[p] in r
  }

  predicate CompareNode(v: Inventory, s: Selection, expected: bool, n: nat)
    requires InventoryOk(v) && SelectionOk(v, s) && n in v.systemOf
  {
    PointValid(s, expected) ==>
      match s
      case NoneSelected => false
      case OnePort(q) => n == v.nodeOf[q]
      case PortList(ps) => exists q <- ps :: n == v.nodeOf[q]
      case OneNode(m) => n == m
      case NodeList(ns) => n in ns
      case OneIoc(c) => n == IocNode(v, c)
      case IocList(cs) => exists c <- cs :: n == IocNode(v, c)
      case OneSystem(y) => v.systemOf[n] == y
      case NodePairs(l, r) => n in l || n in r
  }

  predicate CompareSystem(v: Inventory, s: Selection, expected: bool, y: nat)
    requires InventoryOk(v) && SelectionOk(v, s)
  {
    PointValid(s, expected) ==>
      match s
      case NoneSelected => false
      case OnePort(q) => y == v.systemOf[v.nodeOf[q]]
      case PortList(ps) => exists q <- ps :: y == v.systemOf[v.nodeOf[q]]
      case OneNode(m) => y == v.systemOf[m]
      case NodeList(ns) => exists m <- ns :: y == v.systemOf[m]
      case OneIoc(c) => y == v.systemOf[IocNode(v, c)]
      case IocList(cs) => exists c <- cs :: y == v.systemOf[IocNode(v, c)]
      case OneSystem(z) => y == z
      case NodePairs(l, r) => (exists m <- l :: y == v.systemOf[m]) || (exists m <- r :: y == v.systemOf[m])
  }

  predicate CompareIoc(v: Inventory, s: Selection, expected: bool, c: nat)
    requires InventoryOk(v) && SelectionOk(v, s) && c in v.iouOf
  {
    PointValid(s, expected) ==>
      match s
      case OneIoc(d) => c == d
      case IocList(cs) => c in cs
      case _ => CompareNode(v, s, expected, IocNode(v, c))
  }

  /** Two selections that no compare function tells apart. */
  ghost predicate SameMeaning(v: Inventory, s: Selection, t: Selection, expected: bool)
    requires InventoryOk(v) && SelectionOk(v, s) && SelectionOk(v, t)
  {
    && (forall p <- v.nodeOf :: ComparePort(v, s, expected, p) == ComparePort(v, t, expected, p))
    && (forall n <- v.systemOf :: CompareNode(v, s, expected, n) == CompareNode(v, t, expected, n))
    && (forall y :: CompareSystem(v, s, expected, y) == CompareSystem(v, t, expected, y))
    && (forall c <- v.iouOf :: CompareIoc(v, s, expected, c) == CompareIoc(v, t, expected, c))
  }

  /** A pair list selects the ports of the nodes of both lists. */
  lemma PairsSelect(v: Inventory, l: seq<nat>, r: seq<nat>, expected: bool)
    requires InventoryOk(v) && SelectionOk(v, NodePairs(l, r))
    ensures (set p <- v.nodeOf | ComparePort(v, NodePairs(l, r), expected, p))
            == (set n, p | n in l && p in PortsOf(v, n) :: p) + (set n, p | n in r && p in PortsOf(v, n) :: p)
  {
    forall p <- v.nodeOf
      ensures p in PortsOf(v, v.nodeOf[p])
    {
    }
  }

  /** The compare functions agree: a node is selected if and only if one of its ports is, a system if and
      only if one of its nodes is; and an IOC, unless IOCs are listed, if and only if its node is. */
  lemma LevelsAgree(v: Inventory, s: Selection, expected: bool)
    requires InventoryOk(v) && SelectionOk(v, s)
    ensures forall n <- v.systemOf :: PortsOf(v, n) != {} ==>
              (CompareNode(v, s, expected, n) <==> exists p <- PortsOf(v, n) :: ComparePort(v, s, expected, p))
    ensures forall y :: NodesOf(v, y) != {} ==>
              (CompareSystem(v, s, expected, y) <==> exists n <- NodesOf(v, y) :: CompareNode(v, s, expected, n))
    ensures forall c <- v.iouOf :: !s.OneIoc? && !s.IocList? ==>
              (CompareIoc(v, s, expected, c) <==> CompareNode(v, s, expected, v.iouNode[v.iouOf[c]]))
  {
    forall n <- v.systemOf | PortsOf(v, n) != {}
      ensures CompareNode(v, s, expected, n) <==> exists p <- PortsOf(v, n) :: ComparePort(v, s, expected, p)
    {
      NodeByPorts(v, s, expected, n);
    }
    forall y | NodesOf(v, y) != {}
      ensures CompareSystem(v, s, expected, y) <==> exists n <- NodesOf(v, y) :: CompareNode(v, s, expected, n)
    {
      SystemByNodes(v, s, expected, y);
    }
  }

  lemma NodeByPorts(v: Inventory, s: Selection, expected: bool, n: nat)
    requires InventoryOk(v) && SelectionOk(v, s) && n in v.systemOf && PortsOf(v, n) != {}
    ensures CompareNode(v, s, expected, n) <==> exists p <- PortsOf(v, n) :: ComparePort(v, s, expected, p)
  {
    var p :| p in PortsOf(v, n);
    match s {
      case OnePort(q) =>
        if CompareNode(v, s, expected, n) {
          assert q in PortsOf(v, n) && ComparePort(v, s, expected, q);
        }
      case PortList(ps) =>
        if CompareNode(v, s, expected, n) {
          var q :| q in ps && n == v.nodeOf[q];
          assert q in PortsOf(v, n) && ComparePort(v, s, expected, q);
        }
      case _ =>
        assert ComparePort(v, s, expected, p) <==> CompareNode(v, s, expected, n);
    }
  }

  lemma SystemByNodes(v: Inventory, s: Selection, expected: bool, y: nat)
    requires InventoryOk(v) && SelectionOk(v, s) && NodesOf(v, y) != {}
    ensures CompareSystem(v, s, expected, y) <==> exists n <- NodesOf(v, y) :: CompareNode(v, s, expected, n)
  {
    var n :| n in NodesOf(v, y);
    if CompareSystem(v, s, expected, y) {
      var m := match s
        case NoneSelected => n
        case OnePort(q) => v.nodeOf[q]
        case PortList(ps) => (var q :| q in ps && y == v.systemOf[v.nodeOf[q]]; v.nodeOf[q])
        case OneNode(m) => m
        case NodeList(ns) => (var m :| m in ns && y == v.systemOf[m]; m)
        case OneIoc(c) => IocNode(v, c)
        case IocList(cs) => (var c :| c in cs && y == v.systemOf[IocNode(v, c)]; IocNode(v, c))
        case OneSystem(_) => n
        case NodePairs(l, r) => (var m :| m in l + r && y == v.systemOf[m]; m);
      assert m in NodesOf(v, y) && CompareNode(v, s, expected, m);
    }
  }

  // ---- Compression ----

  function PortsOf(v: Inventory, n: nat): set<nat> {
    set p | p in v.nodeOf && v.nodeOf[p] == n
  }

  function NodesOf(v: Inventory, y: nat): set<nat> {
    set n | n in v.systemOf && v.systemOf[n] == y
  }

  function IocsOf(v: Inventory, u: nat): set<nat> {
    set c | c in v.iouOf && v.iouOf[c] == u
  }

  /** A list of several objects, as many as `all`, and all of them in `all`. */
  predicate Fills(xs: seq<nat>, all: set<nat>) {
    |xs| > 1 && |xs| == |all| && forall x <- xs :: x in all
  }

  /** Compression to the node or system that holds the listed objects. */
  predicate Merges(v: Inventory, s: Selection)
    requires InventoryOk(v) && SelectionOk(v, s)
  {
    match s
    case PortList(ps) => Fills(ps, PortsOf(v, v.nodeOf[ps[0]]))
    case NodeList(ns) => Fills(ns, NodesOf(v, v.systemOf[ns[0]]))
    case IocList(cs) => Fills(cs, IocsOf(v, v.iouOf[cs[0]]))
    case _ => false
  }

  function Compressed(v: Inventory, s: Selection): (r: Selection)
    requires InventoryOk(v) && SelectionOk(v, s)
    ensures SelectionOk(v, r)
  {
    match s
    case PortList(ps) => if |ps| == 1 then OnePort(ps[0]) else if Merges(v, s) then OneNode(v.nodeOf[ps[0]]) else s
    case NodeList(ns) => if |ns| == 1 then OneNode(ns[0]) else if Merges(v, s) then OneSystem(v.systemOf[ns[0]]) else s
    case IocList(cs) => if |cs| == 1 then OneIoc(cs[0]) else if Merges(v, s) then OneNode(IocNode(v, cs[0])) else s
    case _ => s
  }

  predicate Distinct(xs: seq<nat>) {
    forall i, j :: 0 <= i < j < |xs| ==> xs[i] != xs[j]
  }

  predicate Repeats(s: Selection) {
    match s
    case PortList(ps) => !Distinct(ps)
    case NodeList(ns) => !Distinct(ns)
    case IocList(cs) => !Distinct(cs)
    case _ => false
  }

  function Elements(xs: seq<nat>): set<nat> {
    set x | x in xs
  }

  lemma DistinctLast(xs: seq<nat>)
    requires xs != []
    ensures Distinct(xs) <==> Distinct(xs[..|xs| - 1]) && xs[|xs| - 1] !in xs[..|xs| - 1]
  {
    var n := |xs| - 1;
    var rest := xs[..n];
    if xs[n] in rest {
      var i :| 0 <= i < n && rest[i] == xs[n];
      assert xs[i] == xs[n];
    }
    if !Distinct(rest) {
      var i, j :| 0 <= i < j < n && rest[i] == rest[j];
      assert xs[i] == xs[j];
    }
  }

  lemma ElementsLast(xs: seq<nat>)
    requires xs != []
    ensures var rest, x := xs[..|xs| - 1], xs[|xs| - 1];
            && Elements(xs) == Elements(rest) + {x}
            && (x in rest <==> x in Elements(rest))
  {
    assert xs == xs[..|xs| - 1] + [xs[|xs| - 1]];
  }

  lemma {:induction false} ElementCount(xs: seq<nat>)
    ensures |Elements(xs)| <= |xs|
    ensures |Elements(xs)| == |xs| <==> Distinct(xs)
  {
    if xs == [] {
      assert Elements(xs) == {};
    } else {
      hide Elements, Distinct;
      var rest, x := xs[..|xs| - 1], xs[|xs| - 1];
      ElementCount(rest);
      DistinctLast(xs);
      ElementsLast(xs);
      if x in rest {
        assert Elements(rest) + {x} == Elements(rest);
      }
    }
  }

  lemma SubsetOfSize(a: set<nat>, b: set<nat>)
    requires a <= b
    ensures |a| <= |b| && (|a| == |b| <==> a == b)
  {
    assert b == a + (b - a);
    if |a| == |b| {
      assert b - a == {};
    }
  }

  /** By counting: a list that fills a set holds all of it, unless it repeats something. */
  lemma FillsAll(xs: seq<nat>, all: set<nat>)
    requires Fills(xs, all)
    ensures Distinct(xs) <==> forall x <- all :: x in xs
  {
    ElementCount(xs);
    SubsetOfSize(Elements(xs), all);
    assert Elements(xs) == all <==> forall x <- all :: x in xs;
  }

  lemma PortsMerge(v: Inventory, ps: seq<nat>, expected: bool)
    requires InventoryOk(v) && SelectionOk(v, PortList(ps)) && Merges(v, PortList(ps))
    ensures SameMeaning(v, PortList(ps), OneNode(v.nodeOf[ps[0]]), expected) <==> Distinct(ps)
  {
    var n := v.nodeOf[ps[0]];
    var s, t := PortList(ps), OneNode(n);
    FillsAll(ps, PortsOf(v, n));
    forall q | q in ps
      ensures v.nodeOf[q] == n
    {
      assert q in PortsOf(v, n);
    }
    assert ps[0] in ps;
    forall m | m in v.systemOf
      ensures CompareNode(v, s, expected, m) == CompareNode(v, t, expected, m)
    {
    }
    forall c | c in v.iouOf
      ensures CompareIoc(v, s, expected, c) == CompareIoc(v, t, expected, c)
    {
    }
    if !Distinct(ps) {
      var p :| p in PortsOf(v, n) && p !in ps;
      assert ComparePort(v, s, expected, p) != ComparePort(v, t, expected, p);
    }
  }

  lemma NodesMerge(v: Inventory, ns: seq<nat>, expected: bool)
    requires InventoryOk(v) && SelectionOk(v, NodeList(ns)) && Merges(v, NodeList(ns))
    ensures SameMeaning(v, NodeList(ns), OneSystem(v.systemOf[ns[0]]), expected) <==> Distinct(ns)
  {
    var y := v.systemOf[ns[0]];
    var s, t := NodeList(ns), OneSystem(y);
    FillsAll(ns, NodesOf(v, y));
    forall m | m in ns
      ensures v.systemOf[m] == y
    {
      assert m in NodesOf(v, y);
    }
    assert ns[0] in ns;
    if Distinct(ns) {
      forall m | m in v.systemOf
        ensures CompareNode(v, s, expected, m) == CompareNode(v, t, expected, m)
      {
        assert m in NodesOf(v, y) <==> v.systemOf[m] == y;
      }
    } else {
      var m :| m in NodesOf(v, y) && m !in ns;
      assert CompareNode(v, s, expected, m) != CompareNode(v, t, expected, m);
    }
  }

  lemma IocsMerge(v: Inventory, cs: seq<nat>, expected: bool)
    requires InventoryOk(v) && SelectionOk(v, IocList(cs)) && Merges(v, IocList(cs))
    ensures SameMeaning(v, IocList(cs), OneNode(IocNode(v, cs[0])), expected) <==> Distinct(cs)
  {
    var u := v.iouOf[cs[0]];
    var s, t := IocList(cs), OneNode(IocNode(v, cs[0]));
    FillsAll(cs, IocsOf(v, u));
    forall c | c in cs
      ensures v.iouOf[c] == u
    {
      assert c in IocsOf(v, u);
    }
    assert cs[0] in cs;
    if Distinct(cs) {
      forall c | c in v.iouOf
        ensures CompareIoc(v, s, expected, c) == CompareIoc(v, t, expected, c)
      {
        assert c in IocsOf(v, u) <==> v.iouOf[c] == u;
      }
    } else {
      var c :| c in IocsOf(v, u) && c !in cs;
      assert CompareIoc(v, s, expected, c) != CompareIoc(v, t, expected, c);
    }
  }

  lemma Same(v: Inventory, s: Selection, expected: bool)
    requires InventoryOk(v) && SelectionOk(v, s)
    ensures SameMeaning(v, s, s, expected)
  {
    hide ComparePort, CompareNode, CompareSystem, CompareIoc;
  }

  lemma OnePortSame(v: Inventory, p: nat, expected: bool)
    requires InventoryOk(v) && p in v.nodeOf
    ensures SelectionOk(v, PortList([p])) && SameMeaning(v, PortList([p]), OnePort(p), expected)
  {
    assert p in [p];
  }

  lemma OneNodeSame(v: Inventory, n: nat, expected: bool)
    requires InventoryOk(v) && n in v.systemOf
    ensures SelectionOk(v, NodeList([n])) && SameMeaning(v, NodeList([n]), OneNode(n), expected)
  {
    assert n in [n];
  }

  lemma OneIocSame(v: Inventory, c: nat, expected: bool)
    requires InventoryOk(v) && c in v.iouOf
    ensures SelectionOk(v, IocList([c])) && SameMeaning(v, IocList([c]), OneIoc(c), expected)
  {
    assert c in [c];
  }

  lemma OneSame(v: Inventory, s: Selection, expected: bool)
    requires InventoryOk(v) && SelectionOk(v, s) && !Merges(v, s)
    ensures SameMeaning(v, s, Compressed(v, s), expected)
  {
    hide SameMeaning, Merges, Fills;
    if Compressed(v, s) == s {
      Same(v, s, expected);
    } else {
      match s {
        case PortList(ps) =>
          assert |ps| == 1 ==> ps == [ps[0]];
          OnePortSame(v, ps[0], expected);
        case NodeList(ns) =>
          assert |ns| == 1 ==> ns == [ns[0]];
          OneNodeSame(v, ns[0], expected);
        case IocList(cs) =>
          assert |cs| == 1 ==> cs == [cs[0]];
          OneIocSame(v, cs[0], expected);
      }
    }
  }

  /** Compression keeps the meaning of a point exactly when it does not merge a list that repeats
      something. */
  lemma CompressExact(v: Inventory, s: Selection, expected: bool)
    requires InventoryOk(v) && SelectionOk(v, s)
    ensures SameMeaning(v, s, Compressed(v, s), expected) <==> !(Merges(v, s) && Repeats(s))
  {
    hide SameMeaning;
    if Merges(v, s) {
      match s {
        case PortList(ps) => PortsMerge(v, ps, expected);
        case NodeList(ns) => NodesMerge(v, ns, expected);
        case IocList(cs) => IocsMerge(v, cs, expected);
      }
    } else {
      OneSame(v, s, expected);
    }
  }

  /** A list of two or more that repeats nothing becomes its owner if and only if it holds all that the
      owner has. */
  lemma MergesWhole(v: Inventory, xs: seq<nat>, owner: nat)
    requires InventoryOk(v) && |xs| >= 2 && Distinct(xs)
    ensures (forall x <- xs :: x in v.nodeOf) ==>
              (Compressed(v, PortList(xs)) == OneNode(owner) <==> Elements(xs) == PortsOf(v, owner))
    ensures (forall x <- xs :: x in v.systemOf) ==>
              (Compressed(v, NodeList(xs)) == OneSystem(owner) <==> Elements(xs) == NodesOf(v, owner))
    ensures (forall x <- xs :: x in v.iouOf) && owner in v.iouNode ==>
              (Compressed(v, IocList(xs)) == OneNode(v.iouNode[owner]) <==> Elements(xs) == IocsOf(v, owner))
  {
    ElementCount(xs);
    assert xs[0] in Elements(xs);
    if forall x <- xs :: x in v.nodeOf {
      WholeFills(xs, PortsOf(v, v.nodeOf[xs[0]]));
    }
    if forall x <- xs :: x in v.systemOf {
      WholeFills(xs, NodesOf(v, v.systemOf[xs[0]]));
    }
    if forall x <- xs :: x in v.iouOf {
      WholeFills(xs, IocsOf(v, v.iouOf[xs[0]]));
    }
  }

  lemma WholeFills(xs: seq<nat>, all: set<nat>)
    requires |xs| >= 2 && Distinct(xs)
    ensures Fills(xs, all) <==> Elements(xs) == all
  {
    ElementCount(xs);
    if Fills(xs, all) {
      FillsAll(xs, all);
    }
  }

  // ---- The point ----

  datatype ListKind = PortKind | NodeKind | IocKind | OtherKind

  datatype PointStatus = PointOk | InvalidOperation

  /** The selection with one object more. None if the kind does not fit: the point is then destroyed. */
  function Appended(s: Selection, kind: ListKind, x: nat): Option<Selection> {
    match (s, kind)
    case (_, OtherKind) => None
    case (NoneSelected, PortKind) => Some(PortList([x]))
    case (NoneSelected, NodeKind) => Some(NodeList([x]))
    case (NoneSelected, IocKind) => Some(IocList([x]))
    case (PortList(ps), PortKind) => Some(PortList(ps + [x]))
    case (NodeList(ns), NodeKind) => Some(NodeList(ns + [x]))
    case (IocList(cs), IocKind) => Some(IocList(cs + [x]))
    case _ => None
  }

  predicate Known(v: Inventory, kind: ListKind, x: nat) {
    match kind
    case PortKind => x in v.nodeOf
    case NodeKind => x in v.systemOf
    case IocKind => x in v.iouOf
    case OtherKind => true
  }

  /** Appending widens what is selected by just the ports of the object; the first append starts from
      nothing. */
  lemma AppendedPorts(v: Inventory, s: Selection, expected: bool, kind: ListKind, x: nat, p: nat)
    requires InventoryOk(v) && SelectionOk(v, s) && Known(v, kind, x) && p in v.nodeOf
    requires Appended(s, kind, x).Some?
    ensures SelectionOk(v, Appended(s, kind, x).value)
    ensures ComparePort(v, Appended(s, kind, x).value, expected, p)
            <==> (s != NoneSelected && ComparePort(v, s, expected, p))
                 || (match kind
                     case PortKind => p == x
                     case NodeKind => v.nodeOf[p] == x
                     case IocKind => v.nodeOf[p] == IocNode(v, x)
                     case OtherKind => false)
  {
    match s {
      case IocList(cs) =>
        forall c | c in cs
          ensures c in cs + [x]
        {
        }
        assert x in cs + [x];
      case _ =>
    }
  }

  class Point {
    var selection: Selection
    var expected: bool

    constructor ()
      ensures selection == NoneSelected && !expected
    {
      selection, expected := NoneSelected, false;
    }

    method Destroy()
      modifies this
      ensures selection == NoneSelected && !expected
    {
      selection, expected := NoneSelected, false;
    }

    method ListAppend(kind: ListKind, x: nat) returns (status: PointStatus)
      modifies this
      ensures var r := Appended(old(selection), kind, x);
              if r.Some? then status == PointOk && selection == r.value && expected == old(expected)
              else status == InvalidOperation && selection == NoneSelected && !expected
    {
      if selection == NoneSelected {
        match kind {
          case PortKind => selection := PortList([]);
          case NodeKind => selection := NodeList([]);
          case IocKind => selection := IocList([]);
          case OtherKind =>
            Destroy();
            return InvalidOperation;
        }
      } else if !((selection.PortList? && kind == PortKind) || (selection.NodeList? && kind == NodeKind)
                  || (selection.IocList? && kind == IocKind)) {
        Destroy();
        return InvalidOperation;
      }
      match selection {
        case PortList(ps) => selection := PortList(ps + [x]);
        case NodeList(ns) => selection := NodeList(ns + [x]);
        case IocList(cs) => selection := IocList(cs + [x]);
      }
      return PointOk;
    }

    /** A list of ports built this way repeats nothing. */
    method ListAppendUniquePort(v: Inventory, p: nat) returns (status: PointStatus)
      requires InventoryOk(v) && SelectionOk(v, selection) && p in v.nodeOf && !Repeats(selection)
      modifies this
      ensures SelectionOk(v, selection) && !Repeats(selection)
      ensures status == PointOk <==> old(selection).NoneSelected? || old(selection).PortList?
      ensures status == PointOk ==>
                && selection.PortList? && expected == old(expected)
                && Elements(selection.ports)
                   == (if old(selection).PortList? then Elements(old(selection).ports) else {}) + {p}
    {
      if selection.PortList? && ComparePort(v, selection, expected, p) {
        return PointOk;
      }
      status := ListAppend(PortKind, p);
    }

    /** Whether all listed objects have the owner of the first. */
    method SameOwner(xs: seq<nat>, owner: map<nat, nat>) returns (same: bool)
      requires xs != [] && forall x <- xs :: x in owner
      ensures same <==> forall x <- xs :: owner[x] == owner[xs[0]]
    {
      same := true;
      var i := 0;
      while same && i < |xs|
        invariant 0 <= i <= |xs|
        invariant same <==> forall x <- xs[..i] :: owner[x] == owner[xs[0]]
        decreases |xs| - i
      {
        assert xs[i] in xs[..i + 1];
        if owner[xs[0]] != owner[xs[i]] {
          same := false;
        }
        i := i + 1;
      }
      assert forall x :: x in xs[..i] ==> x in xs;
    }

    method FabricCompress(v: Inventory)
      requires InventoryOk(v) && SelectionOk(v, selection)
      modifies this
      ensures expected == old(expected) && selection == Compressed(v, old(selection))
      ensures SameMeaning(v, old(selection), selection, expected) <==>
                !(Merges(v, old(selection)) && Repeats(old(selection)))
    {
      hide SameMeaning;
      CompressExact(v, selection, expected);
      match selection {
        case PortList(ps) =>
          if |ps| == 1 {
            selection := OnePort(ps[0]);
          } else if |ps| == |PortsOf(v, v.nodeOf[ps[0]])| {
            var same := SameOwner(ps, v.nodeOf);
            if same {
              selection := OneNode(v.nodeOf[ps[0]]);
            }
          }
        case NodeList(ns) =>
          if |ns| == 1 {
            selection := OneNode(ns[0]);
          } else if |ns| == |NodesOf(v, v.systemOf[ns[0]])| {
            var same := SameOwner(ns, v.systemOf);
            if same {
              selection := OneSystem(v.systemOf[ns[0]]);
            }
          }
        case IocList(cs) =>
          if |cs| == 1 {
            selection := OneIoc(cs[0]);
          } else if |cs| == |IocsOf(v, v.iouOf[cs[0]])| {
            var same := SameOwner(cs, v.iouOf);
            if same {
              selection := OneNode(IocNode(v, cs[0]));
            }
          }
        case _ =>
      }
    }
  }
}
