/** FabricDataAddLink and FabricDataRemoveLink: the symmetric link relation of a fabric, its "from"
    marks and its five running link counters. */
module FabricLinks {
  import opened Fabrics

  /** What a port's links are classed by: its node, its number, and its node's system image and type. */
  datatype EndInfo = EndInfo(nodeGuid: nat, portNum: nat, systemGuid: nat, kind: NodeType)

  type Ends = map<nat, EndInfo>  // all port records, by identity

  datatype LinkClass = AnyLink | ExtLink | FiLink | IsLink | ExtIsLink

  datatype LinkCounts = LinkCounts(link: int, ext: int, fi: int, isl: int, extIsl: int) {
    function Of(c: LinkClass): int {
      match c
      case AnyLink => link
      case ExtLink => ext
      case FiLink => fi
      case IsLink => isl
      case ExtIsLink => extIsl
    }

    /** The counters after one more (or, with -1, one less) link between `a` and `b`. */
    function Moved(a: EndInfo, b: EndInfo, d: int): LinkCounts {
      LinkCounts(
        link + d,
        if InClass(ExtLink, a, b) then ext + d else ext,
        if InClass(FiLink, a, b) then fi + d else fi,
        if InClass(IsLink, a, b) then isl + d else isl,
        if InClass(ExtIsLink, a, b) then extIsl + d else extIsl)
    }
  }

  predicate Internal(a: EndInfo, b: EndInfo) {
    a.systemGuid == b.systemGuid && (a.systemGuid != 0 || a.nodeGuid == b.nodeGuid)
  }

  predicate InClass(c: LinkClass, a: EndInfo, b: EndInfo) {
    match c
    case AnyLink => true
    case ExtLink => !Internal(a, b)
    case FiLink => a.kind == FI || b.kind == FI
    case IsLink => a.kind == SW && b.kind == SW
    case ExtIsLink => !Internal(a, b) && a.kind == SW && b.kind == SW
  }

  /** `a` is the end a link is reported from: lower node GUID, then lower port number. */
  predicate IsFrom(a: EndInfo, b: EndInfo) {
    if a.nodeGuid != b.nodeGuid then a.nodeGuid < b.nodeGuid else a.portNum < b.portNum
  }

  /** `peer` is the neighbor of each linked port, `from` the ports marked as the "from" end. */
  datatype LinkState = LinkState(peer: map<nat, nat>, from: set<nat>, rate: map<nat, nat>, counts: LinkCounts)

  // ---- The operations ----

  predicate CanAdd(s: LinkState, p1: nat, p2: nat) {
    p1 !in s.peer && p2 !in s.peer
  }

  function Added(ends: Ends, s: LinkState, p1: nat, p2: nat): LinkState
    requires p1 in ends && p2 in ends
  {
    if !CanAdd(s, p1, p2) then s
    else LinkState(
      s.peer[p1 := p2][p2 := p1],
      if IsFrom(ends[p1], ends[p2]) then s.from - {p2} + {p1} else s.from - {p1} + {p2},
      s.rate,
      s.counts.Moved(ends[p1], ends[p2], 1))
  }

  predicate CanRemove(s: LinkState, p1: nat) {
    p1 in s.peer && s.peer[p1] != p1 && s.peer[p1] in s.peer && s.peer[s.peer[p1]] == p1
  }

  function Removed(ends: Ends, s: LinkState, p1: nat): LinkState
    requires p1 in ends && (CanRemove(s, p1) ==> s.peer[p1] in ends)
  {
    if !CanRemove(s, p1) then s
    else
      var p2 := s.peer[p1];
      LinkState(
        s.peer - {p1, p2}, s.from - {p1, p2}, s.rate[p1 := 0][p2 := 0],
        s.counts.Moved(ends[p1], ends[p2], -1))
  }

  // ---- The invariant ----

  /** A linked port and its peer: each other's neighbor, different, and marked at one end only, which is
      not the higher one. */
  predicate Matched(ends: Ends, s: LinkState, p: nat)
    requires p in s.peer
  {
    var q := s.peer[p];
    && p in ends && q in ends && q != p && q in s.peer && s.peer[q] == p
    && (p in s.from <==> q !in s.from)
    && (p in s.from ==> !IsFrom(ends[q], ends[p]))
  }

  /** The links of a class, each told by its "from" end. */
  function LinksOf(ends: Ends, s: LinkState, c: LinkClass): set<nat> {
    set p | p in s.from && p in s.peer && p in ends && s.peer[p] in ends && InClass(c, ends[p], ends[s.peer[p]])
  }

  ghost predicate CountRight(ends: Ends, s: LinkState, c: LinkClass) {
    s.counts.Of(c) == |LinksOf(ends, s, c)|
  }

  ghost predicate LinksOk(ends: Ends, s: LinkState) {
    && (forall p {:trigger Matched(ends, s, p)} :: p in s.peer ==> Matched(ends, s, p))
    && s.from <= s.peer.Keys
    && (forall c {:trigger CountRight(ends, s, c)} :: CountRight(ends, s, c))
  }

  /** No counter is ever negative, and none exceeds the number of links. */
  lemma CountsBounded(ends: Ends, s: LinkState, c: LinkClass)
    requires LinksOk(ends, s)
    ensures 0 <= s.counts.Of(c) <= s.counts.link
  {
    assert CountRight(ends, s, c) && CountRight(ends, s, AnyLink);
    SubsetSize(LinksOf(ends, s, c), LinksOf(ends, s, AnyLink));
  }

  lemma SubsetSize(a: set<nat>, b: set<nat>)
    requires a <= b
    ensures |a| <= |b|
  {
    assert b == a + (b - a);
  }

  /** Every link has exactly one "from" end: twice the link counter is the number of linked ports. */
  lemma LinkedPortsCount(ends: Ends, s: LinkState)
    requires LinksOk(ends, s)
    ensures |s.peer| == 2 * s.counts.link
  {
    var a := LinksOf(ends, s, AnyLink);
    assert CountRight(ends, s, AnyLink);
    assert a == s.from by {
      forall p | p in s.from
        ensures p in a
      {
        assert Matched(ends, s, p);
      }
    }
    var b := s.peer.Keys - a;
    forall p | p in s.peer
      ensures s.peer[p] in s.peer && s.peer[s.peer[p]] == p && (p in a <==> s.peer[p] !in a)
    {
      assert Matched(ends, s, p);
    }
    Paired(s.peer, a, b);
    assert s.peer.Keys == a + b && a !! b;
    assert |s.peer| == |s.peer.Keys|;
  }

  /** Two sets matched one to one are of one size. */
  lemma {:induction false} Paired(m: map<nat, nat>, a: set<nat>, b: set<nat>)
    requires forall p <- a :: p in m && m[p] in b && m[p] in m && m[m[p]] == p
    requires forall q <- b :: q in m && m[q] in a && m[q] in m && m[m[q]] == q
    ensures |a| == |b|
    decreases a
  {
    if p :| p in a {
      Paired(m, a - {p}, b - {m[p]});
    } else {
      assert forall q <- b :: false;
      assert b == {};
    }
  }

  /** Of two linked ports the one whose node has the lower GUID is the "from" end; of two ports of one node, the
      one with the lower number. */
  lemma FromIsLower(ends: Ends, s: LinkState, p: nat)
    requires LinksOk(ends, s) && p in s.peer
    ensures var q := s.peer[p];
            && p in ends && q in ends
            && (ends[p].nodeGuid < ends[q].nodeGuid ==> p in s.from && q !in s.from)
            && (ends[p].nodeGuid == ends[q].nodeGuid && ends[p].portNum < ends[q].portNum ==>
                  p in s.from && q !in s.from)
  {
    assert Matched(ends, s, p);
    assert Matched(ends, s, s.peer[p]);
  }

  /** Inside one system: the same system image GUID, or none and the same node. */
  predicate SameSystem(a: EndInfo, b: EndInfo) {
    if a.systemGuid == 0 then b.systemGuid == 0 && a.nodeGuid == b.nodeGuid else a.systemGuid == b.systemGuid
  }

  predicate EitherFi(a: EndInfo, b: EndInfo) {
    a.kind == FI || b.kind == FI
  }

  predicate Apart(a: EndInfo, b: EndInfo) {
    !SameSystem(a, b)
  }

  predicate SwitchesApart(a: EndInfo, b: EndInfo) {
    a.kind == SW && b.kind == SW && !SameSystem(a, b)
  }

  /** The links whose two ends pass a test, each told by its "from" end. */
  ghost function LinksThat(ends: Ends, s: LinkState, test: (EndInfo, EndInfo) -> bool): set<nat> {
    set p | p in s.from && p in s.peer && p in ends && s.peer[p] in ends && test(ends[p], ends[s.peer[p]])
  }

  lemma CountsThat(ends: Ends, s: LinkState, c: LinkClass, test: (EndInfo, EndInfo) -> bool)
    requires LinksOk(ends, s) && forall a, b :: test(a, b) <==> InClass(c, a, b)
    ensures s.counts.Of(c) == |LinksThat(ends, s, test)|
  {
    hide InClass, Matched;
    assert CountRight(ends, s, c);
    assert LinksThat(ends, s, test) == LinksOf(ends, s, c);
  }

  /** What the counters count, each link once. Every link is an FI link or one between switches. */
  lemma CountersRead(ends: Ends, s: LinkState)
    requires LinksOk(ends, s)
    ensures s.counts.link == s.counts.fi + s.counts.isl
    ensures s.counts.fi == |LinksThat(ends, s, EitherFi)|
    ensures s.counts.ext == |LinksThat(ends, s, Apart)|
    ensures s.counts.extIsl == |LinksThat(ends, s, SwitchesApart)|
  {
    hide LinksOk, LinksThat;
    CountsThat(ends, s, FiLink, EitherFi);
    CountsThat(ends, s, ExtLink, Apart);
    CountsThat(ends, s, ExtIsLink, SwitchesApart);
    FiOrSwitches(ends, s);
  }

  lemma FiOrSwitches(ends: Ends, s: LinkState)
    requires LinksOk(ends, s)
    ensures s.counts.link == s.counts.fi + s.counts.isl
  {
    hide Matched;
    assert CountRight(ends, s, AnyLink) && CountRight(ends, s, FiLink) && CountRight(ends, s, IsLink);
    assert LinksOf(ends, s, AnyLink) == LinksOf(ends, s, FiLink) + LinksOf(ends, s, IsLink);
  }

  lemma ClassSymmetric(c: LinkClass, a: EndInfo, b: EndInfo)
    ensures InClass(c, a, b) <==> InClass(c, b, a)
  {
  }

  /** The marked end of a link between two ports. */
  function FromEnd(ends: Ends, p1: nat, p2: nat): nat
    requires p1 in ends && p2 in ends
  {
    if IsFrom(ends[p1], ends[p2]) then p1 else p2
  }

  lemma AddedLinks(ends: Ends, s: LinkState, p1: nat, p2: nat, c: LinkClass)
    requires LinksOk(ends, s) && p1 in ends && p2 in ends && p1 != p2 && CanAdd(s, p1, p2)
    ensures var e := FromEnd(ends, p1, p2);
            && e !in LinksOf(ends, s, c)
            && LinksOf(ends, Added(ends, s, p1, p2), c)
               == LinksOf(ends, s, c) + (if InClass(c, ends[p1], ends[p2]) then {e} else {})
  {
    ClassSymmetric(c, ends[p1], ends[p2]);
    var after := Added(ends, s, p1, p2);
    forall p | p in s.from
      ensures p != p1 && p != p2 && after.peer[p] == s.peer[p]
    {
      assert Matched(ends, s, p);
    }
  }

  lemma MovedOf(n: LinkCounts, a: EndInfo, b: EndInfo, d: int, c: LinkClass)
    ensures n.Moved(a, b, d).Of(c) == n.Of(c) + (if InClass(c, a, b) then d else 0)
  {
  }

  lemma AddedMatched(ends: Ends, s: LinkState, p1: nat, p2: nat)
    requires LinksOk(ends, s) && p1 in ends && p2 in ends && p1 != p2 && CanAdd(s, p1, p2)
    ensures var after := Added(ends, s, p1, p2);
            && after.from <= after.peer.Keys
            && forall p {:trigger Matched(ends, after, p)} :: p in after.peer ==> Matched(ends, after, p)
  {
    var after := Added(ends, s, p1, p2);
    forall p | p in after.peer
      ensures Matched(ends, after, p)
    {
      if p != p1 && p != p2 {
        assert Matched(ends, s, p);
      }
    }
  }

  /** A link is added only between two free ports, and keeps the relation a matching. */
  lemma AddedOk(ends: Ends, s: LinkState, p1: nat, p2: nat)
    requires LinksOk(ends, s) && p1 in ends && p2 in ends && p1 != p2
    ensures LinksOk(ends, Added(ends, s, p1, p2))
  {
    hide Matched, LinksOf, InClass, LinkCounts.Moved, LinkCounts.Of;
    if CanAdd(s, p1, p2) {
      AddedMatched(ends, s, p1, p2);
      var after := Added(ends, s, p1, p2);
      forall c
        ensures CountRight(ends, after, c)
      {
        assert CountRight(ends, s, c);
        AddedLinks(ends, s, p1, p2, c);
        MovedOf(s.counts, ends[p1], ends[p2], 1, c);
      }
    }
  }

  lemma RemovedLinks(ends: Ends, s: LinkState, p1: nat, c: LinkClass)
    requires LinksOk(ends, s) && p1 in s.peer
    ensures p1 in ends && CanRemove(s, p1) && s.peer[p1] in ends
    ensures var p2 := s.peer[p1];
            var e := if p1 in s.from then p1 else p2;
            && (e in LinksOf(ends, s, c) <==> InClass(c, ends[p1], ends[p2]))
            && LinksOf(ends, Removed(ends, s, p1), c) == LinksOf(ends, s, c) - {e}
  {
    assert Matched(ends, s, p1);
    var p2 := s.peer[p1];
    assert Matched(ends, s, p2);
    ClassSymmetric(c, ends[p1], ends[p2]);
    var after := Removed(ends, s, p1);
    forall p | p in s.from && p != p1 && p != p2
      ensures p in after.peer && after.peer[p] == s.peer[p]
    {
      assert Matched(ends, s, p);
    }
  }

  lemma RemovedMatched(ends: Ends, s: LinkState, p1: nat)
    requires LinksOk(ends, s) && p1 in s.peer
    ensures p1 in ends && CanRemove(s, p1) && s.peer[p1] in ends
    ensures var after := Removed(ends, s, p1);
            && after.from <= after.peer.Keys
            && forall p {:trigger Matched(ends, after, p)} :: p in after.peer ==> Matched(ends, after, p)
  {
    assert Matched(ends, s, p1);
    var after := Removed(ends, s, p1);
    forall p | p in after.peer
      ensures Matched(ends, after, p)
    {
      assert Matched(ends, s, p);
    }
  }

  /** A linked port can always be unlinked, and the relation stays a matching. */
  lemma RemovedOk(ends: Ends, s: LinkState, p1: nat)
    requires LinksOk(ends, s) && p1 in ends
    ensures CanRemove(s, p1) <==> p1 in s.peer
    ensures CanRemove(s, p1) ==> s.peer[p1] in ends
    ensures LinksOk(ends, Removed(ends, s, p1))
  {
    hide Matched, LinksOf, InClass, LinkCounts.Moved, LinkCounts.Of;
    if p1 in s.peer {
      RemovedMatched(ends, s, p1);
      var after := Removed(ends, s, p1);
      forall c
        ensures CountRight(ends, after, c)
      {
        assert CountRight(ends, s, c);
        RemovedLinks(ends, s, p1, c);
        MovedOf(s.counts, ends[p1], ends[s.peer[p1]], -1, c);
      }
    }
  }

  /** Removing a link just added, by either end, restores everything but the rates. */
  lemma RemoveUndoesAdd(ends: Ends, s: LinkState, p1: nat, p2: nat, p: nat)
    requires LinksOk(ends, s) && p1 in ends && p2 in ends && p1 != p2 && CanAdd(s, p1, p2) && (p == p1 || p == p2)
    ensures var after := Added(ends, s, p1, p2);
            && CanRemove(after, p)
            && after.peer[p] in ends
            && Removed(ends, after, p) == s.(rate := s.rate[p1 := 0][p2 := 0])
  {
    var after := Added(ends, s, p1, p2);
    forall c
      ensures InClass(c, ends[p1], ends[p2]) <==> InClass(c, ends[p2], ends[p1])
    {
      ClassSymmetric(c, ends[p1], ends[p2]);
    }
    assert after.peer - {p1, p2} == s.peer;
    assert p1 !in s.from && p2 !in s.from;
    assert after.from - {p1, p2} == s.from;
    var back := Removed(ends, after, p);
    assert back.rate == s.rate[p1 := 0][p2 := 0];
    assert back.counts == s.counts;
  }

  /** A port linked to itself, which the code does not refuse, breaks the invariant and can never be
      unlinked. */
  lemma SelfLinkStays(ends: Ends, s: LinkState, p: nat)
    requires p in ends && CanAdd(s, p, p)
    ensures var after := Added(ends, s, p, p);
            && after.peer[p] == p && after.counts.link == s.counts.link + 1 && !CanRemove(after, p)
            && !LinksOk(ends, after)
  {
    assert !Matched(ends, Added(ends, s, p, p), p);
  }

  /** Adding a link keeps the invariant if and only if the ports differ or it is refused anyway. */
  lemma AddExact(ends: Ends, s: LinkState, p1: nat, p2: nat)
    requires LinksOk(ends, s) && p1 in ends && p2 in ends
    ensures LinksOk(ends, Added(ends, s, p1, p2)) <==> p1 != p2 || !CanAdd(s, p1, p2)
  {
    if p1 != p2 {
      AddedOk(ends, s, p1, p2);
    } else if CanAdd(s, p1, p2) {
      SelfLinkStays(ends, s, p1);
    }
  }

  // ---- Runs ----

  datatype LinkOp = AddOp(p1: nat, p2: nat) | RemoveOp(p: nat)

  predicate OpOk(ends: Ends, op: LinkOp) {
    match op
    case AddOp(p1, p2) => p1 in ends && p2 in ends && p1 != p2
    case RemoveOp(p) => p in ends
  }

  ghost function Step(ends: Ends, s: LinkState, op: LinkOp): (r: LinkState)
    requires LinksOk(ends, s) && OpOk(ends, op)
    ensures LinksOk(ends, r)
  {
    match op
    case AddOp(p1, p2) => (AddedOk(ends, s, p1, p2); Added(ends, s, p1, p2))
    case RemoveOp(p) => (RemovedOk(ends, s, p); Removed(ends, s, p))
  }

  ghost function Run(ends: Ends, start: LinkState, ops: seq<LinkOp>): (s: LinkState)
    requires LinksOk(ends, start) && forall op <- ops :: OpOk(ends, op)
    ensures LinksOk(ends, s)
  {
    if ops == [] then start
    else Step(ends, Run(ends, start, ops[..|ops| - 1]), ops[|ops| - 1])
  }

  // ---- The port records and the counters ----

  datatype PortView = PortView(neighbor: Option<nat>, from: bool, rate: nat)

  type Views = map<nat, PortView>

  function StateOf(v: Views, counts: LinkCounts): LinkState {
    LinkState(
      map p | p in v && v[p].neighbor.Some? :: v[p].neighbor.value,
      set p | p in v && v[p].from,
      map p | p in v :: v[p].rate,
      counts)
  }

  lemma StatePeer(v: Views, counts: LinkCounts, p: nat)
    requires p in v
    ensures p in StateOf(v, counts).peer <==> v[p].neighbor.Some?
    ensures v[p].neighbor.Some? ==> StateOf(v, counts).peer[p] == v[p].neighbor.value
  {
  }

  lemma StateAdded(ends: Ends, v: Views, counts: LinkCounts, p1: nat, p2: nat)
    requires ends.Keys == v.Keys && p1 in v && p2 in v && v[p1].neighbor == None && v[p2].neighbor == None
    ensures var f := IsFrom(ends[p1], ends[p2]);
            StateOf(v[p1 := PortView(Some(p2), f, v[p1].rate)][p2 := PortView(Some(p1), !f, v[p2].rate)],
                    counts.Moved(ends[p1], ends[p2], 1))
            == Added(ends, StateOf(v, counts), p1, p2)
  {
    var f := IsFrom(ends[p1], ends[p2]);
    var w := v[p1 := PortView(Some(p2), f, v[p1].rate)][p2 := PortView(Some(p1), !f, v[p2].rate)];
    var s, t := StateOf(w, counts.Moved(ends[p1], ends[p2], 1)), Added(ends, StateOf(v, counts), p1, p2);
    assert s.peer == t.peer;
    assert s.from == t.from;
    assert s.rate == t.rate;
  }

  lemma AddRefused(ends: Ends, s: LinkState, p1: nat, p2: nat)
    requires p1 in ends && p2 in ends
    ensures !CanAdd(s, p1, p2) ==> Added(ends, s, p1, p2) == s
  {
  }

  lemma RemoveRefused(ends: Ends, s: LinkState, p1: nat)
    requires p1 in ends && (CanRemove(s, p1) ==> s.peer[p1] in ends)
    ensures !CanRemove(s, p1) ==> Removed(ends, s, p1) == s
  {
  }

  lemma StateRemoved(ends: Ends, v: Views, counts: LinkCounts, p1: nat, p2: nat)
    requires ends.Keys == v.Keys && p1 in v && p2 in v && p1 != p2
    requires v[p1].neighbor == Some(p2) && v[p2].neighbor == Some(p1)
    ensures var free := PortView(None, false, 0);
            StateOf(v[p1 := free][p2 := free], counts.Moved(ends[p1], ends[p2], -1))
            == Removed(ends, StateOf(v, counts), p1)
  {
    var free := PortView(None, false, 0);
    var s := StateOf(v[p1 := free][p2 := free], counts.Moved(ends[p1], ends[p2], -1));
    var t := Removed(ends, StateOf(v, counts), p1);
    assert s.peer == t.peer;
    assert s.from == t.from;
    assert s.rate == t.rate;
  }

  class PortRecord {
    const id: nat
    const info: EndInfo
    var neighbor: PortRecord?
    var from: bool
    var rate: nat

    constructor (id: nat, info: EndInfo, rate: nat)
      ensures this.id == id && this.info == info && neighbor == null && !from && this.rate == rate
    {
      this.id, this.info, this.rate := id, info, rate;
      neighbor, from := null, false;
    }
  }

  class LinkTable {
    const ports: map<nat, PortRecord>
    var counts: LinkCounts

    constructor (ports: map<nat, PortRecord>)
      ensures this.ports == ports && counts == LinkCounts(0, 0, 0, 0, 0)
    {
      this.ports := ports;
      counts := LinkCounts(0, 0, 0, 0, 0);
    }

    ghost predicate Records()
      reads ports.Values
    {
      forall p <- ports ::
        && ports[p].id == p
        && (ports[p].neighbor != null ==>
              ports[p].neighbor.id in ports && ports[ports[p].neighbor.id] == ports[p].neighbor)
    }

    ghost function Infos(): Ends {
      map p | p in ports :: ports[p].info
    }

    ghost function PortViews(): Views
      reads ports.Values
    {
      map p | p in ports ::
        PortView(if ports[p].neighbor == null then None else Some(ports[p].neighbor.id), ports[p].from, ports[p].rate)
    }

    ghost function State(): LinkState
      reads this, ports.Values
    {
      StateOf(PortViews(), counts)
    }

    ghost predicate Valid()
      reads this, ports.Values
    {
      Records() && LinksOk(Infos(), State())
    }

    predicate InternalLink(p: PortRecord)
      reads p
    {
      p.neighbor != null && Internal(p.info, p.neighbor.info)
    }

    predicate SwitchLink(p: PortRecord)
      reads p
    {
      p.neighbor != null && p.info.kind == SW && p.neighbor.info.kind == SW
    }

    predicate HasFi(p: PortRecord)
      reads p
    {
      p.neighbor != null && (p.info.kind == FI || p.neighbor.info.kind == FI)
    }

    /** The counters after the link at `p1` was made. */
    method Count(p1: PortRecord)
      requires p1.neighbor != null
      modifies `counts
      ensures counts == old(counts).Moved(p1.info, p1.neighbor.info, 1)
    {
      counts := counts.(link := counts.link + 1);
      if !InternalLink(p1) {
        counts := counts.(ext := counts.ext + 1);
      }
      if HasFi(p1) {
        counts := counts.(fi := counts.fi + 1);
      }
      if SwitchLink(p1) {
        counts := counts.(isl := counts.isl + 1);
      }
      if !InternalLink(p1) && SwitchLink(p1) {
        counts := counts.(extIsl := counts.extIsl + 1);
      }
    }

    /** The counters before the link at `p1` is cut. */
    method Uncount(p1: PortRecord)
      requires p1.neighbor != null
      modifies `counts
      ensures counts == old(counts).Moved(p1.info, p1.neighbor.info, -1)
    {
      counts := counts.(link := counts.link - 1);
      if !InternalLink(p1) {
        counts := counts.(ext := counts.ext - 1);
      }
      if HasFi(p1) {
        counts := counts.(fi := counts.fi - 1);
      }
      if SwitchLink(p1) {
        counts := counts.(isl := counts.isl - 1);
      }
      if !InternalLink(p1) && SwitchLink(p1) {
        counts := counts.(extIsl := counts.extIsl - 1);
      }
    }

    method MarkFrom(p1: PortRecord, p2: PortRecord)
      modifies p1`from, p2`from
      ensures p2.from == !IsFrom(p1.info, p2.info) && (p1 != p2 ==> p1.from == !p2.from)
    {
      if p1.info.nodeGuid != p2.info.nodeGuid {
        if p1.info.nodeGuid < p2.info.nodeGuid {
          p1.from := true;
          p2.from := false;
        } else {
          p1.from := false;
          p2.from := true;
        }
      } else {
        if p1.info.portNum < p2.info.portNum {
          p1.from := true;
          p2.from := false;
        } else {
          p1.from := false;
          p2.from := true;
        }
      }
    }

    /** Links two free ports. */
    method Join(p1: PortRecord, p2: PortRecord)
      requires Records() && p1.id in ports && ports[p1.id] == p1 && p2.id in ports && ports[p2.id] == p2
      requires p1.neighbor == null && p2.neighbor == null
      modifies this, p1, p2
      ensures Records() && counts == old(counts).Moved(p1.info, p2.info, 1)
      ensures var v, f := old(PortViews()), IsFrom(p1.info, p2.info);
              PortViews() == v[p1.id := PortView(Some(p2.id), f, v[p1.id].rate)]
                              [p2.id := PortView(Some(p1.id), !f, v[p2.id].rate)]
    {
      hide IsFrom, LinkCounts.Moved, Internal;
      p1.neighbor := p2;
      p2.neighbor := p1;
      MarkFrom(p1, p2);
      Count(p1);
    }

    method AddLink(p1: PortRecord, p2: PortRecord) returns (ok: bool)
      requires Valid() && p1.id in ports && ports[p1.id] == p1 && p2.id in ports && ports[p2.id] == p2
      modifies this, p1, p2
      ensures Records() && (p1 != p2 || !ok ==> Valid())
      ensures ok == CanAdd(old(State()), p1.id, p2.id)
      ensures State() == Added(Infos(), old(State()), p1.id, p2.id)
    {
      hide LinksOk, LinkCounts.Moved, Internal, StateOf, IsFrom, Added;
      if p1 != p2 {
        AddedOk(Infos(), State(), p1.id, p2.id);
      }
      AddRefused(Infos(), State(), p1.id, p2.id);
      StatePeer(PortViews(), counts, p1.id);
      StatePeer(PortViews(), counts, p2.id);
      if p1.neighbor == p2 && p2.neighbor == p1 {
        return false;
      }
      if p1.neighbor != null || p2.neighbor != null {
        return false;
      }
      StateAdded(Infos(), PortViews(), counts, p1.id, p2.id);
      Join(p1, p2);
      return true;
    }

    method Free(p: PortRecord)
      requires Records() && p.id in ports && ports[p.id] == p
      modifies p
      ensures Records() && PortViews() == old(PortViews())[p.id := PortView(None, false, 0)]
      ensures p.neighbor == null && p.rate == 0 && !p.from
    {
      p.rate, p.neighbor, p.from := 0, null, false;
    }

    /** Cuts the link between two ports. */
    method Cut(p1: PortRecord, p2: PortRecord)
      requires Records() && p1.id in ports && ports[p1.id] == p1 && p2.id in ports && ports[p2.id] == p2
      requires p1 != p2 && p1.neighbor == p2
      modifies `counts, p1, p2
      ensures Records() && counts == old(counts).Moved(p1.info, p2.info, -1)
      ensures PortViews() == old(PortViews())[p1.id := PortView(None, false, 0)][p2.id := PortView(None, false, 0)]
      ensures forall p | p == p1 || p == p2 :: p.neighbor == null && p.rate == 0 && !p.from
    {
      hide LinkCounts.Moved, Internal, Records, PortViews;
      Uncount(p1);
      Free(p1);
      Free(p2);
    }

    method RemoveLink(p1: PortRecord) returns (ok: bool)
      requires Valid() && p1.id in ports && ports[p1.id] == p1
      modifies this, p1, p1.neighbor
      ensures Valid()
      ensures ok == CanRemove(old(State()), p1.id) == (old(p1.neighbor) != null)
      ensures ok ==> old(State()).peer[p1.id] in Infos()
      ensures State() == Removed(Infos(), old(State()), p1.id)
      ensures ok ==> forall p | p == p1 || p == old(p1.neighbor) :: p.neighbor == null && p.rate == 0 && !p.from
    {
      hide LinksOk, LinkCounts.Moved, Internal, StateOf, Removed;
      RemovedOk(Infos(), State(), p1.id);
      RemoveRefused(Infos(), State(), p1.id);
      var p2 := p1.neighbor;
      StatePeer(PortViews(), counts, p1.id);
      if p2 != null {
        StatePeer(PortViews(), counts, p2.id);
      }
      if p2 == null || p1 == p2 || p2.neighbor != p1 {
        return false;
      }
      StateRemoved(Infos(), PortViews(), counts, p1.id, p2.id);
      Cut(p1, p2);
      return true;
    }
  }
}
