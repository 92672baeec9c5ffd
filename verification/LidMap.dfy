/** The LID array of a fabric: AllLidsAdd, AllLidsRemove and PartialLidsRemove over a two-level table
    whose blocks are allocated on first use. */
module LidMaps {
  import opened Fabrics

  const BLOCKS := 0x400
  const ENTRIES := 0x4000
  const LID_MAX := 0xff_ffff
  const LMC_LIMIT := 16  // the LMC field of a port has four bits

  datatype PortState = Nop | Down | Init | Armed | Active

  datatype LidPort = LidPort(guid: nat, lid: nat, lmc: nat, state: PortState, isSwitchPort0: bool)

  datatype LidStatus = LidSuccess | LidDuplicate | LidError

  type Registry = map<nat, LidPort>  // all port records, by identity
  type LidTable = map<nat, nat>      // the port filed under each LID

  predicate Aligned(p: LidPort) {
    p.lmc < LMC_LIMIT && p.lid % Pow2(p.lmc) == 0
  }

  ghost predicate PortsOk(ports: Registry) {
    forall p <- ports :: Aligned(ports[p])
  }

  /** `lid | ((1 << lmc) - 1)` */
  function LastLid(p: LidPort): nat {
    p.lid - p.lid % Pow2(p.lmc) + Pow2(p.lmc) - 1
  }

  predicate Within(lo: nat, hi: nat, l: nat) {
    lo <= l < hi
  }

  function Span(lo: nat, hi: nat): set<nat> {
    set l: nat {:trigger Within(lo, hi, l)} | l < hi && Within(lo, hi, l)
  }

  function Block(p: LidPort): set<nat> {
    Span(p.lid, LastLid(p) + 1)
  }

  lemma {:induction false} SpanSize(lo: nat, hi: nat)
    requires lo <= hi
    ensures |Span(lo, hi)| == hi - lo
  {
    if lo == hi {
      assert Span(lo, hi) == {};
    } else {
      SpanSize(lo, hi - 1);
      assert Span(lo, hi) == Span(lo, hi - 1) + {hi - 1};
    }
  }

  lemma BlockSize(p: LidPort)
    requires Aligned(p)
    ensures LastLid(p) == p.lid + Pow2(p.lmc) - 1
    ensures Block(p) == Span(p.lid, p.lid + Pow2(p.lmc)) && |Block(p)| == Pow2(p.lmc)
  {
    SpanSize(p.lid, p.lid + Pow2(p.lmc));
  }

  lemma {:induction false} Pow2Divides(a: nat, b: nat)
    requires a <= b
    ensures Pow2(b) == Pow2(a) * Pow2(b - a)
  {
    if a < b {
      Pow2Divides(a, b - 1);
      assert Pow2(b) == 2 * (Pow2(a) * Pow2(b - 1 - a)) == Pow2(a) * (2 * Pow2(b - 1 - a));
    }
  }

  lemma ProductOrder(n: nat, a: nat, b: nat)
    requires n * a < n * b
    ensures n * (a + 1) <= n * b
  {
    assert a < b by {
      assert n * a - n * b == n * (a - b);
    }
    assert n * b == n * (a + 1) + n * (b - a - 1);
  }

  lemma MultipleBelow(x: nat, n: nat, m: nat)
    requires n > 0 && x % n == 0 && x < n * m
    ensures x + n <= n * m
  {
    ProductOrder(n, x / n, m);
  }

  lemma TableSize()
    ensures Pow2(24) == LID_MAX + 1
  {
    assert Pow2(8) == 256;
    Pow2Divides(8, 24);
    Pow2Divides(8, 16);
  }

  /** The check on the base LID is enough: the last LID of an aligned range is in the table too. */
  lemma LastLidFits(p: LidPort)
    requires Aligned(p) && p.lid <= LID_MAX
    ensures LastLid(p) <= LID_MAX
  {
    hide Pow2;
    TableSize();
    Pow2Divides(p.lmc, 24);
    MultipleBelow(p.lid, Pow2(p.lmc), Pow2(24 - p.lmc));
  }

  // ---- The table as a map ----

  function Find(t: LidTable, lid: nat): Option<nat> {
    if lid in t then Some(t[lid]) else None
  }

  /** Port `p` owns its whole block. */
  predicate Owns(ports: Registry, t: LidTable, p: nat)
    requires p in ports
  {
    forall l <- Block(ports[p]) :: Find(t, l) == Some(p)
  }

  /** An occupied LID lies in the block of its port, and that port owns the whole block. */
  predicate FiledRight(ports: Registry, t: LidTable, l: nat)
    requires l in t
  {
    t[l] in ports && ports[t[l]].guid != 0 && l in Block(ports[t[l]]) && Owns(ports, t, t[l])
  }

  ghost predicate TableOk(ports: Registry, t: LidTable) {
    forall l {:trigger FiledRight(ports, t, l)} :: l in t ==> FiledRight(ports, t, l)
  }

  predicate IsFiled(t: LidTable, p: nat) {
    exists l <- t :: t[l] == p
  }

  /** Whether a port is one AllLidsAdd files: a GUID, and armed, active, or a switch port 0 without state. */
  predicate Eligible(p: LidPort) {
    p.guid != 0 && (p.state == Active || p.state == Armed || (p.isSwitchPort0 && p.state == Nop))
  }

  /** Another port holds one of the LIDs of `p`. */
  predicate Conflicted(ports: Registry, t: LidTable, p: nat)
    requires p in ports
  {
    exists l <- Block(ports[p]) :: l in t && t[l] != p
  }

  /** `t` without the ports other than `p` that hold a LID in `lids`, and with `p` filed under `lids`. */
  function Displaced(t: LidTable, p: nat, lids: set<nat>): LidTable {
    map l | l in t.Keys + lids && (l in lids || t[l] == p || !HoldsAny(t, t[l], lids)) ::
      if l in lids then p else t[l]
  }

  /** Port `q` is filed under one of `lids`. */
  predicate HoldsAny(t: LidTable, q: nat, lids: set<nat>) {
    exists l <- lids :: l in t && t[l] == q
  }

  function AddedTable(ports: Registry, t: LidTable, p: nat, force: bool): LidTable
    requires p in ports
  {
    if !Eligible(ports[p]) || ports[p].lid > LID_MAX || (Conflicted(ports, t, p) && !force) then t
    else Displaced(t, p, Block(ports[p]))
  }

  function AddStatus(ports: Registry, t: LidTable, p: nat): LidStatus
    requires p in ports
  {
    if !Eligible(ports[p]) then LidSuccess
    else if ports[p].lid > LID_MAX then LidError
    else if Conflicted(ports, t, p) then LidDuplicate
    else LidSuccess
  }

  // ---- What adds and removes mean for the ports ----

  lemma OwnsIsRegistered(ports: Registry, t: LidTable, p: nat)
    requires PortsOk(ports) && TableOk(ports, t) && p in ports
    ensures IsFiled(t, p) <==> Owns(ports, t, p)
  {
    if IsFiled(t, p) {
      var l :| l in t && t[l] == p;
      assert FiledRight(ports, t, l);
    }
    BlockSize(ports[p]);
    if Owns(ports, t, p) {
      assert ports[p].lid in Block(ports[p]);
    }
  }

  /** A forced add registers `p`, drops exactly the ports whose LIDs overlap those of `p`, and leaves
      every other port as it was. */
  lemma ForcedAdd(ports: Registry, t: LidTable, p: nat, q: nat)
    requires PortsOk(ports) && TableOk(ports, t) && p in ports && q in ports
    requires Eligible(ports[p])
    ensures var after := Displaced(t, p, Block(ports[p]));
            && TableOk(ports, after)
            && IsFiled(after, p)
            && (q != p ==>
                  (IsFiled(after, q) <==> IsFiled(t, q) && Block(ports[p]) !! Block(ports[q])))
  {
    var lids := Block(ports[p]);
    var after := Displaced(t, p, lids);
    BlockSize(ports[p]);
    assert ports[p].lid in lids && ports[p].lid in after && after[ports[p].lid] == p;
    forall l | l in after
      ensures FiledRight(ports, after, l)
    {
      DisplacedFiled(ports, t, p, l);
    }
    if q != p && IsFiled(t, q) {
      var l :| l in t && t[l] == q;
      assert FiledRight(ports, t, l);
      if lids !! Block(ports[q]) {
        assert !HoldsAny(t, q, lids) by {
          forall m | m in lids && m in t
            ensures t[m] != q
          {
            assert FiledRight(ports, t, m);
          }
        }
        assert l in after && after[l] == q;
      } else {
        var m :| m in lids && m in Block(ports[q]);
        assert Find(t, m) == Some(q);
        assert HoldsAny(t, q, lids);
      }
    }
  }

  lemma DisplacedFiled(ports: Registry, t: LidTable, p: nat, l: nat)
    requires PortsOk(ports) && TableOk(ports, t) && p in ports && Eligible(ports[p])
    requires l in Displaced(t, p, Block(ports[p]))
    ensures FiledRight(ports, Displaced(t, p, Block(ports[p])), l)
  {
    var lids := Block(ports[p]);
    var after := Displaced(t, p, lids);
    if l !in lids {
      assert FiledRight(ports, t, l);
      var q := t[l];
      forall m | m in Block(ports[q])
        ensures Find(after, m) == Some(q)
      {
        assert Find(t, m) == Some(q);
      }
    }
  }

  /** Removing a registered port frees its block and leaves the other ports as they were. */
  lemma RemovedPort(ports: Registry, t: LidTable, p: nat, q: nat)
    requires PortsOk(ports) && TableOk(ports, t) && p in ports && q in ports && Owns(ports, t, p)
    ensures var after := t - Block(ports[p]);
            TableOk(ports, after) && (IsFiled(after, q) <==> IsFiled(t, q) && q != p)
  {
    var lids := Block(ports[p]);
    var after := t - lids;
    forall l | l in after
      ensures FiledRight(ports, after, l)
    {
      assert FiledRight(ports, t, l);
      forall m | m in Block(ports[t[l]])
        ensures Find(after, m) == Some(t[l])
      {
        assert Find(t, m) == Some(t[l]);
        assert m in lids ==> Find(t, m) == Some(p);
        assert t[l] == p ==> l in lids;
      }
    }
    if IsFiled(t, q) && q != p {
      var l :| l in t && t[l] == q;
      assert l in lids ==> Find(t, l) == Some(p);
      assert l in after && after[l] == q;
    }
    if IsFiled(after, q) {
      var l :| l in after && after[l] == q;
      assert FiledRight(ports, t, l);
    }
  }

  /** A refused add concerned an unregistered port. */
  lemma ConflictedIsUnregistered(ports: Registry, t: LidTable, p: nat)
    requires PortsOk(ports) && TableOk(ports, t) && p in ports && Conflicted(ports, t, p)
    ensures !IsFiled(t, p) && forall l <- Block(ports[p]) :: Find(t, l) != Some(p)
  {
    var c :| c in Block(ports[p]) && c in t && t[c] != p;
    forall l | l in t
      ensures t[l] != p
    {
      assert FiledRight(ports, t, l);
      assert t[l] == p ==> Find(t, c) == Some(p);
    }
  }

  /** Whether AllLidsRemove takes the port for a registered one. */
  predicate Removes(ports: Registry, t: LidTable, p: nat)
    requires p in ports
  {
    ports[p].guid != 0 && (ports[p].state == Armed || ports[p].state == Active || Find(t, ports[p].lid) == Some(p))
  }

  lemma OwnerRemoves(ports: Registry, t: LidTable, p: nat)
    requires p in ports && Aligned(ports[p]) && ports[p].guid != 0 && Owns(ports, t, p)
    ensures Removes(ports, t, p)
  {
    BlockSize(ports[p]);
    assert ports[p].lid in Block(ports[p]);
  }

  /** A removal keeps the count of LIDs right if and only if the whole block was filed: an armed port that
      was refused by AllLidsAdd makes it wrong. */
  lemma RemoveCountExact(ports: Registry, t: LidTable, p: nat)
    requires p in ports && Aligned(ports[p])
    ensures |t - Block(ports[p])| == |t| - Pow2(ports[p].lmc) <==> Block(ports[p]) <= t.Keys
  {
    hide Pow2, Block;
    BlockSize(ports[p]);
    DropCount(t, Block(ports[p]));
  }

  lemma DropCount(t: LidTable, b: set<nat>)
    ensures |t - b| == |t| - |b| <==> b <= t.Keys
  {
    var both := t.Keys * b;
    assert (t - b).Keys == t.Keys - both && |t - b| == |(t - b).Keys| && |t| == |t.Keys|;
    assert |t.Keys - both| == |t.Keys| - |both|;
    assert |b - both| == |b| - |both| && b - both == b - t.Keys;
  }

  /** The block of `p` is filled, by ports whose own blocks lie in it: by `p` itself if it is registered. */
  predicate Whole(ports: Registry, t: LidTable, p: nat)
    requires p in ports
  {
    forall l <- Block(ports[p]) :: l in t && t[l] in ports && Block(ports[t[l]]) <= Block(ports[p])
  }

  lemma RegisteredWhole(ports: Registry, t: LidTable, p: nat)
    requires PortsOk(ports) && TableOk(ports, t) && p in ports && IsFiled(t, p)
    ensures Whole(ports, t, p)
  {
    OwnsIsRegistered(ports, t, p);
    forall l | l in Block(ports[p])
      ensures l in t && t[l] == p
    {
      assert Find(t, l) == Some(p);
    }
  }

  /** A removal keeps the table and the count of LIDs right if and only if it removes whole blocks. */
  lemma RemoveExact(ports: Registry, t: LidTable, p: nat)
    requires PortsOk(ports) && TableOk(ports, t) && p in ports
    ensures TableOk(ports, t - Block(ports[p])) && |t - Block(ports[p])| == |t| - Pow2(ports[p].lmc)
            <==> Whole(ports, t, p)
  {
    hide Pow2, Block;
    var after := t - Block(ports[p]);
    RemoveCountExact(ports, t, p);
    if Whole(ports, t, p) {
      forall l | l in after
        ensures FiledRight(ports, after, l)
      {
        assert FiledRight(ports, t, l);
        forall m | m in Block(ports[t[l]])
          ensures Find(after, m) == Some(t[l])
        {
          assert Find(t, m) == Some(t[l]);
        }
      }
    } else if Block(ports[p]) <= t.Keys {
      NotWhole(ports, t, p);
    }
  }

  lemma NotWhole(ports: Registry, t: LidTable, p: nat)
    requires PortsOk(ports) && TableOk(ports, t) && p in ports && !Whole(ports, t, p) && Block(ports[p]) <= t.Keys
    ensures !TableOk(ports, t - Block(ports[p]))
  {
    hide Pow2, Block;
    var after := t - Block(ports[p]);
    var l :| l in Block(ports[p]) && !(t[l] in ports && Block(ports[t[l]]) <= Block(ports[p]));
    assert FiledRight(ports, t, l);
    var q := t[l];
    var m :| m in Block(ports[q]) && m !in Block(ports[p]);
    assert Find(t, m) == Some(q);
    assert m in after && after[m] == q;
    assert Find(after, l) == None;
    assert !FiledRight(ports, after, m);
  }

  // ---- Runs of adds and removes ----

  datatype Op = Add(port: nat, force: bool) | Remove(port: nat)

  datatype LidState = LidState(table: LidTable, count: int)

  /** An add counts every LID that it files, and takes back those of the ports it drops. */
  function Apply(ports: Registry, s: LidState, op: Op): LidState
    requires op.port in ports
  {
    match op {
      case Add(p, force) =>
        var t := AddedTable(ports, s.table, p, force);
        LidState(t, s.count + |t| - |s.table|)
      case Remove(p) =>
        if Removes(ports, s.table, p) then LidState(s.table - Block(ports[p]), s.count - Pow2(ports[p].lmc)) else s
    }
  }

  ghost predicate OpsOk(ports: Registry, ops: seq<Op>) {
    forall op <- ops :: op.port in ports
  }

  function Run(ports: Registry, ops: seq<Op>): LidState
    requires OpsOk(ports, ops)
  {
    if ops == [] then LidState(map[], 0) else Apply(ports, Run(ports, ops[..|ops| - 1]), ops[|ops| - 1])
  }

  /** Every registered port owns its whole block and nothing else, and the count is the number of
      occupied LIDs. */
  ghost predicate StateOk(ports: Registry, s: LidState) {
    TableOk(ports, s.table) && s.count == |s.table|
  }

  ghost predicate AlwaysOk(ports: Registry, ops: seq<Op>)
    requires OpsOk(ports, ops)
  {
    StateOk(ports, Run(ports, ops)) && (ops == [] || AlwaysOk(ports, ops[..|ops| - 1]))
  }

  predicate StepFits(ports: Registry, t: LidTable, op: Op)
    requires op.port in ports
  {
    op.Remove? && Removes(ports, t, op.port) ==> Whole(ports, t, op.port)
  }

  /** Every removal of the run is of whole blocks: of a registered port, say, or of one that is ignored. */
  ghost predicate RunFits(ports: Registry, ops: seq<Op>)
    requires OpsOk(ports, ops)
  {
    ops == []
    || (RunFits(ports, ops[..|ops| - 1]) && StepFits(ports, Run(ports, ops[..|ops| - 1]).table, ops[|ops| - 1]))
  }

  lemma StepExact(ports: Registry, s: LidState, op: Op)
    requires PortsOk(ports) && op.port in ports && StateOk(ports, s)
    ensures StateOk(ports, Apply(ports, s, op)) <==> StepFits(ports, s.table, op)
  {
    hide Pow2, Block;
    match op {
      case Add(p, force) =>
        if Eligible(ports[p]) {
          ForcedAdd(ports, s.table, p, p);
        }
      case Remove(p) =>
        RemoveExact(ports, s.table, p);
    }
  }

  /** All through a run every registered port owns its whole block and nothing else, and the count is the
      number of occupied LIDs, if and only if the run removes whole blocks only. */
  lemma {:induction false} RunOk(ports: Registry, ops: seq<Op>)
    requires PortsOk(ports) && OpsOk(ports, ops)
    ensures AlwaysOk(ports, ops) <==> RunFits(ports, ops)
  {
    hide Apply, StateOk, StepFits;
    if ops == [] {
      NothingFiled(ports);
    } else {
      var before := ops[..|ops| - 1];
      RunOk(ports, before);
      if AlwaysOk(ports, before) {
        StepExact(ports, Run(ports, before), ops[|ops| - 1]);
      }
    }
  }

  lemma NothingFiled(ports: Registry)
    ensures StateOk(ports, LidState(map[], 0))
  {
  }

  /** No other port holds one of `lids`. */
  predicate Clear(t: LidTable, p: nat, lids: set<nat>) {
    forall l <- lids :: Find(t, l) == None || Find(t, l) == Some(p)
  }

  // ---- One step of an add ----

  lemma HeldIsNotClear(t: LidTable, p: nat, q: nat, lids: set<nat>)
    requires q != p && HoldsAny(t, q, lids)
    ensures !Clear(t, p, lids)
  {
    var k :| k in lids && k in t && t[k] == q;
    assert Find(t, k) == Some(q);
  }

  lemma NothingYet(t: LidTable, p: nat, lo: nat)
    ensures Displaced(t, p, Span(lo, lo)) == t && Clear(t, p, Span(lo, lo))
  {
    assert Span(lo, lo) == {};
  }

  /** The next LID is free, or held by `p`. */
  lemma StepFree(t: LidTable, p: nat, lo: nat, l: nat)
    requires lo <= l
    requires var now := Displaced(t, p, Span(lo, l)); Find(now, l) == None || Find(now, l) == Some(p)
    ensures Displaced(t, p, Span(lo, l + 1)) == Displaced(t, p, Span(lo, l))[l := p]
    ensures Clear(t, p, Span(lo, l + 1)) <==> Clear(t, p, Span(lo, l))
    ensures Find(Displaced(t, p, Span(lo, l)), l) == Some(p) ==>
              Displaced(t, p, Span(lo, l + 1)) == Displaced(t, p, Span(lo, l))
    ensures Find(Displaced(t, p, Span(lo, l)), l) == None ==> l !in Displaced(t, p, Span(lo, l))
  {
    var s, s' := Span(lo, l), Span(lo, l + 1);
    assert s' == s + {l};
    forall q | q != p && HoldsAny(t, q, s')
      ensures HoldsAny(t, q, s)
    {
    }
    if l in t && t[l] != p {
      HeldIsNotClear(t, p, t[l], s);
    }
  }

  /** The next LID is held by another port, which is removed. */
  lemma StepTaken(ports: Registry, t: LidTable, p: nat, q: nat, lo: nat, l: nat)
    requires PortsOk(ports) && TableOk(ports, t) && lo <= l && q != p
    requires Find(Displaced(t, p, Span(lo, l)), l) == Some(q)
    ensures q in ports && ports[q].guid != 0 && Aligned(ports[q])
    ensures var now := Displaced(t, p, Span(lo, l));
            && Owns(ports, now, q) && l !in now - Block(ports[q])
            && Displaced(t, p, Span(lo, l + 1)) == (now - Block(ports[q]))[l := p]
    ensures !Clear(t, p, Span(lo, l + 1))
  {
    var s, s', now := Span(lo, l), Span(lo, l + 1), Displaced(t, p, Span(lo, l));
    assert s' == s + {l} && l !in s;
    assert q == t[l];
    assert FiledRight(ports, t, l);
    forall m | m in Block(ports[q])
      ensures Find(now, m) == Some(q)
    {
      assert Find(t, m) == Some(q);
      assert m in s ==> HoldsAny(t, q, s);
    }
    forall m | m in t
      ensures m in Block(ports[q]) <==> t[m] == q
    {
      assert FiledRight(ports, t, m);
      assert m in Block(ports[q]) ==> Find(t, m) == Some(q);
    }
    assert HoldsAny(t, q, s');
    assert Find(t, l) == Some(q);
  }

  /** An add refused at `l` leaves the table as it was. */
  lemma StepRefused(ports: Registry, t: LidTable, p: nat, q: nat, l: nat)
    requires PortsOk(ports) && TableOk(ports, t) && p in ports && ports[p].lid <= l <= LastLid(ports[p])
    requires q != p && Find(Displaced(t, p, Span(ports[p].lid, l)), l) == Some(q)
    requires Clear(t, p, Span(ports[p].lid, l))
    ensures Conflicted(ports, t, p)
    ensures Span(ports[p].lid, l) <= Displaced(t, p, Span(ports[p].lid, l)).Keys
    ensures Displaced(t, p, Span(ports[p].lid, l)) - Span(ports[p].lid, l) == t
    ensures |Displaced(t, p, Span(ports[p].lid, l))| == |t| + (l - ports[p].lid)
  {
    var s := Span(ports[p].lid, l);
    var now := Displaced(t, p, s);
    assert l in Block(ports[p]) && l in t && t[l] != p;
    ConflictedIsUnregistered(ports, t, p);
    forall m | m in s
      ensures m !in t
    {
      assert m in Block(ports[p]);
      assert Find(t, m) == None || Find(t, m) == Some(p);
    }
    assert now - s == t;
    SpanSize(ports[p].lid, l);
    assert now.Keys == t.Keys + s && t.Keys !! s;
    assert |now| == |now.Keys| && |t| == |t.Keys|;
  }

  lemma Grows(t: LidTable, l: nat, p: nat)
    requires l !in t
    ensures |t[l := p]| == |t| + 1
  {
    assert t[l := p].Keys == t.Keys + {l};
    assert |t[l := p]| == |t[l := p].Keys| && |t| == |t.Keys|;
  }

  lemma RemoveCount(ports: Registry, t: LidTable, q: nat)
    requires q in ports && Aligned(ports[q]) && Owns(ports, t, q)
    ensures |t - Block(ports[q])| == |t| - Pow2(ports[q].lmc)
  {
    var b := Block(ports[q]);
    BlockSize(ports[q]);
    forall l | l in b
      ensures l in t
    {
      assert Find(t, l) == Some(q);
    }
    assert (t - b).Keys == t.Keys - b && b <= t.Keys;
    assert |t - b| == |(t - b).Keys| && |t| == |t.Keys|;
  }

  lemma ClearIsUnconflicted(ports: Registry, t: LidTable, p: nat)
    requires p in ports
    ensures Clear(t, p, Block(ports[p])) <==> !Conflicted(ports, t, p)
  {
    if Clear(t, p, Block(ports[p])) {
      forall l | l in Block(ports[p]) && l in t
        ensures t[l] == p
      {
        assert Find(t, l) == None || Find(t, l) == Some(p);
      }
    }
  }

  // ---- The two-level table ----

  type LidBlock = array<Option<nat>>

  class LidMap {
    const blocks: array<array?<Option<nat>>>
    var lidCount: int
    ghost var table: LidTable
    ghost var repr: set<object>

    ghost predicate Shape()
      reads this`table, this`repr, repr
    {
      && blocks in repr && blocks.Length == BLOCKS
      && (forall b | 0 <= b < BLOCKS && blocks[b] != null :: blocks[b] in repr && blocks[b].Length == ENTRIES)
      && (forall b, c | 0 <= b < c < BLOCKS && blocks[b] != null :: blocks[b] != blocks[c])
    }

    /** What the two levels hold for a LID. */
    ghost function Entry(lid: nat): Option<nat>
      requires Shape() && lid <= LID_MAX
      reads this`table, this`repr, repr
    {
      if blocks[lid / ENTRIES] == null then None else blocks[lid / ENTRIES][lid % ENTRIES]
    }

    ghost predicate Refines(lid: nat)
      requires Shape()
      reads this`table, this`repr, repr
    {
      if lid <= LID_MAX then Entry(lid) == Find(table, lid) else lid !in table
    }

    /** The two levels together are a flat map. */
    ghost predicate Tables()
      reads this`table, this`repr, repr
    {
      this !in repr && Shape() && forall lid: nat {:trigger Refines(lid)} :: Refines(lid)
    }

    ghost predicate Valid(ports: Registry)
      reads this, repr
    {
      Tables() && PortsOk(ports) && TableOk(ports, table) && lidCount == |table|
    }

    constructor ()
      ensures Tables() && fresh(repr) && table == map[] && lidCount == 0
    {
      var none: array<array?<Option<nat>>> := new array?<Option<nat>>[BLOCKS](_ => null);
      blocks, lidCount, table, repr := none, 0, map[], {none};
    }

    method GetMapEntry(lid: nat) returns (r: Option<nat>)
      requires Tables()
      ensures r == Find(table, lid)
    {
      assert Refines(lid);
      if lid > LID_MAX || blocks[lid / ENTRIES] == null {
        return None;
      }
      r := blocks[lid / ENTRIES][lid % ENTRIES];
    }

    method SetMapEntry(lid: nat, port: Option<nat>) returns (status: LidStatus)
      requires Tables()
      modifies this`table, this`repr, repr
      ensures Tables() && fresh(repr - old(repr)) && old(repr) <= repr
      ensures status == if lid > LID_MAX then LidError else LidSuccess
      ensures table == if lid > LID_MAX then old(table)
                       else if port.Some? then old(table)[lid := port.value] else old(table) - {lid}
    {
      assert forall l: nat {:trigger Refines(l)} :: Refines(l);
      if lid > LID_MAX {
        return LidError;
      }
      if blocks[lid / ENTRIES] == null {
        if port == None {
          assert Refines(lid);
          assert old(table) - {lid} == old(table);
          return LidSuccess;
        }
        var b := new Option<nat>[ENTRIES](_ => None);
        blocks[lid / ENTRIES] := b;
        repr := repr + {b};
      }
      var b := blocks[lid / ENTRIES];
      b[lid % ENTRIES] := port;
      table := if port.Some? then table[lid := port.value] else table - {lid};
      forall l: nat
        ensures Refines(l)
      {
        assert old(Refines(l));
        assert l / ENTRIES == lid / ENTRIES && l % ENTRIES == lid % ENTRIES ==> l == lid;
      }
      return LidSuccess;
    }

    /** Frees the first `count` LIDs of a port. */
    method PartialLidsRemove(p: LidPort, count: nat)
      requires Tables() && p.lid + count <= LID_MAX + 1 && Span(p.lid, p.lid + count) <= table.Keys
      modifies this, repr
      ensures Tables() && fresh(repr - old(repr))
      ensures table == old(table) - Span(p.lid, p.lid + count)
      ensures lidCount == old(lidCount) - count
    {
      var lid := p.lid;
      while lid < p.lid + count
        invariant p.lid <= lid <= p.lid + count
        invariant Tables() && fresh(repr - old(repr))
        invariant table == old(table) - Span(p.lid, lid)
        invariant lidCount == old(lidCount) - (lid - p.lid)
      {
        var _ := SetMapEntry(lid, None);
        lidCount := lidCount - 1;
        lid := lid + 1;
      }
    }

    /** Frees all LIDs of a port. */
    method FreeBlock(port: LidPort)
      requires Tables()
      modifies this`table, this`repr, repr
      ensures Tables() && fresh(repr - old(repr)) && table == old(table) - Block(port)
    {
      hide Pow2;
      var lid := port.lid;
      while lid <= LastLid(port)
        invariant port.lid <= lid <= LastLid(port) + 1 || lid == port.lid
        invariant Tables() && fresh(repr - old(repr))
        invariant table == old(table) - Span(port.lid, lid)
        decreases LastLid(port) - lid
      {
        assert Refines(lid);
        assert Span(port.lid, lid + 1) == Span(port.lid, lid) + {lid};
        var _ := SetMapEntry(lid, None);
        lid := lid + 1;
      }
    }

    /** Frees the LIDs of a port. An armed or active port is taken to be registered without a look, any
        other only if it is found under its base LID. */
    method AllLidsRemove(ports: Registry, p: nat)
      requires Tables() && p in ports && Aligned(ports[p])
      modifies this, repr
      ensures Tables() && fresh(repr - old(repr))
      ensures table == if Removes(ports, old(table), p) then old(table) - Block(ports[p]) else old(table)
      ensures lidCount == if Removes(ports, old(table), p) then old(lidCount) - Pow2(ports[p].lmc) else old(lidCount)
      ensures table != old(table) ==>
                && ports[p].guid != 0
                && (ports[p].state in {Armed, Active} || (ports[p].lid in old(table) && old(table)[ports[p].lid] == p))
      ensures ports[p].guid != 0 && ports[p].state in {Armed, Active} ==> table == old(table) - Block(ports[p])
      ensures old(Valid(ports)) ==> (Valid(ports) <==> (Removes(ports, old(table), p) ==> Whole(ports, old(table), p)))
      ensures old(Valid(ports) && IsFiled(table, p)) ==> Valid(ports)
    {
      hide Pow2, Block, Whole, TableOk, IsFiled, Shape, Refines;
      if Valid(ports) {
        RemoveExact(ports, table, p);
        if IsFiled(table, p) {
          RegisteredWhole(ports, table, p);
        }
      }
      var port := ports[p];
      if port.guid == 0 {
        return;
      }
      if port.state != Armed && port.state != Active {
        var holder := GetMapEntry(port.lid);
        if holder != Some(p) {
          return;
        }
      }
      FreeBlock(port);
      lidCount := lidCount - Pow2(port.lmc);
    }

    /** Files a port under its LIDs. A conflict undoes the add, or with `force` drops the other ports. */
    method AllLidsAdd(ports: Registry, p: nat, force: bool) returns (status: LidStatus)
      requires Valid(ports) && p in ports
      modifies this, repr
      ensures Valid(ports) && fresh(repr - old(repr))
      ensures status == AddStatus(ports, old(table), p)
      ensures table == AddedTable(ports, old(table), p, force)
      ensures var port := ports[p];
              if port.guid != 0
                 && (port.state == Active || port.state == Armed || (port.state == Nop && port.isSwitchPort0))
              then status == (if port.lid > LID_MAX then LidError else
                              if exists l <- Block(port) :: l in old(table) && old(table)[l] != p
                              then LidDuplicate else LidSuccess)
                   && if port.lid > LID_MAX || (status == LidDuplicate && !force) then table == old(table)
                      else forall l <- Block(port) :: l in table && table[l] == p
              else status == LidSuccess && table == old(table)
    {
      hide Pow2, TableOk, Find, Refines, Shape, Owns, Span, Block, Clear;
      var port := ports[p];
      if port.guid == 0 {
        return LidSuccess;
      }
      if port.state != Active && port.state != Armed && !(port.isSwitchPort0 && port.state == Nop) {
        return LidSuccess;
      }
      if port.lid > LID_MAX {
        return LidError;
      }
      status := FileBlock(ports, p, force);
    }

    /** One LID of a port being added to `t`: reports whether another port held it, and either gives it to
        `p` or undoes the add. */
    method ClaimLid(ports: Registry, p: nat, lid: nat, force: bool, ghost t: LidTable) returns (taken: bool)
      requires PortsOk(ports) && TableOk(ports, t) && Tables() && lidCount == |table| && p in ports
      requires ports[p].lid <= lid <= LastLid(ports[p]) <= LID_MAX
      requires table == Displaced(t, p, Span(ports[p].lid, lid))
      requires force || Clear(t, p, Span(ports[p].lid, lid))
      modifies this, repr
      ensures Tables() && fresh(repr - old(repr)) && lidCount == |table|
      ensures taken && !force ==> table == t && Conflicted(ports, t, p)
      ensures !taken || force ==> table == Displaced(t, p, Span(ports[p].lid, lid + 1))
      ensures Clear(t, p, Span(ports[p].lid, lid + 1)) <==> Clear(t, p, Span(ports[p].lid, lid)) && !taken
    {
      hide Pow2, TableOk, Find, Displaced, Refines, Shape, Owns, Span, Block, Clear, Conflicted;
      var port := ports[p];
      taken := false;
      ghost var now := table;
      var holder := GetMapEntry(lid);
      if holder == None || holder == Some(p) {
        StepFree(t, p, port.lid, lid);
      } else {
        StepTaken(ports, t, p, holder.value, port.lid, lid);
      }
      if holder != Some(p) {
        if holder != None {
          taken := true;
          if !force {
            StepRefused(ports, t, p, holder.value, lid);
            PartialLidsRemove(port, lid - port.lid);
            return;
          }
          RemoveCount(ports, now, holder.value);
          OwnerRemoves(ports, now, holder.value);
          AllLidsRemove(ports, holder.value);
        }
        Grows(table, lid, p);
        lidCount := lidCount + 1;
        var _ := SetMapEntry(lid, Some(p));
      }
    }

    /** The LIDs of an eligible port, one after the other. */
    method FileBlock(ports: Registry, p: nat, force: bool) returns (status: LidStatus)
      requires Valid(ports) && p in ports && Eligible(ports[p]) && ports[p].lid <= LID_MAX
      modifies this, repr
      ensures Valid(ports) && fresh(repr - old(repr))
      ensures status == if Conflicted(ports, old(table), p) then LidDuplicate else LidSuccess
      ensures table == if status == LidDuplicate && !force then old(table)
                       else Displaced(old(table), p, Block(ports[p]))
    {
      hide Pow2, TableOk, Find, Displaced, Refines, Shape, Owns, Span, Block, Clear, Conflicted;
      var port := ports[p];
      BlockSize(port);
      LastLidFits(port);
      status := LidSuccess;
      NothingYet(table, p, port.lid);
      var lid := port.lid;
      while lid <= LastLid(port)
        invariant port.lid <= lid <= LastLid(port) + 1
        invariant Tables() && fresh(repr - old(repr)) && lidCount == |table|
        invariant table == Displaced(old(table), p, Span(port.lid, lid))
        invariant status == if Clear(old(table), p, Span(port.lid, lid)) then LidSuccess else LidDuplicate
        invariant status == LidDuplicate ==> force
        decreases LastLid(port) - lid
      {
        var taken := ClaimLid(ports, p, lid, force, old(table));
        if taken {
          status := LidDuplicate;
          if !force {
            return status;
          }
        }
        lid := lid + 1;
      }
      ClearIsUnconflicted(ports, old(table), p);
      ForcedAdd(ports, old(table), p, p);
    }
  }
}
