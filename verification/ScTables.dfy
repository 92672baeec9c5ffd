/** QOSDataAddSCSCMap and QOSDataLookupSCSCMap: one list of SC-to-SC tables per ingress port, each table
    held once with the mask of the egress ports that use it. */
module ScTables {
  import opened Fabrics

  type Table = seq<nat>

  datatype Entry = Entry(ports: set<nat>, table: Table)

  /** Masks are nonempty and disjoint, tables distinct. */
  predicate ListOk(es: seq<Entry>) {
    && (forall i | 0 <= i < |es| :: es[i].ports != {})
    && (forall i, j | 0 <= i < j < |es| :: es[i].table != es[j].table && es[i].ports !! es[j].ports)
  }

  /** The list gives egress port `q` the table `t`. */
  predicate Maps(es: seq<Entry>, q: nat, t: Table) {
    exists i | 0 <= i < |es| :: q in es[i].ports && es[i].table == t
  }

  function Lookup(es: seq<Entry>, q: nat): Option<Table> {
    if es == [] then None
    else if q in es[0].ports then Some(es[0].table)
    else Lookup(es[1..], q)
  }

  lemma {:induction false} LookupExact(es: seq<Entry>, q: nat, t: Table)
    requires ListOk(es)
    ensures Lookup(es, q) == Some(t) <==> Maps(es, q, t)
    ensures Lookup(es, q) == None <==> forall i | 0 <= i < |es| :: q !in es[i].ports
  {
    if es != [] {
      var rest := es[1..];
      LookupExact(rest, q, t);
      assert forall i | 0 <= i < |rest| :: rest[i] == es[i + 1];
      if Maps(es, q, t) && q !in es[0].ports {
        var i :| 0 <= i < |es| && q in es[i].ports && es[i].table == t;
        assert rest[i - 1] == es[i];
      }
    }
  }

  // ---- Adding a table ----

  function Touch(e: Entry, port: nat, t: Table): Entry {
    if e.table == t then Entry(e.ports + {port}, t) else Entry(e.ports - {port}, e.table)
  }

  function Touched(es: seq<Entry>, port: nat, t: Table): seq<Entry> {
    seq(|es|, i requires 0 <= i < |es| => Touch(es[i], port, t))
  }

  /** Entry `i` loses its only port. */
  predicate Emptied(es: seq<Entry>, port: nat, t: Table, i: nat)
    requires i < |es|
  {
    es[i].table != t && es[i].ports == {port}
  }

  predicate HasTable(es: seq<Entry>, t: Table) {
    exists i | 0 <= i < |es| :: es[i].table == t
  }

  /** The list after a port is given a table: `gap` is the entry left without ports, if any. */
  function AddTable(es: seq<Entry>, port: nat, t: Table, gap: Option<nat>): seq<Entry>
    requires gap.Some? ==> gap.value < |es|
  {
    var ts := Touched(es, port, t);
    if HasTable(es, t) then
      if gap.Some? then ts[..gap.value] + ts[gap.value + 1..] else ts
    else
      if gap.Some? then ts[gap.value := Entry({port}, t)] else ts + [Entry({port}, t)]
  }

  predicate GapOk(es: seq<Entry>, port: nat, t: Table, gap: Option<nat>) {
    && (gap.Some? ==> gap.value < |es|)
    && forall i | 0 <= i < |es| :: Emptied(es, port, t, i) <==> gap == Some(i)
  }

  predicate Apart(a: Entry, b: Entry) {
    a.table != b.table && a.ports !! b.ports
  }

  lemma TouchedApart(es: seq<Entry>, port: nat, t: Table, i: nat, j: nat)
    requires ListOk(es) && i < j < |es|
    ensures Apart(Touch(es[i], port, t), Touch(es[j], port, t))
  {
  }

  lemma TouchedKeeps(es: seq<Entry>, port: nat, t: Table, i: nat)
    requires ListOk(es) && i < |es| && !Emptied(es, port, t, i)
    ensures Touch(es[i], port, t).ports != {}
    ensures es[i].table != t ==> Apart(Touch(es[i], port, t), Entry({port}, t))
  {
    var e := es[i];
    assert e.ports - {port} == {} ==> e.ports <= {port};
    assert e.ports <= {port} ==> e.ports == {} || e.ports == {port};
  }

  /** Every entry of the new list is a touched old one, or the new one if the table was not there; the
      order is kept. */
  function Origin(es: seq<Entry>, t: Table, gap: Option<nat>, j: nat): Option<nat> {
    if HasTable(es, t) then Some(if gap.Some? && j >= gap.value then j + 1 else j)
    else if gap == Some(j) || j == |es| then None else Some(j)
  }

  lemma AddTableAt(es: seq<Entry>, port: nat, t: Table, gap: Option<nat>, j: nat)
    requires GapOk(es, port, t, gap) && j < |AddTable(es, port, t, gap)|
    ensures var o := Origin(es, t, gap, j);
            && AddTable(es, port, t, gap)[j]
               == (if o.Some? && o.value < |es| then Touch(es[o.value], port, t) else Entry({port}, t))
            && (o.Some? ==> o.value < |es| && gap != o)
  {
  }

  lemma AddTableOk(es: seq<Entry>, port: nat, t: Table, gap: Option<nat>)
    requires ListOk(es) && GapOk(es, port, t, gap)
    ensures ListOk(AddTable(es, port, t, gap))
  {
    hide AddTable, Touch;
    var after := AddTable(es, port, t, gap);
    forall i | 0 <= i < |after|
      ensures after[i].ports != {}
    {
      AddTableAt(es, port, t, gap, i);
      var o := Origin(es, t, gap, i);
      if o.Some? {
        TouchedKeeps(es, port, t, o.value);
      }
    }
    forall i, j | 0 <= i < j < |after|
      ensures Apart(after[i], after[j])
    {
      AddTableAt(es, port, t, gap, i);
      AddTableAt(es, port, t, gap, j);
      var o, p := Origin(es, t, gap, i), Origin(es, t, gap, j);
      AddTableSize(es, port, t, gap);
      if o.Some? && p.Some? {
        TouchedApart(es, port, t, o.value, p.value);
      } else if o.Some? {
        TouchedKeeps(es, port, t, o.value);
      } else if p.Some? {
        TouchedKeeps(es, port, t, p.value);
      }
    }
  }

  lemma AddTableSize(es: seq<Entry>, port: nat, t: Table, gap: Option<nat>)
    requires GapOk(es, port, t, gap)
    ensures |AddTable(es, port, t, gap)| == |es| + (if HasTable(es, t) then 0 else 1) - (if gap.Some? then 1 else 0)
  {
  }

  /** The added port reads back its table, and every other port what it read before. */
  lemma AddTableMaps(es: seq<Entry>, port: nat, t: Table, gap: Option<nat>, q: nat)
    requires ListOk(es) && GapOk(es, port, t, gap)
    ensures Lookup(AddTable(es, port, t, gap), q) == if q == port then Some(t) else Lookup(es, q)
  {
    var ts, after := Touched(es, port, t), AddTable(es, port, t, gap);
    AddTableOk(es, port, t, gap);
    if q == port {
      if HasTable(es, t) {
        var i :| 0 <= i < |es| && es[i].table == t;
        AddTableKeeps(es, port, t, gap, i);
      } else {
        var k := if gap.Some? then gap.value else |es|;
        assert after[k] == Entry({port}, t);
      }
      assert Maps(after, port, t);
      LookupExact(after, port, t);
    } else {
      match Lookup(es, q) {
        case Some(u) =>
          LookupExact(es, q, u);
          var i :| 0 <= i < |es| && q in es[i].ports && es[i].table == u;
          AddTableKeeps(es, port, t, gap, i);
          assert Maps(after, q, u);
          LookupExact(after, q, u);
        case None =>
          LookupExact(es, q, t);
          LookupExact(after, q, t);
          forall j | 0 <= j < |after|
            ensures q !in after[j].ports
          {
            AddTableAt(es, port, t, gap, j);
          }
      }
    }
  }

  /** Every entry but the emptied one is still in the list. */
  lemma AddTableKeeps(es: seq<Entry>, port: nat, t: Table, gap: Option<nat>, i: nat)
    requires GapOk(es, port, t, gap) && i < |es| && gap != Some(i)
    ensures Touch(es[i], port, t) in AddTable(es, port, t, gap)
  {
    var after := AddTable(es, port, t, gap);
    var j := if HasTable(es, t) && gap.Some? && gap.value < i then i - 1 else i;
    assert after[j] == Touched(es, port, t)[i];
  }

  class ScscList {
    const numPorts: nat
    var entries: seq<Entry>

    constructor (numPorts: nat)
      ensures Valid() && entries == [] && this.numPorts == numPorts
    {
      this.numPorts := numPorts;
      entries := [];
    }

    ghost predicate Valid()
      reads this
    {
      ListOk(entries) && forall i | 0 <= i < |entries| :: forall q <- entries[i].ports :: q <= numPorts
    }

    method LookupScsc(port: nat) returns (r: Option<Table>)
      ensures r == Lookup(entries, port)
    {
      var i := 0;
      while i < |entries|
        invariant 0 <= i <= |entries|
        invariant Lookup(entries, port) == Lookup(entries[i..], port)
      {
        if port in entries[i].ports {
          return Some(entries[i].table);
        }
        assert entries[i..][1..] == entries[i + 1..];
        i := i + 1;
      }
      return None;
    }

    /** How many ports, 0 to `numPorts`, are in a mask. */
    method PortsSet(mask: set<nat>) returns (n: nat)
      ensures n == 0 <==> forall q <- mask :: q > numPorts
    {
      n := 0;
      var q := 0;
      while q <= numPorts
        invariant 0 <= q <= numPorts + 1
        invariant n == 0 <==> forall p <- mask :: p >= q
      {
        if q in mask {
          n := n + 1;
        }
        q := q + 1;
      }
    }

    method AddScsc(port: nat, table: Table)
      requires Valid() && port <= numPorts
      modifies this
      ensures Valid()
      ensures forall q :: Lookup(entries, q) == if q == port then Some(table) else Lookup(old(entries), q)
    {
      ghost var es := entries;
      var gap: Option<nat> := None;
      var found := false;
      var i := 0;
      while i < |entries|
        invariant 0 <= i <= |entries| == |es|
        invariant forall k | 0 <= k < |es| :: entries[k] == if k < i then Touch(es[k], port, table) else es[k]
        invariant found <==> HasTable(es[..i], table)
        invariant gap.Some? ==> gap.value < i
        invariant forall k | 0 <= k < i :: Emptied(es, port, table, k) <==> gap == Some(k)
      {
        assert es[..i + 1] == es[..i] + [es[i]];
        if entries[i].table == table {
          entries := entries[i := Entry(entries[i].ports + {port}, table)];
          found := true;
        } else if port in entries[i].ports {
          entries := entries[i := Entry(entries[i].ports - {port}, entries[i].table)];
          var n := PortsSet(entries[i].ports);
          assert n == 0 <==> es[i].ports - {port} == {} by {
            assert forall q <- es[i].ports - {port} :: q <= numPorts;
          }
          if n == 0 {
            gap := Some(i);
          }
        }
        assert es[i].table != table ==>
          (Emptied(es, port, table, i) <==> port in es[i].ports && es[i].ports - {port} == {});
        i := i + 1;
      }
      assert es[..i] == es && entries == Touched(es, port, table) && found == HasTable(es, table);
      ghost var touched := entries;
      if found {
        if gap.Some? {
          entries := entries[..gap.value] + entries[gap.value + 1..];
        }
      } else if gap.Some? {
        assert Emptied(es, port, table, gap.value) && entries[gap.value].ports + {port} == {port};
        entries := entries[gap.value := Entry(entries[gap.value].ports + {port}, table)];
        assert entries == touched[gap.value := Entry({port}, table)];
      } else {
        entries := entries + [Entry({port}, table)];
      }
      assert entries == AddTable(es, port, table, gap);
      AddTableOk(es, port, table, gap);
      forall q
        ensures Lookup(entries, q) == if q == port then Some(table) else Lookup(es, q)
      {
        AddTableMaps(es, port, table, gap, q);
      }
      forall j, q | 0 <= j < |entries| && q in entries[j].ports
        ensures q <= numPorts
      {
        AddTableAt(es, port, table, gap, j);
      }
    }
  }
}
