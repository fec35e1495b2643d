/** The block device tree, flattened by a bounded depth-first walk. */
module Topology {
  import opened Wrappers

  const MAX_NODES: nat := 1024
  const MAX_DEPTH: nat := 32
  const MAX_CHILDREN: nat := 1024

  /** One element of the payload; `device` is its device file if that is well-formed, and
      `info` the rest of what a node shows. */
  datatype Item = Junk | Item(device: Option<string>, info: string, children: seq<Item>)

  datatype Node = Node(info: string, parents: set<string>)

  /** An ordered dictionary of nodes. */
  datatype Nodes = Nodes(order: seq<string>, table: map<string, Node>)

  const EMPTY := Nodes([], map[])

  function First(items: seq<Item>): (r: seq<Item>)
    ensures |r| <= |items|
  {
    if |items| > MAX_CHILDREN then items[..MAX_CHILDREN] else items
  }

  /** Enter a device once, and note a parent other than itself. */
  function Noted(ns: Nodes, device: string, info: string, parent: Option<string>): Nodes {
    var before := if device in ns.table then ns.table[device] else Node(info, {});
    var after := if parent.Some? && parent.value != device
                 then before.(parents := before.parents + {parent.value}) else before;
    Nodes(if device in ns.table then ns.order else ns.order + [device], ns.table[device := after])
  }

  function Entered(ns: Nodes, item: Item, parent: Option<string>): Nodes
    requires item.Item?
  {
    if item.device.Some? then Noted(ns, item.device.value, item.info, parent) else ns
  }

  function Under(item: Item, parent: Option<string>): Option<string>
    requires item.Item?
  {
    if item.device.Some? then item.device else parent
  }

  /** The recursive `visit`. */
  function Visit(ns: Nodes, item: Item, parent: Option<string>, depth: nat): Nodes
    requires depth <= MAX_DEPTH + 1
    decreases MAX_DEPTH + 1 - depth, 0, 0
  {
    if depth > MAX_DEPTH || item.Junk? then ns
    else VisitAll(Entered(ns, item, parent), First(item.children), Under(item, parent), depth + 1)
  }

  function VisitAll(ns: Nodes, items: seq<Item>, parent: Option<string>, depth: nat): Nodes
    requires depth <= MAX_DEPTH + 1
    decreases MAX_DEPTH + 1 - depth, 1, |items|
  {
    if items == [] || |ns.order| >= MAX_NODES then ns
    else VisitAll(Visit(ns, items[0], parent, depth), items[1..], parent, depth)
  }

  /** `block_topology`. */
  function BlockTopology(roots: seq<Item>): Nodes {
    VisitAll(EMPTY, First(roots), None, 0)
  }

  // ----- what the payload contains -----

  /** The device files that the walk can see. */
  function Devices(items: seq<Item>, depth: nat): set<string>
    requires depth <= MAX_DEPTH + 1
    decreases MAX_DEPTH + 1 - depth, |items|
  {
    if items == [] || depth > MAX_DEPTH then {}
    else
      (if items[0].Junk? then {}
       else (if items[0].device.Some? then {items[0].device.value} else {})
            + Devices(First(items[0].children), depth + 1))
      + Devices(items[1..], depth)
  }

  /** Each device with the nearest enclosing device that is not itself. */
  function Edges(items: seq<Item>, parent: Option<string>, depth: nat): set<(string, string)>
    requires depth <= MAX_DEPTH + 1
    decreases MAX_DEPTH + 1 - depth, |items|
  {
    if items == [] || depth > MAX_DEPTH then {}
    else
      (if items[0].Junk? then {}
       else Edge(items[0], parent) + Edges(First(items[0].children), Under(items[0], parent), depth + 1))
      + Edges(items[1..], parent, depth)
  }

  function Edge(item: Item, parent: Option<string>): set<(string, string)>
    requires item.Item?
  {
    if item.device.Some? && parent.Some? && parent.value != item.device.value
    then {(item.device.value, parent.value)} else {}
  }

  ghost predicate HasEdge(ns: Nodes, e: (string, string)) {
    e.0 in ns.table && e.1 in ns.table[e.0].parents
  }

  // ----- invariants -----

  /** At most 1,024 nodes, each entered once, whose parents are other nodes. */
  ghost predicate Valid(ns: Nodes) {
    && |ns.order| <= MAX_NODES
    && (forall d :: d in ns.order <==> d in ns.table)
    && (forall i, j :: 0 <= i < j < |ns.order| ==> ns.order[i] != ns.order[j])
    && forall d, p :: d in ns.table && p in ns.table[d].parents ==> p != d && p in ns.table
  }

  /** Nodes only grow. */
  ghost predicate Grows(a: Nodes, b: Nodes) {
    |a.order| <= |b.order| && a.table.Keys <= b.table.Keys && forall e :: HasEdge(a, e) ==> HasEdge(b, e)
  }

  ghost predicate Listed(ns: Nodes) {
    && (forall d :: d in ns.order <==> d in ns.table)
    && forall i, j :: 0 <= i < j < |ns.order| ==> ns.order[i] != ns.order[j]
  }

  lemma NotedLists(ns: Nodes, device: string, info: string, parent: Option<string>)
    requires Listed(ns)
    ensures Listed(Noted(ns, device, info, parent))
    ensures |ns.order| <= |Noted(ns, device, info, parent).order| <= |ns.order| + 1
    ensures Noted(ns, device, info, parent).table.Keys == ns.table.Keys + {device}
  {
    if device !in ns.table {
      assert device !in ns.order;
    }
  }

  lemma NotedEdges(ns: Nodes, device: string, info: string, parent: Option<string>, e: (string, string))
    ensures HasEdge(Noted(ns, device, info, parent), e)
            <==> HasEdge(ns, e) || (parent.Some? && parent.value != device && e == (device, parent.value))
  {
  }

  lemma EnteredEdges(ns: Nodes, item: Item, parent: Option<string>, e: (string, string))
    requires item.Item?
    ensures HasEdge(Entered(ns, item, parent), e) <==> HasEdge(ns, e) || e in Edge(item, parent)
  {
    if item.device.Some? {
      NotedEdges(ns, item.device.value, item.info, parent, e);
    }
  }

  lemma EnteredKeeps(ns: Nodes, item: Item, parent: Option<string>)
    requires item.Item? && Valid(ns) && |ns.order| < MAX_NODES && (parent.Some? ==> parent.value in ns.table)
    ensures var b := Entered(ns, item, parent);
            && Valid(b) && Grows(ns, b) && (Under(item, parent).Some? ==> Under(item, parent).value in b.table)
            && b.table.Keys == ns.table.Keys + (if item.device.Some? then {item.device.value} else {})
            && forall e :: HasEdge(b, e) <==> HasEdge(ns, e) || e in Edge(item, parent)
  {
    hide Noted, HasEdge;
    var b := Entered(ns, item, parent);
    if item.device.Some? {
      NotedLists(ns, item.device.value, item.info, parent);
    }
    forall e ensures HasEdge(b, e) <==> HasEdge(ns, e) || e in Edge(item, parent) {
      EnteredEdges(ns, item, parent, e);
    }
    ValidByEdges(ns, b, Edge(item, parent));
  }

  lemma ValidByEdges(ns: Nodes, b: Nodes, es: set<(string, string)>)
    requires Valid(ns) && Listed(b) && |b.order| <= MAX_NODES && ns.table.Keys <= b.table.Keys
    requires forall e :: HasEdge(b, e) <==> HasEdge(ns, e) || e in es
    requires forall e :: e in es ==> e.0 != e.1 && e.1 in ns.table
    ensures Valid(b)
  {
    forall d, p | d in b.table && p in b.table[d].parents ensures p != d && p in b.table {
      assert HasEdge(b, (d, p));
      if HasEdge(ns, (d, p)) {
        assert p in ns.table[d].parents;
      }
    }
  }

  lemma {:induction false} VisitKeeps(ns: Nodes, item: Item, parent: Option<string>, depth: nat)
    requires depth <= MAX_DEPTH + 1 && Valid(ns) && |ns.order| < MAX_NODES
    requires parent.Some? ==> parent.value in ns.table
    ensures Valid(Visit(ns, item, parent, depth)) && Grows(ns, Visit(ns, item, parent, depth))
    decreases MAX_DEPTH + 1 - depth, 0, 0
  {
    hide Valid, Grows;
    if depth <= MAX_DEPTH && item.Item? {
      EnteredKeeps(ns, item, parent);
      VisitAllKeeps(Entered(ns, item, parent), First(item.children), Under(item, parent), depth + 1);
      GrowsTrans(ns, Entered(ns, item, parent), Visit(ns, item, parent, depth));
    } else {
      GrowsSame(ns);
    }
  }

  lemma GrowsTrans(a: Nodes, b: Nodes, c: Nodes)
    requires Grows(a, b) && Grows(b, c)
    ensures Grows(a, c)
  {
  }

  lemma GrowsSame(a: Nodes)
    ensures Grows(a, a)
  {
  }

  lemma {:induction false} VisitAllKeeps(ns: Nodes, items: seq<Item>, parent: Option<string>, depth: nat)
    requires depth <= MAX_DEPTH + 1 && Valid(ns)
    requires parent.Some? ==> parent.value in ns.table
    ensures Valid(VisitAll(ns, items, parent, depth)) && Grows(ns, VisitAll(ns, items, parent, depth))
    decreases MAX_DEPTH + 1 - depth, 1, |items|
  {
    hide Valid, Visit;
    if items != [] && |ns.order| < MAX_NODES {
      var next := Visit(ns, items[0], parent, depth);
      VisitKeeps(ns, items[0], parent, depth);
      VisitAllKeeps(next, items[1..], parent, depth);
    }
  }

  /** The result is bounded, no node is its own parent, and every parent is a node. */
  lemma TopologyIsClosed(roots: seq<Item>)
    ensures var ns := BlockTopology(roots);
            && |ns.order| <= MAX_NODES && (forall d :: d in ns.order <==> d in ns.table)
            && (forall i, j :: 0 <= i < j < |ns.order| ==> ns.order[i] != ns.order[j])
            && forall d, p :: d in ns.table && p in ns.table[d].parents ==> p != d && p in ns.table
  {
    VisitAllKeeps(EMPTY, First(roots), None, 0);
  }

  // ----- soundness and completeness -----

  ghost predicate Explains(a: Nodes, b: Nodes, ds: set<string>, es: set<(string, string)>) {
    b.table.Keys <= a.table.Keys + ds && forall e :: HasEdge(b, e) ==> HasEdge(a, e) || e in es
  }

  ghost predicate Covers(b: Nodes, ds: set<string>, es: set<(string, string)>) {
    ds <= b.table.Keys && forall e :: e in es ==> HasEdge(b, e)
  }

  lemma {:induction false} VisitExact(ns: Nodes, item: Item, parent: Option<string>, depth: nat)
    requires depth <= MAX_DEPTH + 1 && Valid(ns) && |ns.order| < MAX_NODES
    requires parent.Some? ==> parent.value in ns.table
    ensures var b := Visit(ns, item, parent, depth);
            && Explains(ns, b, Devices([item], depth), Edges([item], parent, depth))
            && (|b.order| < MAX_NODES ==> Covers(b, Devices([item], depth), Edges([item], parent, depth)))
    decreases MAX_DEPTH + 1 - depth, 0, 0
  {
    hide Valid, HasEdge, Entered, Edge, Devices, Edges, VisitAll;
    if depth <= MAX_DEPTH && item.Item? {
      var a := Entered(ns, item, parent);
      var items, up := First(item.children), Under(item, parent);
      EnteredKeeps(ns, item, parent);
      VisitAllExact(a, items, up, depth + 1);
      VisitAllKeeps(a, items, up, depth + 1);
      SingleSets(item, parent, depth);
    } else {
      EmptySets(item, parent, depth);
    }
  }

  lemma EmptySets(item: Item, parent: Option<string>, depth: nat)
    requires depth <= MAX_DEPTH + 1 && (depth > MAX_DEPTH || item.Junk?)
    ensures Devices([item], depth) == {} && Edges([item], parent, depth) == {}
  {
    assert [item][1..] == [];
  }

  /** The sets of a single element, unfolded once. */
  lemma SingleSets(item: Item, parent: Option<string>, depth: nat)
    requires depth <= MAX_DEPTH && item.Item?
    ensures Devices([item], depth)
            == (if item.device.Some? then {item.device.value} else {}) + Devices(First(item.children), depth + 1)
    ensures Edges([item], parent, depth)
            == Edge(item, parent) + Edges(First(item.children), Under(item, parent), depth + 1)
  {
    assert [item][1..] == [];
  }

  lemma ConsSets(items: seq<Item>, parent: Option<string>, depth: nat)
    requires depth <= MAX_DEPTH + 1 && items != []
    ensures Devices(items, depth) == Devices([items[0]], depth) + Devices(items[1..], depth)
    ensures Edges(items, parent, depth) == Edges([items[0]], parent, depth) + Edges(items[1..], parent, depth)
  {
    assert [items[0]][1..] == [];
  }

  lemma {:induction false} VisitAllExact(ns: Nodes, items: seq<Item>, parent: Option<string>, depth: nat)
    requires depth <= MAX_DEPTH + 1 && Valid(ns)
    requires parent.Some? ==> parent.value in ns.table
    ensures var b := VisitAll(ns, items, parent, depth);
            && Explains(ns, b, Devices(items, depth), Edges(items, parent, depth))
            && (|b.order| < MAX_NODES ==> Covers(b, Devices(items, depth), Edges(items, parent, depth)))
    decreases MAX_DEPTH + 1 - depth, 1, |items|
  {
    hide Valid, Visit;
    if items != [] && |ns.order| < MAX_NODES {
      var next := Visit(ns, items[0], parent, depth);
      VisitKeeps(ns, items[0], parent, depth);
      VisitExact(ns, items[0], parent, depth);
      VisitAllExact(next, items[1..], parent, depth);
      VisitAllKeeps(next, items[1..], parent, depth);
      ConsSets(items, parent, depth);
    }
  }

  /** Every node and every parent comes from the payload, and when the limit on nodes was
      not reached, every device and every enclosing device of the payload is there. */
  lemma TopologyIsExact(roots: seq<Item>)
    ensures var ns := BlockTopology(roots);
            && ns.table.Keys <= Devices(First(roots), 0)
            && (forall e :: HasEdge(ns, e) ==> e in Edges(First(roots), None, 0))
            && (|ns.order| < MAX_NODES ==>
                  && ns.table.Keys == Devices(First(roots), 0)
                  && forall e :: HasEdge(ns, e) <==> e in Edges(First(roots), None, 0))
  {
    VisitAllExact(EMPTY, First(roots), None, 0);
  }

  // ----- the walk with its shared dictionary -----

  class Walk {
    var nodes: Nodes

    constructor ()
      ensures nodes == EMPTY
    {
      nodes := EMPTY;
    }

    method VisitItem(item: Item, parent: Option<string>, depth: nat)
      requires depth <= MAX_DEPTH + 1
      modifies this
      ensures nodes == Visit(old(nodes), item, parent, depth)
      decreases MAX_DEPTH + 1 - depth, 0
    {
      if depth > MAX_DEPTH || item.Junk? {
        return;
      }
      var under := parent;
      if item.device.Some? {
        nodes := Noted(nodes, item.device.value, item.info, parent);
        under := item.device;
      }
      VisitItems(First(item.children), under, depth + 1);
    }

    method VisitItems(items: seq<Item>, parent: Option<string>, depth: nat)
      requires depth <= MAX_DEPTH + 1
      modifies this
      ensures nodes == VisitAll(old(nodes), items, parent, depth)
      decreases MAX_DEPTH + 1 - depth, 1
    {
      hide Visit;
      var i := 0;
      while i < |items| && |nodes.order| < MAX_NODES
        invariant i <= |items|
        invariant VisitAll(nodes, items[i..], parent, depth) == VisitAll(old(nodes), items, parent, depth)
      {
        assert items[i..][1..] == items[i + 1..];
        VisitItem(items[i], parent, depth);
        i := i + 1;
      }
    }
  }
}
