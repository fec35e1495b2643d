/** The order of the nodes and what they show. */
module TopologyOrder {
  import opened Topology
  import opened Wrappers

  /** The devices that the walk can see, each with what its item shows, in the order of the
      payload: an item before its children, and its children before the next item. */
  function Walked(items: seq<Item>, depth: nat): seq<(string, string)>
    requires depth <= 33
    decreases 33 - depth, |items|
  {
    if items == [] || depth > 32 then []
    else Seen(items[0], depth) + Walked(items[1..], depth)
  }

  function Seen(item: Item, depth: nat): seq<(string, string)>
    requires depth <= 32
    decreases 33 - depth, 0
  {
    if item.Junk? then []
    else (if item.device.Some? then [(item.device.value, item.info)] else []) + Walked(UpTo(item.children, 1024), depth + 1)
  }

  predicate Named(ps: seq<(string, string)>, name: string) {
    exists i :: 0 <= i < |ps| && ps[i].0 == name
  }

  /** Each device where it is met first. */
  function Firsts(ps: seq<(string, string)>): seq<(string, string)> {
    if ps == [] then []
    else
      var init, p := ps[..|ps| - 1], ps[|ps| - 1];
      Firsts(init) + if Named(init, p.0) then [] else [p]
  }

  function UpTo<T>(s: seq<T>, n: nat): seq<T> {
    if |s| <= n then s else s[..n]
  }

  ghost predicate Shows(ns: Nodes, ps: seq<(string, string)>) {
    && |ns.order| == |ps|
    && forall i :: 0 <= i < |ps| ==> ns.order[i] == ps[i].0 && ps[i].0 in ns.table && ns.table[ps[i].0].info == ps[i].1
  }

  lemma {:induction false} FirstsNamed(ps: seq<(string, string)>, name: string)
    ensures Named(Firsts(ps), name) <==> Named(ps, name)
  {
    if ps != [] {
      var init, p := ps[..|ps| - 1], ps[|ps| - 1];
      FirstsNamed(init, name);
      FirstsNamed(init, p.0);
      if Named(ps, name) && p.0 != name {
        var i :| 0 <= i < |ps| && ps[i].0 == name;
        assert init[i] == ps[i];
      }
      if Named(init, name) {
        var i :| 0 <= i < |init| && init[i].0 == name;
        assert ps[i] == init[i];
      }
      var now, was := Firsts(ps), Firsts(init);
      if Named(was, name) {
        var i :| 0 <= i < |was| && was[i].0 == name;
        assert now[i] == was[i];
      }
      if !Named(init, p.0) {
        assert now[|was|] == p;
      }
    }
  }

  lemma NotedShows(ns: Nodes, known: seq<(string, string)>, p: (string, string), parent: Option<string>)
    requires Listed(ns) && Shows(ns, known)
    ensures Named(known, p.0) <==> p.0 in ns.table
    ensures Shows(Noted(ns, p.0, p.1, parent), known + if p.0 in ns.table then [] else [p])
  {
    if i :| 0 <= i < |known| && known[i].0 == p.0 {
      assert ns.order[i] == p.0;
    }
    if p.0 in ns.order {
      var i :| 0 <= i < |ns.order| && ns.order[i] == p.0;
      assert known[i].0 == p.0;
    }
  }

  lemma FirstsAppend(met: seq<(string, string)>, p: (string, string))
    ensures Firsts(met + [p]) == Firsts(met) + if Named(Firsts(met), p.0) then [] else [p]
  {
    assert (met + [p])[..|met + [p]| - 1] == met;
    FirstsNamed(met, p.0);
  }

  /** One more device met. */
  lemma EnteredShows(ns: Nodes, met: seq<(string, string)>, item: Item, parent: Option<string>)
    requires Listed(ns) && |ns.order| < MAX_NODES && Shows(ns, UpTo(Firsts(met), MAX_NODES))
    requires item.Item? && item.device.Some?
    ensures Shows(Entered(ns, item, parent), UpTo(Firsts(met + [(item.device.value, item.info)]), MAX_NODES))
  {
    hide Firsts, Named, Noted;
    var p := (item.device.value, item.info);
    assert Firsts(met) == UpTo(Firsts(met), MAX_NODES) by {
      ShowsAll(ns, met);
    }
    FirstsAppend(met, p);
    NotedShows(ns, Firsts(met), p, parent);
  }

  lemma ShowsAll(ns: Nodes, met: seq<(string, string)>)
    requires |ns.order| < MAX_NODES && Shows(ns, UpTo(Firsts(met), MAX_NODES))
    ensures Firsts(met) == UpTo(Firsts(met), MAX_NODES)
  {
  }

  lemma Saturated(ns: Nodes, met: seq<(string, string)>, more: seq<(string, string)>)
    requires Shows(ns, UpTo(Firsts(met), MAX_NODES)) && |ns.order| >= MAX_NODES
    ensures UpTo(Firsts(met + more), MAX_NODES) == UpTo(Firsts(met), MAX_NODES)
  {
    FirstsGrow(met, more);
  }

  lemma {:induction false} FirstsGrow(met: seq<(string, string)>, more: seq<(string, string)>)
    ensures Firsts(met) <= Firsts(met + more)
  {
    if more == [] {
      assert met + more == met;
    } else {
      var n := |more| - 1;
      FirstsGrow(met, more[..n]);
      assert (met + more)[..|met + more| - 1] == met + more[..n];
    }
  }

  lemma {:induction false} VisitShows(
    ns: Nodes, met: seq<(string, string)>, item: Item, parent: Option<string>, depth: nat)
    requires depth <= MAX_DEPTH && Valid(ns) && |ns.order| < MAX_NODES && Shows(ns, UpTo(Firsts(met), MAX_NODES))
    requires parent.Some? ==> parent.value in ns.table
    ensures Shows(Visit(ns, item, parent, depth), UpTo(Firsts(met + Seen(item, depth)), MAX_NODES))
    decreases MAX_DEPTH + 1 - depth, 0, 0
  {
    hide Valid, Shows, Firsts;
    if item.Item? {
      var own := if item.device.Some? then [(item.device.value, item.info)] else [];
      var entered := Entered(ns, item, parent);
      EnteredKeeps(ns, item, parent);
      if item.device.Some? {
        ValidListed(ns);
        EnteredShows(ns, met, item, parent);
      } else {
        assert met + own == met;
      }
      VisitAllShows(entered, met + own, First(item.children), Under(item, parent), depth + 1);
      assert met + Seen(item, depth) == met + own + Walked(UpTo(item.children, 1024), depth + 1);
    } else {
      assert met + Seen(item, depth) == met;
    }
  }

  lemma {:induction false} VisitAllShows(
    ns: Nodes, met: seq<(string, string)>, items: seq<Item>, parent: Option<string>, depth: nat)
    requires depth <= MAX_DEPTH + 1 && Valid(ns) && Shows(ns, UpTo(Firsts(met), MAX_NODES))
    requires parent.Some? ==> parent.value in ns.table
    ensures Shows(VisitAll(ns, items, parent, depth), UpTo(Firsts(met + Walked(items, depth)), MAX_NODES))
    decreases MAX_DEPTH + 1 - depth, 1, |items|
  {
    hide Valid, Shows, Firsts, Visit;
    if items == [] {
      assert met + Walked(items, depth) == met;
    } else if |ns.order| >= MAX_NODES {
      Saturated(ns, met, Walked(items, depth));
    } else if depth > MAX_DEPTH {
      assert Visit(ns, items[0], parent, depth) == ns by {
        TooDeep(ns, items[0], parent, depth);
      }
      VisitAllShows(ns, met, items[1..], parent, depth);
      assert Walked(items, depth) == Walked(items[1..], depth) == [];
    } else {
      var next := Visit(ns, items[0], parent, depth);
      VisitKeeps(ns, items[0], parent, depth);
      VisitShows(ns, met, items[0], parent, depth);
      ParentStays(ns, next, parent);
      VisitAllShows(next, met + Seen(items[0], depth), items[1..], parent, depth);
      assert met + Walked(items, depth) == met + Seen(items[0], depth) + Walked(items[1..], depth);
    }
  }

  lemma ParentStays(a: Nodes, b: Nodes, parent: Option<string>)
    requires Grows(a, b) && (parent.Some? ==> parent.value in a.table)
    ensures parent.Some? ==> parent.value in b.table
  {
  }

  lemma ValidListed(ns: Nodes)
    requires Valid(ns)
    ensures Listed(ns)
  {
  }

  lemma TooDeep(ns: Nodes, item: Item, parent: Option<string>, depth: nat)
    requires depth == MAX_DEPTH + 1
    ensures Visit(ns, item, parent, depth) == ns
  {
  }

  /** The nodes are the first 1,024 devices in the order of the payload, each with what it
      shows where it is met first. */
  lemma NodesInOrder(roots: seq<Item>)
    ensures Shows(BlockTopology(roots), UpTo(Firsts(Walked(UpTo(roots, 1024), 0)), 1024))
  {
    hide Firsts, Walked, VisitAll;
    var ps := Walked(UpTo(roots, 1024), 0);
    NoNodes();
    VisitAllShows(EMPTY, [], First(roots), None, 0);
    assert [] + ps == ps;
  }

  lemma NoNodes()
    ensures Valid(EMPTY) && Shows(EMPTY, UpTo(Firsts([]), MAX_NODES))
  {
  }
}
