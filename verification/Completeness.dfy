/** When FindCycles lists every cycle. */
module Completeness {
  import opened Basics
  import B = Buffer
  import opened Dependency

  /** A reachable cycle that repeats no node. */
  ghost predicate Simple(edges: seq<Edge>, nodes: Templates, c: Path) {
    Cycle(edges, c) && B.Distinct(c) && Reached(edges, nodes, c[0])
  }

  /** `b` comes right after `a` on the cycle. */
  ghost predicate Follows(c: Path, a: Text, b: Text) {
    c != [] && ((a == Last(c) && b == c[0]) || exists i :: 0 < i < |c| && c[i - 1] == a && c[i] == b)
  }

  /** The same cycle, from whichever node on. */
  ghost predicate SameCycle(c: Path, d: Path) {
    forall a, b :: Follows(c, a, b) <==> Follows(d, a, b)
  }

  ghost predicate Share(c: Path, d: Path, a: Text, b: Text) {
    Follows(c, a, b) && Follows(d, a, b)
  }

  /** No two different cycles have an edge in common. */
  ghost predicate Apart(edges: seq<Edge>, nodes: Templates) {
    forall c, d, a, b :: Simple(edges, nodes, c) && Simple(edges, nodes, d) && Share(c, d, a, b) ==> SameCycle(c, d)
  }

  ghost predicate Has(cycles: seq<Path>, c: Path) {
    exists d :: d in cycles && SameCycle(c, d)
  }

  /** The list holds every cycle. */
  ghost predicate Full(edges: seq<Edge>, nodes: Templates, cycles: seq<Path>) {
    forall c :: Simple(edges, nodes, c) ==> Has(cycles, c)
  }

  /** The order visits every registered node once. */
  ghost predicate Visits(order: seq<Text>, nodes: Templates) {
    B.Distinct(order) && Elems(order) == nodes.Keys
  }

  /** Every edge leads to a registered node, as it does when the edges are built from templates. */
  ghost predicate Closed(edges: seq<Edge>, nodes: Templates) {
    forall e <- edges :: e.to in nodes
  }

  lemma BuiltIsClosed(edges: seq<Edge>, nodes: Templates)
    requires Named(nodes) && Adds([], edges, Conflicts(nodes))
    ensures Closed(edges, nodes)
  {
    assert edges[0..] == edges;
    forall e | e in edges ensures e.to in nodes {
      ConflictsAreConflict(nodes, e);
    }
  }

  lemma FollowsIsArrow(edges: seq<Edge>, c: Path, a: Text, b: Text)
    requires Cycle(edges, c) && Follows(c, a, b)
    ensures Arrow(edges, a, b)
  {
  }

  /** If no two different cycles share an edge, every cycle is listed, in every order. */
  lemma ApartFindsAll(edges: seq<Edge>, nodes: Templates, order: seq<Text>, cycles: seq<Path>)
    requires Found(edges, nodes, order, cycles) && Apart(edges, nodes)
    ensures Full(edges, nodes, cycles)
  {
    forall c | Simple(edges, nodes, c) ensures Has(cycles, c) {
      var a, b := CutEdge(cycles, c);
      var d :| d in cycles && d != [] && d[|d| - 1] == a && d[0] == b;
      assert Share(c, d, a, b);
    }
  }

  lemma CutEdge(cycles: seq<Path>, c: Path) returns (a: Text, b: Text)
    requires Cut(cycles, c)
    ensures Follows(c, a, b) && Closes(cycles, a, b)
  {
    if Closes(cycles, c[|c| - 1], c[0]) {
      a, b := c[|c| - 1], c[0];
    } else {
      var i :| 0 < i < |c| && Closes(cycles, c[i - 1], c[i]);
      a, b := c[i - 1], c[i];
    }
  }

  /** What comes before the first node of a cycle is its last. */
  lemma BeforeFirst(c: Path, a: Text)
    requires B.Distinct(c) && c != [] && Follows(c, a, c[0])
    ensures a == Last(c)
  {
  }

  lemma FollowerOn(c: Path, a: Text, b: Text)
    requires Follows(c, a, b)
    ensures b in c
  {
  }

  /** Of two different cycles that share an edge into the node visited first, one is missing. */
  lemma SharedEdgeMissesOne(edges: seq<Edge>, nodes: Templates, order: seq<Text>, cycles: seq<Path>,
                            c: Path, d: Path, a: Text, v: Text)
    requires Found(edges, nodes, order, cycles) && order != [] && order[0] == v
    requires Simple(edges, nodes, c) && Simple(edges, nodes, d) && !SameCycle(c, d) && Share(c, d, a, v)
    ensures !Has(cycles, c) || !Has(cycles, d)
  {
    if Has(cycles, c) && Has(cycles, d) {
      var c' :| c' in cycles && SameCycle(c, c');
      var d' :| d' in cycles && SameCycle(d, d');
      assert Follows(c', a, v) && Follows(d', a, v);
      FollowerOn(c', a, v);
      FollowerOn(d', a, v);
      BeforeFirst(c', a);
      BeforeFirst(d', a);
      assert c' == d';
      assert SameCycle(c, d);
    }
  }

  lemma {:induction false} OrderOf(names: set<Text>) returns (order: seq<Text>)
    ensures B.Distinct(order) && Elems(order) == names
    decreases |names|
  {
    if names == {} {
      order := [];
    } else {
      var n :| n in names;
      var rest := OrderOf(names - {n});
      assert n !in Elems(rest);
      order := rest + [n];
      assert Elems(order) == Elems(rest) + {n};
    }
  }

  lemma OrderFrom(names: set<Text>, v: Text) returns (order: seq<Text>)
    requires v in names
    ensures B.Distinct(order) && Elems(order) == names && order != [] && order[0] == v
  {
    var rest := OrderOf(names - {v});
    assert v !in Elems(rest);
    order := [v] + rest;
    assert Elems(order) == {v} + Elems(rest);
  }

  /** The exact condition, for a graph whose edges lead to registered nodes: if no two
      different cycles share an edge every result in every order is full; otherwise
      there is an order in which no result is. */
  lemma FullIffApart(edges: seq<Edge>, nodes: Templates)
    requires Closed(edges, nodes)
    ensures Apart(edges, nodes) ==>
              forall order, cycles :: Visits(order, nodes) && Found(edges, nodes, order, cycles) ==>
                Full(edges, nodes, cycles)
    ensures !Apart(edges, nodes) ==>
              exists order :: Visits(order, nodes) && NeverFull(edges, nodes, order)
  {
    if Apart(edges, nodes) {
      forall order, cycles | Visits(order, nodes) && Found(edges, nodes, order, cycles)
        ensures Full(edges, nodes, cycles)
      {
        ApartFindsAll(edges, nodes, order, cycles);
      }
    } else {
      var c, d, a, v :| Simple(edges, nodes, c) && Simple(edges, nodes, d) && Share(c, d, a, v) && !SameCycle(c, d);
      FollowsIsArrow(edges, c, a, v);
      var order := OrderFrom(nodes.Keys, v);
      NeverFullFrom(edges, nodes, order, c, d, a, v);
      assert Visits(order, nodes);
    }
  }

  ghost predicate NeverFull(edges: seq<Edge>, nodes: Templates, order: seq<Text>) {
    forall cycles :: Found(edges, nodes, order, cycles) ==> !Full(edges, nodes, cycles)
  }

  lemma NeverFullFrom(edges: seq<Edge>, nodes: Templates, order: seq<Text>, c: Path, d: Path, a: Text, v: Text)
    requires order != [] && order[0] == v
    requires Simple(edges, nodes, c) && Simple(edges, nodes, d) && !SameCycle(c, d) && Share(c, d, a, v)
    ensures NeverFull(edges, nodes, order)
  {
    forall cycles | Found(edges, nodes, order, cycles) ensures !Full(edges, nodes, cycles) {
      SharedEdgeMissesOne(edges, nodes, order, cycles, c, d, a, v);
    }
  }
}
