/** A graph of which FindCycles, whatever order its maps yield, leaves a cycle unlisted:
    it has more cycles than edges. */
module Unlisted {
  import opened Basics
  import B = Buffer
  import opened Dependency

  const HUB_A := Text("a")
  const HUB_B := Text("b")

  function Name(letter: char, i: nat): Text
    requires i < 5
  {
    Text([letter, ['0', '1', '2', '3', '4'][i]])
  }

  /** Five ways from one hub to the other and five ways back. */
  function HubEdge(k: nat): Edge
    requires k < 20
  {
    var x, y := Name('x', k % 5), Name('y', k % 5);
    if k < 5 then Edge(HUB_A, x, WW, HUB_A)
    else if k < 10 then Edge(x, HUB_B, WW, HUB_A)
    else if k < 15 then Edge(HUB_B, y, WW, HUB_A)
    else Edge(y, HUB_A, WW, HUB_A)
  }

  function HubEdges(): (edges: seq<Edge>)
    ensures |edges| == 20 && forall k :: 0 <= k < 20 ==> edges[k] == HubEdge(k)
  {
    seq(20, k requires 0 <= k < 20 => HubEdge(k))
  }

  /** One way there and one way back. */
  function Round(i: nat, j: nat): Path
    requires i < 5 && j < 5
  {
    [HUB_A, Name('x', i), HUB_B, Name('y', j)]
  }

  lemma RoundIsCycle(nodes: Templates, i: nat, j: nat)
    requires i < 5 && j < 5 && HUB_A in nodes
    ensures var c := Round(i, j); Cycle(HubEdges(), c) && B.Distinct(c) && Reached(HubEdges(), nodes, c[0])
  {
    var edges, c := HubEdges(), Round(i, j);
    HubArrow(i);
    HubArrow(5 + i);
    HubArrow(10 + j);
    HubArrow(15 + j);
    assert i % 5 == i && (5 + i) % 5 == i && (10 + j) % 5 == j && (15 + j) % 5 == j;
    assert Walk(edges, c) by {
      assert Arrow(edges, c[0], c[1]) && Arrow(edges, c[1], c[2]) && Arrow(edges, c[2], c[3]);
    }
    RoundIsDistinct(i, j);
    assert Walk(edges, [HUB_A]) && [HUB_A][0] == HUB_A;
  }

  lemma HubArrow(k: nat)
    requires k < 20
    ensures Arrow(HubEdges(), HubEdge(k).from, HubEdge(k).to)
  {
    assert HubEdges()[k] == HubEdge(k);
  }

  lemma RoundIsDistinct(i: nat, j: nat)
    requires i < 5 && j < 5
    ensures B.Distinct(Round(i, j))
  {
    assert |Name('x', i).chars| == |Name('y', j).chars| == 2 && |HUB_A.chars| == |HUB_B.chars| == 1;
    assert Name('x', i).chars[0] == 'x' && Name('y', j).chars[0] == 'y';
    assert HUB_A.chars[0] == 'a' && HUB_B.chars[0] == 'b';
  }

  /** Two rounds over the same nodes are the same round. */
  lemma RoundsDiffer(i: nat, j: nat, k: nat, l: nat)
    requires i < 5 && j < 5 && k < 5 && l < 5 && Elems(Round(i, j)) == Elems(Round(k, l))
    ensures i == k && j == l
  {
    assert Round(i, j)[1] in Elems(Round(k, l)) && Round(i, j)[3] in Elems(Round(k, l));
    assert Name('x', i).chars[0] == 'x' && Name('y', j).chars[0] == 'y';
    assert Name('x', k).chars[0] == 'x' && Name('y', l).chars[0] == 'y';
    assert Name('x', i).chars[1] == Name('x', k).chars[1] && Name('y', j).chars[1] == Name('y', l).chars[1];
  }

  lemma {:induction false} Pigeonhole(f: seq<nat>, n: nat) returns (i: nat, j: nat)
    requires |f| > n && forall k :: 0 <= k < |f| ==> f[k] < n
    ensures i < j < |f| && f[i] == f[j]
    decreases n
  {
    assert f[0] < n;
    if a :| 0 <= a < |f| && f[a] == n - 1 {
      if b :| 0 <= b < |f| && b != a && f[b] == n - 1 {
        i, j := if a < b then a else b, if a < b then b else a;
      } else {
        var p, q := Pigeonhole(f[..a] + f[a + 1..], n - 1);
        i, j := if p < a then p else p + 1, if q < a then q else q + 1;
      }
    } else {
      i, j := Pigeonhole(f, n - 1);
    }
  }

  /** The list holds this cycle, from whichever node on. */
  ghost predicate Lists(cycles: seq<Path>, c: Path) {
    exists m :: 0 <= m < |cycles| && Elems(cycles[m]) == Elems(c)
  }

  ghost function Where(cycles: seq<Path>, c: Path): (m: nat)
    requires Lists(cycles, c)
    ensures m < |cycles| && Elems(cycles[m]) == Elems(c)
  {
    var m :| 0 <= m < |cycles| && Elems(cycles[m]) == Elems(c);
    m
  }

  /** FindCycles does not return all cycles of the graph, as its comment says: of the hub
      graph's reachable cycles some one appears in no list as short as the edge list. */
  lemma SomeCycleUnlisted(nodes: Templates, cycles: seq<Path>) returns (c: Path)
    requires HUB_A in nodes && |cycles| <= |HubEdges()|
    ensures Cycle(HubEdges(), c) && B.Distinct(c) && Reached(HubEdges(), nodes, c[0])
    ensures !Lists(cycles, c)
  {
    if i, j :| 0 <= i < 5 && 0 <= j < 5 && !Lists(cycles, Round(i, j)) {
      c := Round(i, j);
      RoundIsCycle(nodes, i, j);
    } else {
      var f := seq(25, k requires 0 <= k < 25 => Where(cycles, Round(k / 5, k % 5)));
      var p, q := Pigeonhole(f, 20);
      RoundsDiffer(p / 5, p % 5, q / 5, q % 5);
      assert false;
    }
  }

  /** The graph, built edge by edge, and what FindCycles makes of it: a reachable cycle
      that is not in the result. */
  method HubGraphMisses() returns (graph: DependencyGraph, cycles: seq<Path>, ghost c: Path)
    ensures fresh(graph) && graph.Valid() && graph.edges == HubEdges() && graph.nodes.Keys == {HUB_A}
    ensures Found(graph.edges, graph.nodes, [HUB_A], cycles)
    ensures Cycle(graph.edges, c) && B.Distinct(c) && Reached(graph.edges, graph.nodes, c[0]) && !Lists(cycles, c)
  {
    graph := new DependencyGraph();
    graph.AddTemplate(Template(HUB_A, {}, {}));
    for k := 0 to 20
      invariant fresh(graph) && graph.Valid() && graph.nodes.Keys == {HUB_A}
      invariant graph.edges == HubEdges()[..k]
    {
      var e := HubEdge(k);
      assert HubEdges()[..k + 1] == HubEdges()[..k] + [e];
      graph.AddEdge(e.from, e.to, e.kind, e.key);
    }
    assert HubEdges()[..20] == HubEdges();
    assert [HUB_A][0] == HUB_A && Elems([HUB_A]) == {HUB_A};
    cycles := graph.FindCycles([HUB_A]);
    c := SomeCycleUnlisted(graph.nodes, cycles);
  }
}
