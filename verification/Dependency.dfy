/** The static dependency graph of transaction templates: conflict edges between
    templates, and depth-first search for cycles. */
module Dependency {
  import opened Basics
  import B = Buffer

  datatype DependencyType = WR | WW | RW
  datatype Edge = Edge(from: Text, to: Text, kind: DependencyType, key: Key)
  datatype Template = Template(name: Text, staticReads: set<Key>, staticWrites: set<Key>)

  type Templates = map<Text, Template>
  type Path = seq<Text>

  // ---------------------------------------------------------------- graphs

  ghost predicate Arrow(edges: seq<Edge>, a: Text, b: Text) {
    exists i :: 0 <= i < |edges| && edges[i].from == a && edges[i].to == b
  }

  /** A walk: an edge from each node to the next. */
  ghost predicate Walk(edges: seq<Edge>, p: Path) {
    forall i :: 0 < i < |p| ==> Arrow(edges, p[i - 1], p[i])
  }

  ghost predicate Cycle(edges: seq<Edge>, c: Path) {
    c != [] && Walk(edges, c) && Arrow(edges, c[|c| - 1], c[0])
  }

  /** Some walk leads from a registered node to `n`. */
  ghost predicate Reached(edges: seq<Edge>, nodes: Templates, n: Text) {
    exists p: Path :: p != [] && p[0] in nodes && p[|p| - 1] == n && Walk(edges, p)
  }

  ghost predicate Cyclic(edges: seq<Edge>, nodes: Templates) {
    exists c: Path :: Cycle(edges, c) && Reached(edges, nodes, c[0])
  }

  /** The edges out of a node, in the order they were added. */
  function From(edges: seq<Edge>, n: Text): seq<Edge> {
    if edges == [] then []
    else
      var e := edges[|edges| - 1];
      From(edges[..|edges| - 1], n) + if e.from == n then [e] else []
  }

  lemma {:induction false} FromIsArrows(edges: seq<Edge>, n: Text, b: Text)
    ensures Arrow(edges, n, b) <==> exists i :: 0 <= i < |From(edges, n)| && From(edges, n)[i].to == b
  {
    if edges != [] {
      var init, last, out := edges[..|edges| - 1], edges[|edges| - 1], From(edges[..|edges| - 1], n);
      FromIsArrows(init, n, b);
      if i :| 0 <= i < |edges| && edges[i].from == n && edges[i].to == b {
        if i < |init| {
          assert init[i] == edges[i];
          assert Arrow(init, n, b);
          var j :| 0 <= j < |out| && out[j].to == b;
          assert From(edges, n)[j].to == b;
        } else {
          assert From(edges, n)[|out|] == last;
        }
      }
      if j :| 0 <= j < |From(edges, n)| && From(edges, n)[j].to == b {
        if j < |out| {
          assert out[j].to == b;
          assert Arrow(init, n, b);
        } else {
          assert edges[|init|] == last;
        }
      }
    }
  }

  // ---------------------------------------------------------------- the state of a search

  ghost function Elems(p: Path): set<Text> {
    set n | n in p
  }

  /** The edge from `a` to `b` closes one of the listed cycles. */
  ghost predicate Closes(cycles: seq<Path>, a: Text, b: Text) {
    exists c :: c in cycles && c != [] && c[|c| - 1] == a && c[0] == b
  }

  /** Where an edge out of a node may lead once the search is done with it: to a node
      finished before, or back up along a listed cycle. */
  ghost predicate Accounted(finished: Path, visited: set<Text>, cycles: seq<Path>, a: Text, b: Text) {
    b in finished || (b in visited && Closes(cycles, a, b))
  }

  ghost predicate Descends(edges: seq<Edge>, finished: Path, visited: set<Text>, cycles: seq<Path>) {
    forall i, b :: 0 <= i < |finished| && Arrow(edges, finished[i], b) ==>
      Accounted(finished[..i], visited, cycles, finished[i], b)
  }

  /** Every listed cycle is one, repeats no node, and is reachable. */
  ghost predicate Listed(edges: seq<Edge>, nodes: Templates, cycles: seq<Path>) {
    forall c <- cycles :: Cycle(edges, c) && B.Distinct(c) && Reached(edges, nodes, c[0])
  }

  /** A depth-first search under way: the current path is a walk from a registered
      node, everything visited is on it or finished, and finished nodes are accounted for. */
  ghost predicate Explored(edges: seq<Edge>, nodes: Templates, visited: set<Text>, path: Path, finished: Path,
                           cycles: seq<Path>) {
    && visited == Elems(path) + Elems(finished)
    && Elems(path) !! Elems(finished)
    && B.Distinct(path) && B.Distinct(finished)
    && Walk(edges, path) && (path != [] ==> path[0] in nodes)
    && Descends(edges, finished, visited, cycles)
    && Listed(edges, nodes, cycles)
  }

  lemma EnterKeeps(edges: seq<Edge>, nodes: Templates, visited: set<Text>, path: Path, finished: Path,
                   cycles: seq<Path>, n: Text)
    requires Explored(edges, nodes, visited, path, finished, cycles) && n !in visited
    requires if path == [] then n in nodes else Arrow(edges, path[|path| - 1], n)
    ensures Explored(edges, nodes, visited + {n}, path + [n], finished, cycles)
  {
    assert Elems(path + [n]) == Elems(path) + {n};
  }

  /** Leaving a node whose every edge is accounted for. */
  lemma LeaveKeeps(edges: seq<Edge>, nodes: Templates, visited: set<Text>, path: Path, finished: Path,
                   cycles: seq<Path>, n: Text)
    requires Explored(edges, nodes, visited, path + [n], finished, cycles)
    requires forall b :: Arrow(edges, n, b) ==> Accounted(finished, visited, cycles, n, b)
    ensures Explored(edges, nodes, visited, path, finished + [n], cycles)
  {
    assert (path + [n])[|path|] == n && n in Elems(path + [n]);
    assert forall i :: 0 <= i < |path| ==> (path + [n])[i] == path[i];
    assert Elems(path + [n]) == Elems(path) + {n};
    assert Elems(finished + [n]) == Elems(finished) + {n};
    forall i | 0 <= i < |path| ensures path[i] != n {
      assert (path + [n])[i] != (path + [n])[|path|];
    }
    var done := finished + [n];
    forall i, b | 0 <= i < |done| && Arrow(edges, done[i], b)
      ensures Accounted(done[..i], visited, cycles, done[i], b)
    {
      if i < |finished| {
        assert done[..i] == finished[..i];
      } else {
        assert done[..i] == finished;
      }
    }
  }

  /** An edge back to the current path is the end of a cycle: the rest of the path. */
  lemma BackEdge(edges: seq<Edge>, nodes: Templates, path: Path, k: nat)
    requires Walk(edges, path) && B.Distinct(path) && k < |path| && path[0] in nodes
    requires Arrow(edges, path[|path| - 1], path[k])
    ensures Cycle(edges, path[k..]) && B.Distinct(path[k..]) && Reached(edges, nodes, path[k])
  {
    var p := path[..k + 1];
    assert p[|p| - 1] == path[k];
    assert Walk(edges, p);
  }

  // ---------------------------------------------------------------- what a finished search says

  /** A walk that closes no listed cycle descends in the order of finishing. */
  lemma {:induction false} WalkDescends(edges: seq<Edge>, finished: Path, cycles: seq<Path>, p: Path, i: nat)
    returns (j: nat)
    requires Descends(edges, finished, Elems(finished), cycles)
    requires p != [] && Walk(edges, p) && i < |finished| && finished[i] == p[0]
    requires forall k :: 0 < k < |p| ==> !Closes(cycles, p[k - 1], p[k])
    ensures j < |finished| && finished[j] == p[|p| - 1] && j <= i + 1 - |p|
    decreases |p|
  {
    if |p| == 1 {
      j := i;
    } else {
      assert Arrow(edges, p[0], p[1]) && Accounted(finished[..i], Elems(finished), cycles, p[0], p[1]);
      assert !Closes(cycles, p[0], p[1]);
      var i' :| 0 <= i' < i && finished[i'] == p[1];
      var rest := p[1..];
      forall k | 0 < k < |rest| ensures Arrow(edges, rest[k - 1], rest[k]) && !Closes(cycles, rest[k - 1], rest[k]) {
        assert rest[k - 1] == p[k] && rest[k] == p[k + 1];
        assert Arrow(edges, p[k + 1 - 1], p[k + 1]) && !Closes(cycles, p[k + 1 - 1], p[k + 1]);
      }
      j := WalkDescends(edges, finished, cycles, rest, i');
    }
  }

  lemma {:induction false} WalkStays(edges: seq<Edge>, finished: Path, cycles: seq<Path>, p: Path)
    requires Descends(edges, finished, Elems(finished), cycles)
    requires p != [] && Walk(edges, p) && p[0] in finished
    ensures p[|p| - 1] in finished
    decreases |p|
  {
    if |p| > 1 {
      var init := p[..|p| - 1];
      WalkStays(edges, finished, cycles, init);
      var i :| 0 <= i < |finished| && finished[i] == p[|p| - 2];
      assert Arrow(edges, p[|p| - 2], p[|p| - 1]);
      assert Accounted(finished[..i], Elems(finished), cycles, finished[i], p[|p| - 1]);
    }
  }

  /** Some edge of the cycle closes a listed one. */
  ghost predicate Cut(cycles: seq<Path>, c: Path) {
    c != [] && (Closes(cycles, c[|c| - 1], c[0]) || exists i :: 0 < i < |c| && Closes(cycles, c[i - 1], c[i]))
  }

  /** After a full search no reachable cycle is left uncut. */
  lemma EveryCycleIsCut(edges: seq<Edge>, nodes: Templates, finished: Path, cycles: seq<Path>, c: Path)
    requires Explored(edges, nodes, Elems(finished), [], finished, cycles)
    requires forall n <- nodes :: n in finished
    requires Cycle(edges, c) && Reached(edges, nodes, c[0])
    ensures Cut(cycles, c)
  {
    var p: Path :| p != [] && p[0] in nodes && p[|p| - 1] == c[0] && Walk(edges, p);
    WalkStays(edges, finished, cycles, p);
    var i :| 0 <= i < |finished| && finished[i] == c[0];
    if !Cut(cycles, c) {
      Uncut(edges, finished, cycles, c, i);
    }
  }

  lemma Uncut(edges: seq<Edge>, finished: Path, cycles: seq<Path>, c: Path, i: nat)
    requires Descends(edges, finished, Elems(finished), cycles) && B.Distinct(finished)
    requires Cycle(edges, c) && i < |finished| && finished[i] == c[0]
    ensures Cut(cycles, c)
  {
    if !Cut(cycles, c) {
      var round := c + [c[0]];
      forall k | 0 < k < |round|
        ensures Arrow(edges, round[k - 1], round[k]) && !Closes(cycles, round[k - 1], round[k]) {
        if k < |c| {
          assert round[k - 1] == c[k - 1] && round[k] == c[k];
        }
      }
      var j := WalkDescends(edges, finished, cycles, round, i);
    }
  }

  // ---------------------------------------------------------------- conflict edges

  function Links(from: Text, to: Text, kind: DependencyType, keys: set<Key>): set<Edge> {
    set k | k in keys :: Edge(from, to, kind, k)
  }

  /** What one template must follow another for: write-read, write-write, read-write. */
  function PairEdges(t: Template, u: Template): set<Edge> {
    Links(t.name, u.name, WR, t.staticWrites * u.staticReads) +
    Links(t.name, u.name, WW, t.staticWrites * u.staticWrites) +
    Links(t.name, u.name, RW, t.staticReads * u.staticWrites)
  }

  ghost predicate Conflict(nodes: Templates, e: Edge) {
    e.from in nodes && e.to in nodes && e.from != e.to && e in PairEdges(nodes[e.from], nodes[e.to])
  }

  /** Two templates touch one key and at least one of them writes it. */
  predicate Clash(t: Template, u: Template) {
    (t.staticReads + t.staticWrites) * (u.staticReads + u.staticWrites) * (t.staticWrites + u.staticWrites) != {}
  }

  ghost predicate Named(nodes: Templates) {
    forall n <- nodes :: nodes[n].name == n
  }

  /** A list grows by each edge of a set, once each, in some order. */
  ghost predicate Adds(before: seq<Edge>, after: seq<Edge>, new_: set<Edge>) {
    && |before| <= |after| && after[..|before|] == before
    && B.Distinct(after[|before|..])
    && forall e :: e in after[|before|..] <==> e in new_
  }

  lemma AddsTwice(a: seq<Edge>, b: seq<Edge>, c: seq<Edge>, es: set<Edge>, fs: set<Edge>)
    requires Adds(a, b, es) && Adds(b, c, fs) && es !! fs
    ensures Adds(a, c, es + fs)
  {
    assert c[..|a|] == c[..|b|][..|a|];
    assert c[|a|..] == b[|a|..] + c[|b|..] by {
      assert c == b + c[|b|..];
    }
    forall i, j | 0 <= i < j < |c[|a|..]| ensures c[|a|..][i] != c[|a|..][j] {
      if i < |b| - |a| <= j {
        assert b[|a|..][i] in es && c[|b|..][j - (|b| - |a|)] in fs;
      }
    }
  }

  /** All conflict edges of a set of templates. */
  ghost function Conflicts(nodes: Templates): set<Edge> {
    set a, b, e | a in nodes && b in nodes && a != b && e in PairEdges(nodes[a], nodes[b]) :: e
  }

  lemma ConflictsAreConflict(nodes: Templates, e: Edge)
    requires Named(nodes)
    ensures e in Conflicts(nodes) <==> Conflict(nodes, e)
  {
    if Conflict(nodes, e) {
      assert e.from in nodes && e.to in nodes;
    }
    if e in Conflicts(nodes) {
      var a, b :| a in nodes && b in nodes && a != b && e in PairEdges(nodes[a], nodes[b]);
      assert nodes[a].name == a && nodes[b].name == b;
    }
  }

  /** The kind of an edge says who does what to its key: write-read and write-write edges
      leave a template that writes it, read-write edges one that reads it. */
  lemma ConflictKinds(nodes: Templates, e: Edge)
    requires Named(nodes)
    ensures e in Conflicts(nodes) <==>
              && e.from in nodes && e.to in nodes && e.from != e.to
              && match e.kind
                 case WR => e.key in nodes[e.from].staticWrites && e.key in nodes[e.to].staticReads
                 case WW => e.key in nodes[e.from].staticWrites && e.key in nodes[e.to].staticWrites
                 case RW => e.key in nodes[e.from].staticReads && e.key in nodes[e.to].staticWrites
  {
    ConflictsAreConflict(nodes, e);
    if e.from in nodes && e.to in nodes {
      assert nodes[e.from].name == e.from && nodes[e.to].name == e.to;
    }
  }

  /** Every conflict edge lies on a cycle of two: write-read and read-write edges mirror
      each other and write-write edges come in pairs. */
  lemma ConflictsMirror(nodes: Templates, e: Edge) returns (back: Edge)
    requires Named(nodes) && Conflict(nodes, e)
    ensures Conflict(nodes, back) && back.from == e.to && back.to == e.from && back.key == e.key
  {
    back := Edge(e.to, e.from, match e.kind case WR => RW case WW => WW case RW => WR, e.key);
    var t, u := nodes[e.from], nodes[e.to];
    assert t.name == e.from && u.name == e.to;
  }

  /** A graph built from its templates alone is cyclic if and only if two different
      templates clash. */
  lemma ConflictGraphCyclicIff(nodes: Templates, edges: seq<Edge>)
    requires Named(nodes) && Adds([], edges, Conflicts(nodes))
    ensures Cyclic(edges, nodes) <==> exists a, b :: a in nodes && b in nodes && a != b && Clash(nodes[a], nodes[b])
  {
    forall e ensures e in edges <==> Conflict(nodes, e) {
      assert edges[0..] == edges;
      ConflictsAreConflict(nodes, e);
    }
    if Cyclic(edges, nodes) {
      var c: Path :| Cycle(edges, c) && Reached(edges, nodes, c[0]);
      var i :| 0 <= i < |edges| && edges[i].from == c[|c| - 1] && edges[i].to == c[0];
      assert edges[i] in edges && Conflict(nodes, edges[i]);
      EdgeClashes(nodes, edges[i]);
    }
    if a, b :| a in nodes && b in nodes && a != b && Clash(nodes[a], nodes[b]) {
      var e := ClashEdge(nodes, a, b);
      var back := ConflictsMirror(nodes, e);
      TwoCycle(edges, nodes, e, back);
    }
  }

  lemma EdgeClashes(nodes: Templates, e: Edge)
    requires Conflict(nodes, e)
    ensures Clash(nodes[e.from], nodes[e.to])
  {
    var t, u := nodes[e.from], nodes[e.to];
    assert e.key in (t.staticReads + t.staticWrites) * (u.staticReads + u.staticWrites)
           * (t.staticWrites + u.staticWrites);
  }

  lemma ClashEdge(nodes: Templates, a: Text, b: Text) returns (e: Edge)
    requires Named(nodes) && a in nodes && b in nodes && a != b && Clash(nodes[a], nodes[b])
    ensures Conflict(nodes, e) && e.from == a && e.to == b
  {
    var t, u := nodes[a], nodes[b];
    var k :| k in (t.staticReads + t.staticWrites) * (u.staticReads + u.staticWrites)
           * (t.staticWrites + u.staticWrites);
    e := Edge(a, b, if k !in t.staticWrites then RW else if k in u.staticWrites then WW else WR, k);
    assert e in PairEdges(t, u);
  }

  lemma TwoCycle(edges: seq<Edge>, nodes: Templates, e: Edge, back: Edge)
    requires e in edges && back in edges && back.from == e.to && back.to == e.from && e.from in nodes
    ensures Cyclic(edges, nodes)
  {
    var c := [e.from, e.to];
    assert Arrow(edges, e.from, e.to) && Arrow(edges, e.to, e.from);
    assert Cycle(edges, c);
    assert Walk(edges, [e.from]) && [e.from][0] == e.from;
    assert Reached(edges, nodes, c[0]);
  }

  // ---------------------------------------------------------------- the graph object

  function AdjOf(adj: map<Text, seq<Edge>>, n: Text): seq<Edge> {
    if n in adj then adj[n] else []
  }

  class DependencyGraph {
    var nodes: Templates
    var edges: seq<Edge>
    var adj: map<Text, seq<Edge>>

    /** The adjacency lists are the edge list, sorted by source. */
    ghost predicate Valid()
      reads this
    {
      Named(nodes) && forall n :: AdjOf(adj, n) == From(edges, n)
    }

    constructor ()
      ensures Valid() && nodes == map[] && edges == []
    {
      nodes, edges, adj := map[], [], map[];
    }

    method AddTemplate(t: Template)
      requires Valid()
      modifies this
      ensures Valid() && nodes == old(nodes)[t.name := t] && edges == old(edges)
    {
      nodes := nodes[t.name := t];
      if t.name !in adj {
        adj := adj[t.name := []];
      }
      assert forall n :: AdjOf(adj, n) == old(AdjOf(adj, n));
    }

    method AddEdge(from: Text, to: Text, kind: DependencyType, key: Key)
      requires Valid()
      modifies this`edges, this`adj
      ensures Valid() && edges == old(edges) + [Edge(from, to, kind, key)]
    {
      var edge := Edge(from, to, kind, key);
      edges := edges + [edge];
      adj := adj[from := AdjOf(adj, from) + [edge]];
      assert edges[..|edges| - 1] == old(edges);
      assert forall n :: n != from ==> AdjOf(adj, n) == old(AdjOf(adj, n));
    }

    /** One edge for each of `keys` that `other` has too. */
    method AddLinks(from: Text, to: Text, kind: DependencyType, keys: set<Key>, other: set<Key>)
      requires Valid()
      modifies this`edges, this`adj
      ensures Valid() && Adds(old(edges), edges, Links(from, to, kind, keys * other))
    {
      var todo := keys;
      while todo != {}
        invariant Valid() && todo <= keys
        invariant Adds(old(edges), edges, Links(from, to, kind, (keys - todo) * other))
      {
        var k :| k in todo;
        ghost var done := keys - todo;
        ghost var before := edges;
        if k in other {
          AddEdge(from, to, kind, k);
          assert edges[|before|..] == [Edge(from, to, kind, k)];
          AddsTwice(old(edges), before, edges, Links(from, to, kind, done * other), {Edge(from, to, kind, k)});
        }
        todo := todo - {k};
        assert (keys - todo) * other == done * other + if k in other then {k} else {};
      }
      assert (keys - todo) * other == keys * other;
    }

    method AddPair(t: Template, u: Template)
      requires Valid()
      modifies this`edges, this`adj
      ensures Valid() && Adds(old(edges), edges, PairEdges(t, u))
    {
      AddLinks(t.name, u.name, WR, t.staticWrites, u.staticReads);
      ghost var e1 := edges;
      AddLinks(t.name, u.name, WW, t.staticWrites, u.staticWrites);
      ghost var e2 := edges;
      AddLinks(t.name, u.name, RW, t.staticReads, u.staticWrites);
      AddsTwice(old(edges), e1, e2, Links(t.name, u.name, WR, t.staticWrites * u.staticReads),
                Links(t.name, u.name, WW, t.staticWrites * u.staticWrites));
      AddsTwice(old(edges), e2, edges,
                Links(t.name, u.name, WR, t.staticWrites * u.staticReads) +
                Links(t.name, u.name, WW, t.staticWrites * u.staticWrites),
                Links(t.name, u.name, RW, t.staticReads * u.staticWrites));
    }

    /** The registered templates, in whatever order the map yields them. */
    method ListTemplates() returns (templates: seq<Template>)
      requires Valid()
      ensures Collected(nodes, nodes.Keys, templates)
    {
      templates := [];
      var todo := nodes.Keys;
      while todo != {}
        invariant todo <= nodes.Keys && Collected(nodes, nodes.Keys - todo, templates)
      {
        var n :| n in todo;
        CollectOne(nodes, nodes.Keys - todo, templates, n);
        templates := templates + [nodes[n]];
        todo := todo - {n};
        assert nodes.Keys - todo == nodes.Keys - (todo + {n}) + {n};
      }
      assert nodes.Keys - todo == nodes.Keys;
    }

    /** True if and only if a cycle, self-loops included, is reachable from a registered node. */
    method HasCycle() returns (found: bool)
      requires Valid()
      ensures found <==> Cyclic(edges, nodes)
    {
      var check := new CycleCheck(this);
      var todo := nodes.Keys;
      while todo != {}
        invariant todo <= nodes.Keys && check.Valid() && check.graph == this && check.path == []
        invariant nodes.Keys - todo <= check.visited
      {
        var n :| n in todo;
        if n !in check.visited {
          found := check.Dfs(n);
          if found {
            return;
          }
        }
        todo := todo - {n};
      }
      FullSearch(edges, nodes, check.visited, check.finished, []);
      found := false;
    }

    /** Every list is a reachable cycle without repetitions. Not every cycle is listed,
        but each reachable one shares with a listed cycle the edge that closes it; `order`
        is the order in which the map yields the registered names. */
    method FindCycles(order: seq<Text>) returns (cycles: seq<Path>)
      requires Valid() && B.Distinct(order) && Elems(order) == nodes.Keys
      ensures Found(edges, nodes, order, cycles)
    {
      var search := new CycleSearch(this, if order == [] then NO_TEXT else order[0]);
      for i := 0 to |order|
        invariant search.Valid() && search.graph == this && search.path == []
        invariant (forall j :: 0 <= j < i ==> order[j] in search.visited) && (i == 0 ==> search.visited == {})
        invariant |search.cycles| == Backs(edges, search.finished)
      {
        assert order[i] in Elems(order);
        if order[i] !in search.visited {
          search.Dfs(order[i]);
        }
      }
      AllVisited(order, search.visited);
      SearchFinds(edges, nodes, order, search.visited, search.finished, search.cycles, search.first);
      cycles := search.cycles;
    }

    /** The conflict edges of every pair of different templates, each once. */
    method BuildFromTemplates()
      requires Valid()
      modifies this`edges, this`adj
      ensures Valid() && Adds(old(edges), edges, Conflicts(nodes))
    {
      var templates := ListTemplates();
      assert Before(templates, 0, 0) == {};
      for i := 0 to |templates|
        invariant Valid() && Adds(old(edges), edges, Before(templates, i, 0))
      {
        for j := 0 to |templates|
          invariant Valid() && Adds(old(edges), edges, Before(templates, i, j))
        {
          if i != j {
            ghost var before := edges;
            AddPair(templates[i], templates[j]);
            NewPair(nodes, templates, i, j);
            AddsTwice(old(edges), before, edges, Before(templates, i, j), PairEdges(templates[i], templates[j]));
          } else {
            SamePair(templates, i);
          }
        }
        NextRow(templates, i);
      }
      AllPairs(nodes, templates);
    }
  }

  // ---------------------------------------------------------------- the loops over pairs

  ghost predicate Collected(nodes: Templates, names: set<Text>, templates: seq<Template>) {
    && (forall t <- templates :: t.name in names && t.name in nodes && nodes[t.name] == t)
    && (forall n <- names :: n in nodes && nodes[n] in templates)
    && (forall i, j :: 0 <= i < j < |templates| ==> templates[i].name != templates[j].name)
  }

  lemma CollectOne(nodes: Templates, names: set<Text>, templates: seq<Template>, n: Text)
    requires Named(nodes) && Collected(nodes, names, templates) && n in nodes && n !in names
    ensures Collected(nodes, names + {n}, templates + [nodes[n]])
  {
    var more := templates + [nodes[n]];
    assert nodes[n].name == n;
    forall m | m in names + {n} ensures m in nodes && nodes[m] in more {
      if m == n {
        assert more[|templates|] == nodes[n];
      }
    }
  }

  /** The edges of the pairs before row `i`, column `j`. */
  ghost function Before(templates: seq<Template>, i: nat, j: nat): set<Edge> {
    set p, q, e | 0 <= p < |templates| && 0 <= q < |templates| && p != q && (p < i || (p == i && q < j))
                  && e in PairEdges(templates[p], templates[q]) :: e
  }

  lemma NewPair(nodes: Templates, templates: seq<Template>, i: nat, j: nat)
    requires Collected(nodes, nodes.Keys, templates) && i < |templates| && j < |templates| && i != j
    ensures Before(templates, i, j) !! PairEdges(templates[i], templates[j])
    ensures Before(templates, i, j + 1) == Before(templates, i, j) + PairEdges(templates[i], templates[j])
  {
  }

  lemma SamePair(templates: seq<Template>, i: nat)
    ensures Before(templates, i, i + 1) == Before(templates, i, i)
  {
  }

  lemma NextRow(templates: seq<Template>, i: nat)
    ensures Before(templates, i + 1, 0) == Before(templates, i, |templates|)
  {
  }

  lemma AllPairs(nodes: Templates, templates: seq<Template>)
    requires Named(nodes) && Collected(nodes, nodes.Keys, templates)
    ensures Before(templates, |templates|, 0) == Conflicts(nodes)
  {
    forall e | e in Conflicts(nodes) ensures e in Before(templates, |templates|, 0) {
      var a, b :| a in nodes && b in nodes && a != b && e in PairEdges(nodes[a], nodes[b]);
      var p :| 0 <= p < |templates| && templates[p] == nodes[a];
      var q :| 0 <= q < |templates| && templates[q] == nodes[b];
      assert nodes[a].name == a && nodes[b].name == b && p != q;
    }
    forall e | e in Before(templates, |templates|, 0) ensures e in Conflicts(nodes) {
      var p, q :| 0 <= p < |templates| && 0 <= q < |templates| && p != q && e in PairEdges(templates[p], templates[q]);
      assert templates[p].name in nodes && templates[q].name in nodes;
    }
  }

  // ---------------------------------------------------------------- cycle detection

  /** Every name that occurs. */
  ghost function Names(nodes: Templates, edges: seq<Edge>): set<Text> {
    nodes.Keys + set e | e in edges :: e.to
  }

  /** Each of the first `n` edges out of a node is accounted for. */
  ghost predicate Scanned(out: seq<Edge>, n: nat, finished: Path, visited: set<Text>, cycles: seq<Path>, a: Text)
    requires n <= |out|
  {
    forall i :: 0 <= i < n ==> Accounted(finished, visited, cycles, a, out[i].to)
  }

  lemma OutEdge(edges: seq<Edge>, nodes: Templates, a: Text, i: nat)
    requires i < |From(edges, a)|
    ensures Arrow(edges, a, From(edges, a)[i].to) && From(edges, a)[i].to in Names(nodes, edges)
  {
    FromIsArrows(edges, a, From(edges, a)[i].to);
  }

  lemma ScanNext(out: seq<Edge>, i: nat, before: Path, after: Path, seen: set<Text>, visited: set<Text>,
                 listed: seq<Path>, cycles: seq<Path>, a: Text)
    requires i < |out| && Scanned(out, i, before, seen, listed, a)
    requires before <= after && seen <= visited && listed <= cycles
    requires Accounted(after, visited, cycles, a, out[i].to)
    ensures Scanned(out, i + 1, after, visited, cycles, a)
  {
    forall j | 0 <= j < i ensures Accounted(after, visited, cycles, a, out[j].to) {
      AccountedStays(before, after, seen, visited, listed, cycles, a, out[j].to);
    }
  }

  lemma AccountedStays(before: Path, after: Path, seen: set<Text>, visited: set<Text>,
                       listed: seq<Path>, cycles: seq<Path>, a: Text, b: Text)
    requires Accounted(before, seen, listed, a, b) && before <= after && seen <= visited && listed <= cycles
    ensures Accounted(after, visited, cycles, a, b)
  {
    if b in before {
      var i :| 0 <= i < |before| && before[i] == b;
      assert after[i] == b;
    } else {
      var i :| 0 <= i < |listed| && listed[i] != [] && listed[i][|listed[i]| - 1] == a && listed[i][0] == b;
      assert cycles[i] == listed[i];
    }
  }

  lemma ScannedAll(edges: seq<Edge>, finished: Path, visited: set<Text>, cycles: seq<Path>, a: Text)
    requires Scanned(From(edges, a), |From(edges, a)|, finished, visited, cycles, a)
    ensures forall b :: Arrow(edges, a, b) ==> Accounted(finished, visited, cycles, a, b)
  {
    forall b | Arrow(edges, a, b) ensures Accounted(finished, visited, cycles, a, b) {
      FromIsArrows(edges, a, b);
    }
  }

  lemma PathLeft(rest: Path, node: Text)
    requires B.Distinct(rest + [node])
    ensures (rest + [node])[..|rest + [node]| - 1] == rest
    ensures Elems(rest + [node]) - {node} == Elems(rest)
  {
    var path := rest + [node];
    assert path[|rest|] == node && path[..|rest|] == rest;
    forall i | 0 <= i < |rest| ensures rest[i] != node {
      assert path[i] == rest[i] && path[i] != path[|rest|];
    }
    assert Elems(path) == Elems(rest) + {node};
  }

  lemma LeaveState(edges: seq<Edge>, nodes: Templates, visited: set<Text>, rest: Path, finished: Path,
                   cycles: seq<Path>, node: Text)
    requires Explored(edges, nodes, visited, rest + [node], finished, cycles)
    requires Scanned(From(edges, node), |From(edges, node)|, finished, visited, cycles, node)
    ensures Explored(edges, nodes, visited, rest, finished + [node], cycles)
    ensures (rest + [node])[..|rest + [node]| - 1] == rest && Elems(rest + [node]) - {node} == Elems(rest)
  {
    ScannedAll(edges, finished, visited, cycles, node);
    LeaveKeeps(edges, nodes, visited, rest, finished, cycles, node);
    PathLeft(rest, node);
  }

  /** The state of one HasCycle call. */
  class CycleCheck {
    const graph: DependencyGraph
    var visited: set<Text>
    var recStack: set<Text>
    ghost var path: Path
    ghost var finished: Path

    ghost predicate Valid()
      reads this, graph
    {
      && graph.Valid() && recStack == Elems(path)
      && visited <= Names(graph.nodes, graph.edges)
      && Explored(graph.edges, graph.nodes, visited, path, finished, [])
    }

    constructor (graph: DependencyGraph)
      requires graph.Valid()
      ensures Valid() && this.graph == graph && visited == {} && path == []
    {
      this.graph := graph;
      visited, recStack, path, finished := {}, {}, [], [];
    }

    method Enter(node: Text)
      requires Valid() && node in Names(graph.nodes, graph.edges) && node !in visited
      requires if path == [] then node in graph.nodes else Arrow(graph.edges, path[|path| - 1], node)
      modifies this
      ensures Valid() && path == old(path) + [node] && visited == old(visited) + {node} && finished == old(finished)
    {
      EnterKeeps(graph.edges, graph.nodes, visited, path, finished, [], node);
      visited, recStack, path := visited + {node}, recStack + {node}, path + [node];
      assert recStack == Elems(path);
    }

    method Leave(node: Text, ghost rest: Path)
      requires Valid() && path == rest + [node]
      requires Scanned(From(graph.edges, node), |From(graph.edges, node)|, finished, visited, [], node)
      modifies this
      ensures Valid() && path == rest && visited == old(visited) && finished == old(finished) + [node]
    {
      LeaveState(graph.edges, graph.nodes, visited, rest, finished, [], node);
      ghost var done := finished + [node];
      recStack, path, finished := recStack - {node}, rest, done;
      assert recStack == Elems(path);
      assert Explored(graph.edges, graph.nodes, visited, rest, done, []);
    }

    /** Unless it finds a cycle, it finishes the node and everything below it. */
    method Dfs(node: Text) returns (found: bool)
      requires Valid() && node in Names(graph.nodes, graph.edges) && node !in visited
      requires if path == [] then node in graph.nodes else Arrow(graph.edges, path[|path| - 1], node)
      modifies this
      ensures found ==> Cyclic(graph.edges, graph.nodes)
      ensures !found ==>
                Valid() && path == old(path) && old(visited) <= visited && old(finished) <= finished && node in finished
      decreases Names(graph.nodes, graph.edges) - visited
    {
      Enter(node);
      var out := AdjOf(graph.adj, node);
      for i := 0 to |out|
        invariant Valid() && path == old(path) + [node]
        invariant old(visited) + {node} <= visited && old(finished) <= finished
        invariant Scanned(out, i, finished, visited, [], node)
      {
        var next := out[i].to;
        OutEdge(graph.edges, graph.nodes, node, i);
        ghost var before, seen := finished, visited;
        if next !in visited {
          found := Dfs(next);
          if found {
            return;
          }
        } else if next in recStack {
          CycleHere(next);
          return true;
        }
        ScanNext(out, i, before, finished, seen, visited, [], [], node);
      }
      Leave(node, old(path));
      found := false;
    }

    lemma CycleHere(next: Text)
      requires Valid() && next in recStack && path != [] && Arrow(graph.edges, path[|path| - 1], next)
      ensures Cyclic(graph.edges, graph.nodes)
    {
      var k :| 0 <= k < |path| && path[k] == next;
      BackEdge(graph.edges, graph.nodes, path, k);
      assert path[k..][0] == next;
    }
  }

  // ---------------------------------------------------------------- which cycles are listed

  function Last(c: Path): Text
    requires c != []
  {
    c[|c| - 1]
  }

  /** No two listed cycles are closed by the same edge. */
  ghost predicate ClosedOnce(cycles: seq<Path>) {
    forall c, d :: c in cycles && d in cycles && c != [] && d != [] && Last(c) == Last(d) && c[0] == d[0] ==> c == d
  }

  /** A listed cycle through this node starts there. */
  ghost predicate StartsAt(cycles: seq<Path>, first: Text) {
    forall c :: c in cycles && c != [] && first in c ==> c[0] == first
  }

  /** The stretch of a path that ends at index `m`. */
  ghost predicate Stretch(path: Path, c: Path, m: nat)
    requires m < |path|
  {
    |c| <= m + 1 && path[m + 1 - |c|..m + 1] == c
  }

  /** A cycle that ends on the current path is a stretch of it. */
  ghost predicate Stretches(cycles: seq<Path>, path: Path) {
    forall c, m: nat :: c in cycles && c != [] && m < |path| && path[m] == Last(c) ==> Stretch(path, c, m)
  }

  /** What the listed cycles have to do with the current path and the first node visited. */
  ghost predicate Tidy(cycles: seq<Path>, path: Path, visited: set<Text>, first: Text) {
    && (forall c :: c in cycles ==> c != [] && Last(c) in visited)
    && ClosedOnce(cycles) && Stretches(cycles, path) && StartsAt(cycles, first)
    && (visited != {} ==> first in visited)
    && (first in path ==> path[0] == first)
  }

  lemma TidyEnter(cycles: seq<Path>, path: Path, visited: set<Text>, first: Text, n: Text)
    requires Tidy(cycles, path, visited, first) && n !in visited && Elems(path) <= visited
    requires visited == {} ==> n == first
    ensures Tidy(cycles, path + [n], visited + {n}, first)
  {
    forall c, m: nat | c in cycles && c != [] && m < |path + [n]| && (path + [n])[m] == Last(c)
      ensures Stretch(path + [n], c, m)
    {
      assert Stretch(path, c, m);
      assert (path + [n])[m + 1 - |c|..m + 1] == path[m + 1 - |c|..m + 1];
    }
    if path != [] {
      assert path[0] in Elems(path) && path[0] in visited;
    }
  }

  lemma TidyLeave(cycles: seq<Path>, path: Path, visited: set<Text>, first: Text, n: Text)
    requires Tidy(cycles, path + [n], visited, first)
    ensures Tidy(cycles, path, visited, first)
  {
    forall c, m: nat | c in cycles && c != [] && m < |path| && path[m] == Last(c) ensures Stretch(path, c, m) {
      assert (path + [n])[m] == Last(c) && Stretch(path + [n], c, m);
      assert path[m + 1 - |c|..m + 1] == (path + [n])[m + 1 - |c|..m + 1];
    }
    if first in path {
      assert first in path + [n] && (path + [n])[0] == path[0];
    }
  }

  lemma SuffixClosedOnce(cycles: seq<Path>, path: Path, k: nat)
    requires ClosedOnce(cycles) && Stretches(cycles, path) && B.Distinct(path) && k < |path|
    ensures ClosedOnce(cycles + [path[k..]])
  {
    forall c | c in cycles && c != [] && Last(c) == Last(path[k..]) && c[0] == path[k..][0] ensures c == path[k..] {
      SameStretch(cycles, path, c, k);
    }
  }

  lemma SameStretch(cycles: seq<Path>, path: Path, c: Path, k: nat)
    requires Stretches(cycles, path) && B.Distinct(path) && k < |path|
    requires c in cycles && c != [] && Last(c) == path[|path| - 1] && c[0] == path[k]
    ensures c == path[k..]
  {
    assert Stretch(path, c, |path| - 1);
    var i := |path| - |c|;
    assert path[i..] == c;
    assert path[i] == path[k];
  }

  lemma SuffixStretches(cycles: seq<Path>, path: Path, k: nat)
    requires Stretches(cycles, path) && B.Distinct(path) && k < |path|
    ensures Stretches(cycles + [path[k..]], path)
  {
    forall m: nat | m < |path| && path[m] == Last(path[k..]) ensures Stretch(path, path[k..], m) {
      assert path[m] == path[|path| - 1];
    }
  }

  lemma SuffixStartsAt(cycles: seq<Path>, path: Path, first: Text, k: nat)
    requires StartsAt(cycles, first) && (first in path ==> path[0] == first) && B.Distinct(path) && k < |path|
    ensures StartsAt(cycles + [path[k..]], first)
  {
    if first in path[k..] {
      var i :| 0 <= i < |path[k..]| && path[k..][i] == first;
      assert path[k + i] == first;
    }
  }

  lemma TidyExtract(cycles: seq<Path>, path: Path, visited: set<Text>, first: Text, k: nat)
    requires Tidy(cycles, path, visited, first) && B.Distinct(path) && Elems(path) <= visited && k < |path|
    ensures Tidy(cycles + [path[k..]], path, visited, first)
  {
    assert Last(path[k..]) == path[|path| - 1] && path[|path| - 1] in Elems(path);
    SuffixClosedOnce(cycles, path, k);
    SuffixStretches(cycles, path, k);
    SuffixStartsAt(cycles, path, first, k);
  }

  lemma ExploredExtract(edges: seq<Edge>, nodes: Templates, visited: set<Text>, path: Path, finished: Path,
                        cycles: seq<Path>, k: nat)
    requires Explored(edges, nodes, visited, path, finished, cycles)
    requires k < |path| && Arrow(edges, path[|path| - 1], path[k])
    ensures Explored(edges, nodes, visited, path, finished, cycles + [path[k..]])
  {
    BackEdge(edges, nodes, path, k);
    MoreCycles(edges, finished, visited, cycles, cycles + [path[k..]]);
  }

  lemma ExtractKeeps(edges: seq<Edge>, nodes: Templates, visited: set<Text>, path: Path, finished: Path,
                     cycles: seq<Path>, first: Text, k: nat)
    requires Explored(edges, nodes, visited, path, finished, cycles) && Tidy(cycles, path, visited, first)
    requires k < |path| && Arrow(edges, path[|path| - 1], path[k])
    ensures var more := cycles + [path[k..]];
            && Explored(edges, nodes, visited, path, finished, more) && Tidy(more, path, visited, first)
            && Closes(more, path[|path| - 1], path[k])
  {
    ExploredExtract(edges, nodes, visited, path, finished, cycles, k);
    TidyExtract(cycles, path, visited, first, k);
    SuffixCloses(cycles, path, k);
  }

  lemma SuffixCloses(cycles: seq<Path>, path: Path, k: nat)
    requires k < |path|
    ensures Closes(cycles + [path[k..]], path[|path| - 1], path[k])
  {
    assert (cycles + [path[k..]])[|cycles|] == path[k..];
  }

  /** The state of one FindCycles call; the first node visited is known to the proof. */
  class CycleSearch {
    const graph: DependencyGraph
    ghost const first: Text
    var visited: set<Text>
    var recStack: set<Text>
    var path: Path
    var cycles: seq<Path>
    ghost var finished: Path

    ghost predicate Valid()
      reads this, graph
    {
      && graph.Valid() && recStack == Elems(path)
      && visited <= Names(graph.nodes, graph.edges)
      && Explored(graph.edges, graph.nodes, visited, path, finished, cycles)
      && Tidy(cycles, path, visited, first)
    }

    constructor (graph: DependencyGraph, ghost first: Text)
      requires graph.Valid()
      ensures Valid() && this.graph == graph && this.first == first && visited == {} && path == [] && cycles == []
      ensures finished == []
    {
      this.graph, this.first := graph, first;
      visited, recStack, path, cycles, finished := {}, {}, [], [], [];
    }

    method Enter(node: Text)
      requires Valid() && node in Names(graph.nodes, graph.edges) && node !in visited
      requires visited == {} ==> node == first
      requires if path == [] then node in graph.nodes else Arrow(graph.edges, path[|path| - 1], node)
      modifies this
      ensures Valid() && path == old(path) + [node] && visited == old(visited) + {node}
      ensures finished == old(finished) && cycles == old(cycles)
    {
      EnterKeeps(graph.edges, graph.nodes, visited, path, finished, cycles, node);
      TidyEnter(cycles, path, visited, first, node);
      visited, recStack, path := visited + {node}, recStack + {node}, path + [node];
      assert recStack == Elems(path);
      assert Tidy(cycles, path, visited, first);
    }

    method Leave(node: Text, ghost rest: Path)
      requires Valid() && path == rest + [node]
      requires Scanned(From(graph.edges, node), |From(graph.edges, node)|, finished, visited, cycles, node)
      modifies this
      ensures Valid() && path == rest && visited == old(visited)
      ensures finished == old(finished) + [node] && cycles == old(cycles)
    {
      ghost var done := finished + [node];
      assert Explored(graph.edges, graph.nodes, visited, rest, done, cycles) && path[..|path| - 1] == rest by {
        LeaveState(graph.edges, graph.nodes, visited, rest, finished, cycles, node);
      }
      assert Tidy(cycles, rest, visited, first) by {
        TidyLeave(cycles, rest, visited, first, node);
      }
      assert recStack - {node} == Elems(rest) by {
        PathLeft(rest, node);
      }
      recStack, path, finished := recStack - {node}, path[..|path| - 1], done;
    }

    /** Lists the part of the path from `next` on, which the edge back to it closes. */
    method Extract(next: Text)
      requires Valid() && path != [] && Arrow(graph.edges, path[|path| - 1], next) && next in recStack
      modifies this`cycles
      ensures Valid() && old(cycles) <= cycles && Closes(cycles, path[|path| - 1], next)
      ensures |cycles| == |old(cycles)| + 1
    {
      var cycleStart := IndexOnPath(next);
      assert next in path;
      if cycleStart >= 0 {
        ExtractKeeps(graph.edges, graph.nodes, visited, path, finished, cycles, first, cycleStart);
        var more := cycles + [path[cycleStart..]];
        cycles := more;
        assert Explored(graph.edges, graph.nodes, visited, path, finished, more);
        assert Tidy(more, path, visited, first);
      }
    }

    method IndexOnPath(next: Text) returns (cycleStart: int)
      ensures next in path ==> 0 <= cycleStart < |path| && path[cycleStart] == next
      ensures next !in path ==> cycleStart == -1
    {
      cycleStart := -1;
      for i := 0 to |path|
        invariant cycleStart == -1 && next !in path[..i]
      {
        if path[i] == next {
          cycleStart := i;
          break;
        }
      }
    }

    /** One edge out of the top of the path: to a new node, back to the path, or to a
        finished one. */
    method Follow(next: Text)
      requires Valid() && path != [] && Arrow(graph.edges, path[|path| - 1], next)
      requires next in Names(graph.nodes, graph.edges)
      modifies this
      ensures Valid() && path == old(path) && old(visited) <= visited && old(cycles) <= cycles
      ensures old(finished) <= finished && Accounted(finished, visited, cycles, path[|path| - 1], next)
      ensures |cycles| - |old(cycles)| ==
              Backs(graph.edges, finished) - Backs(graph.edges, old(finished)) + if next in path then 1 else 0
      decreases Names(graph.nodes, graph.edges) - visited, 1
    {
      assert path[0] in Elems(path);
      if next !in visited {
        Dfs(next);
      } else if next in recStack {
        Extract(next);
      }
    }

    method Dfs(node: Text)
      requires Valid() && node in Names(graph.nodes, graph.edges) && node !in visited
      requires visited == {} ==> node == first
      requires if path == [] then node in graph.nodes else Arrow(graph.edges, path[|path| - 1], node)
      modifies this
      ensures Valid() && path == old(path) && old(visited) <= visited && old(cycles) <= cycles
      ensures old(finished) <= finished && node in finished
      ensures |cycles| - |old(cycles)| == Backs(graph.edges, finished) - Backs(graph.edges, old(finished))
      decreases Names(graph.nodes, graph.edges) - visited, 0
    {
      Enter(node);
      var out := AdjOf(graph.adj, node);
      for i := 0 to |out|
        invariant Valid() && path == old(path) + [node]
        invariant old(visited) + {node} <= visited && old(finished) <= finished && old(cycles) <= cycles
        invariant |cycles| - |old(cycles)| ==
                  Backs(graph.edges, finished) - Backs(graph.edges, old(finished)) + Into(out[..i], Elems(path))
        invariant Scanned(out, i, finished, visited, cycles, node)
      {
        ghost var before, seen, listed := finished, visited, cycles;
        assert Arrow(graph.edges, node, out[i].to) && out[i].to in Names(graph.nodes, graph.edges) by {
          OutEdge(graph.edges, graph.nodes, node, i);
        }
        Follow(out[i].to);
        ScanOne(out, i, before, finished, seen, visited, listed, cycles, node, Elems(path));
      }
      assert Backs(graph.edges, finished + [node]) ==
             Backs(graph.edges, finished) + Into(out[..|out|], Elems(path)) by {
        assert out[..|out|] == out;
        BacksNext(graph.edges, graph.nodes, visited, path, finished, cycles, node);
      }
      assert out[..|out|] == out;
      Leave(node, old(path));
    }
  }

  // ---------------------------------------------------------------- how many cycles are listed

  /** How many edges of a list lead into a set of nodes. */
  ghost function Into(out: seq<Edge>, targets: set<Text>): nat {
    if out == [] then 0
    else Into(out[..|out| - 1], targets) + if out[|out| - 1].to in targets then 1 else 0
  }

  /** How many edges lead from a node of the list to one that does not come before it. */
  ghost function Backs(edges: seq<Edge>, finished: Path): nat {
    if finished == [] then 0
    else
      var before, n := finished[..|finished| - 1], finished[|finished| - 1];
      IntoBound(From(edges, n), Elems(before));
      Backs(edges, before) + |From(edges, n)| - Into(From(edges, n), Elems(before))
  }

  lemma {:induction false} IntoBound(out: seq<Edge>, targets: set<Text>)
    ensures Into(out, targets) <= |out|
  {
    if out != [] {
      IntoBound(out[..|out| - 1], targets);
    }
  }

  lemma IntoNext(out: seq<Edge>, i: nat, targets: set<Text>)
    requires i < |out|
    ensures Into(out[..i + 1], targets) == Into(out[..i], targets) + if out[i].to in targets then 1 else 0
  {
    assert out[..i + 1][..i] == out[..i];
  }

  lemma ScanOne(out: seq<Edge>, i: nat, before: Path, after: Path, seen: set<Text>, visited: set<Text>,
                listed: seq<Path>, cycles: seq<Path>, a: Text, targets: set<Text>)
    requires i < |out| && Scanned(out, i, before, seen, listed, a)
    requires before <= after && seen <= visited && listed <= cycles
    requires Accounted(after, visited, cycles, a, out[i].to)
    ensures Scanned(out, i + 1, after, visited, cycles, a)
    ensures Into(out[..i + 1], targets) == Into(out[..i], targets) + if out[i].to in targets then 1 else 0
  {
    ScanNext(out, i, before, after, seen, visited, listed, cycles, a);
    IntoNext(out, i, targets);
  }

  lemma {:induction false} IntoParts(out: seq<Edge>, a: set<Text>, b: set<Text>)
    requires a !! b && forall i :: 0 <= i < |out| ==> out[i].to in a + b
    ensures Into(out, a) + Into(out, b) == |out|
  {
    if out != [] {
      IntoParts(out[..|out| - 1], a, b);
    }
  }

  /** The edges from a node back to the path are those that do not lead to a finished one. */
  lemma BacksNext(edges: seq<Edge>, nodes: Templates, visited: set<Text>, path: Path, finished: Path,
                  cycles: seq<Path>, n: Text)
    requires Explored(edges, nodes, visited, path, finished, cycles)
    requires Scanned(From(edges, n), |From(edges, n)|, finished, visited, cycles, n)
    ensures Backs(edges, finished + [n]) == Backs(edges, finished) + Into(From(edges, n), Elems(path))
  {
    assert (finished + [n])[..|finished|] == finished;
    IntoParts(From(edges, n), Elems(path), Elems(finished));
  }

  lemma {:induction false} BacksOut(edges: seq<Edge>, finished: Path)
    ensures Backs(edges, finished) <= OutEdges(edges, finished)
  {
    if finished != [] {
      BacksOut(edges, finished[..|finished| - 1]);
    }
  }

  lemma BacksBound(edges: seq<Edge>, finished: Path)
    requires B.Distinct(finished)
    ensures Backs(edges, finished) <= |edges|
  {
    BacksOut(edges, finished);
    OutEdgesBound(edges, finished);
  }

  /** The number of edges out of the nodes of a list. */
  ghost function OutEdges(edges: seq<Edge>, p: Path): nat {
    if p == [] then 0 else OutEdges(edges, p[..|p| - 1]) + |From(edges, p[|p| - 1])|
  }

  lemma {:induction false} OutEdgesMore(edges: seq<Edge>, e: Edge, p: Path)
    requires B.Distinct(p)
    ensures OutEdges(edges + [e], p) == OutEdges(edges, p) + if e.from in p then 1 else 0
    decreases |p|
  {
    if p != [] {
      var init, n := p[..|p| - 1], p[|p| - 1];
      OutEdgesMore(edges, e, init);
      assert (edges + [e])[..|edges|] == edges;
      assert p == init + [n] && n !in init;
    }
  }

  lemma {:induction false} OutEdgesBound(edges: seq<Edge>, p: Path)
    requires B.Distinct(p)
    ensures OutEdges(edges, p) <= |edges|
    decreases |edges|
  {
    if edges == [] {
      NoOutEdges(p);
    } else {
      var init, e := edges[..|edges| - 1], edges[|edges| - 1];
      OutEdgesBound(init, p);
      OutEdgesMore(init, e, p);
      assert edges == init + [e];
    }
  }

  lemma {:induction false} NoOutEdges(p: Path)
    ensures OutEdges([], p) == 0
    decreases |p|
  {
    if p != [] {
      NoOutEdges(p[..|p| - 1]);
    }
  }

  lemma MoreCycles(edges: seq<Edge>, finished: Path, visited: set<Text>, listed: seq<Path>, cycles: seq<Path>)
    requires Descends(edges, finished, visited, listed) && listed <= cycles
    ensures Descends(edges, finished, visited, cycles)
  {
    forall i, b | 0 <= i < |finished| && Arrow(edges, finished[i], b)
      ensures Accounted(finished[..i], visited, cycles, finished[i], b)
    {
      AccountedStays(finished[..i], finished[..i], visited, visited, listed, cycles, finished[i], b);
    }
  }

  lemma AllVisited(order: seq<Text>, visited: set<Text>)
    requires forall j :: 0 <= j < |order| ==> order[j] in visited
    ensures Elems(order) <= visited
  {
  }

  /** An order in which a search can finish: each registered node once, every edge leading to
      one that comes before or closing a listed cycle, and one list for each edge that
      leads to none before. */
  ghost predicate Finishing(edges: seq<Edge>, nodes: Templates, finished: Path, cycles: seq<Path>) {
    && B.Distinct(finished) && nodes.Keys <= Elems(finished)
    && Descends(edges, finished, Elems(finished), cycles)
    && |cycles| == Backs(edges, finished)
  }

  /** What FindCycles promises of its result, for the order in which it visits the
      registered nodes: real cycles, enough of them to cut all, exactly one for each edge
      that leads back in the order of finishing, any two closed between the same nodes the
      same, and every one through the first node starts there. */
  ghost predicate Found(edges: seq<Edge>, nodes: Templates, order: seq<Text>, cycles: seq<Path>) {
    && Listed(edges, nodes, cycles)
    && (forall c: Path :: Cycle(edges, c) && Reached(edges, nodes, c[0]) ==> Cut(cycles, c))
    && (cycles != [] <==> Cyclic(edges, nodes))
    && |cycles| <= |edges| && ClosedOnce(cycles)
    && (exists finished: Path :: Finishing(edges, nodes, finished, cycles))
    && (order != [] ==> StartsAt(cycles, order[0]))
  }

  lemma SearchFinds(edges: seq<Edge>, nodes: Templates, order: seq<Text>, visited: set<Text>, finished: Path,
                    cycles: seq<Path>, first: Text)
    requires Explored(edges, nodes, visited, [], finished, cycles) && nodes.Keys <= visited
    requires Tidy(cycles, [], visited, first) && (order != [] ==> first == order[0])
    requires |cycles| == Backs(edges, finished)
    ensures Found(edges, nodes, order, cycles)
  {
    FullSearch(edges, nodes, visited, finished, cycles);
    BacksBound(edges, finished);
    assert visited == Elems(finished);
    assert Finishing(edges, nodes, finished, cycles);
  }

  /** What a search from every registered node amounts to. */
  lemma FullSearch(edges: seq<Edge>, nodes: Templates, visited: set<Text>, finished: Path, cycles: seq<Path>)
    requires Explored(edges, nodes, visited, [], finished, cycles) && nodes.Keys <= visited
    ensures Cyclic(edges, nodes) <==> cycles != []
    ensures forall c: Path :: Cycle(edges, c) && Reached(edges, nodes, c[0]) ==> Cut(cycles, c)
  {
    assert visited == Elems(finished);
    forall c: Path | Cycle(edges, c) && Reached(edges, nodes, c[0]) ensures Cut(cycles, c) {
      EveryCycleIsCut(edges, nodes, finished, cycles, c);
    }
    if cycles != [] {
      assert cycles[0] in cycles;
    }
  }
}
