/** What the ring means: its content is determined by the set of shards, and a key goes
    to the shard with the clockwise nearest virtual node. */
module RingLaws {
  import opened Basics
  import B = Buffer
  import opened HashRing

  ghost predicate Ascending(xs: seq<u32>) {
    forall i, j :: 0 <= i < j < |xs| ==> xs[i] < xs[j]
  }

  ghost predicate InOrder(xs: seq<u32>) {
    forall i, j :: 0 <= i < j < |xs| ==> xs[i] <= xs[j]
  }

  /** No two virtual nodes of these shards fall on one position. */
  ghost predicate NoCollisions(hash: Hash, v: nat, shards: set<ShardId>) {
    forall s, t, i: nat, j: nat ::
      s in shards && t in shards && i < v && j < v && Point(hash, s, i) == Point(hash, t, j) ==> s == t && i == j
  }

  ghost predicate IsPoint(hash: Hash, v: nat, s: ShardId, p: u32) {
    exists i: nat :: i < v && Point(hash, s, i) == p
  }

  /** The ring holds exactly the virtual nodes of its shards, in order, under their owners. */
  ghost predicate Faithful(hash: Hash, v: nat, r: Ring) {
    && Ascending(r.positions)
    && (forall p :: p in r.positions <==> p in r.nodeMap)
    && (forall p <- r.nodeMap :: r.nodeMap[p] in r.shards && IsPoint(hash, v, r.nodeMap[p], p))
    && (forall s, p :: s in r.shards && IsPoint(hash, v, s, p) ==> p in r.nodeMap && r.nodeMap[p] == s)
  }

  lemma {:induction false} AscendingUnique(xs: seq<u32>, ys: seq<u32>)
    requires Ascending(xs) && Ascending(ys) && forall p :: p in xs <==> p in ys
    ensures xs == ys
  {
    assert (xs != [] ==> xs[0] in ys) && (ys != [] ==> ys[0] in xs);
    if xs != [] {
      var x, y := xs[|xs| - 1], ys[|ys| - 1];
      assert x in ys && y in xs;
      assert x == y;
      var init, init' := xs[..|xs| - 1], ys[..|ys| - 1];
      assert xs == init + [x] && ys == init' + [y];
      forall p ensures p in init <==> p in init' {
        assert p in xs <==> p in init || p == x;
        assert p in ys <==> p in init' || p == y;
      }
      AscendingUnique(init, init');
    }
  }

  /** The ring is a function of the set of shards. */
  lemma FaithfulUnique(hash: Hash, v: nat, r: Ring, r': Ring)
    requires Faithful(hash, v, r) && Faithful(hash, v, r') && r.shards == r'.shards
    ensures r == r'
  {
    forall p ensures p in r.nodeMap <==> p in r'.nodeMap {
    }
    assert r.nodeMap == r'.nodeMap;
    AscendingUnique(r.positions, r'.positions);
  }

  // ---------------------------------------------------------------- adding

  lemma {:induction false} InsertStrict(xs: seq<u32>, x: u32)
    requires Ascending(xs) && x !in xs
    ensures Ascending(InsertSorted(xs, x))
    ensures forall p :: p in InsertSorted(xs, x) <==> p == x || p in xs
  {
    if xs != [] && x > xs[0] {
      InsertStrict(xs[1..], x);
      var ys := InsertSorted(xs[1..], x);
      forall k | 0 <= k < |ys| ensures xs[0] < ys[k] {
        assert ys[k] in ys;
      }
      assert xs == [xs[0]] + xs[1..];
    }
  }

  lemma {:induction false} SortStrict(xs: seq<u32>)
    requires B.Distinct(xs)
    ensures Ascending(Sorted(xs))
    ensures forall p :: p in Sorted(xs) <==> p in xs
  {
    if xs != [] {
      SortStrict(xs[1..]);
      assert xs[0] !in xs[1..];
      InsertStrict(Sorted(xs[1..]), xs[0]);
    }
  }

  lemma {:induction false} InsertKeepsAll(xs: seq<u32>, x: u32)
    ensures multiset(InsertSorted(xs, x)) == multiset(xs) + multiset{x}
  {
    if xs != [] && x > xs[0] {
      InsertKeepsAll(xs[1..], x);
      assert xs == [xs[0]] + xs[1..];
    }
  }

  lemma {:induction false} InsertInOrder(xs: seq<u32>, x: u32)
    requires InOrder(xs)
    ensures InOrder(InsertSorted(xs, x))
  {
    if xs != [] && x > xs[0] {
      InsertInOrder(xs[1..], x);
      var ys := InsertSorted(xs[1..], x);
      forall k | 0 <= k < |ys| ensures xs[0] <= ys[k] {
        InsertKeepsAll(xs[1..], x);
        assert ys[k] in multiset(ys);
        assert ys[k] == x || ys[k] in xs[1..];
      }
    }
  }

  /** Whatever the input, the model of the library sort returns it in order, nothing
      lost and nothing added. */
  lemma {:induction false} SortedIsSort(xs: seq<u32>)
    ensures InOrder(Sorted(xs)) && multiset(Sorted(xs)) == multiset(xs)
  {
    if xs != [] {
      SortedIsSort(xs[1..]);
      InsertInOrder(Sorted(xs[1..]), xs[0]);
      InsertKeepsAll(Sorted(xs[1..]), xs[0]);
      assert xs == [xs[0]] + xs[1..];
    }
  }

  lemma {:induction false} ClaimLaw(nodeMap: map<u32, ShardId>, points: seq<u32>, s: ShardId)
    ensures var m := Claim(nodeMap, points, s);
            forall p :: (p in m <==> p in nodeMap || p in points)
              && (p in m ==> m[p] == if p in points then s else nodeMap[p])
  {
    if points != [] {
      var init, last := points[..|points| - 1], points[|points| - 1];
      ClaimLaw(nodeMap, init, s);
      assert points == init + [last];
    }
  }

  lemma PointsAre(hash: Hash, v: nat, s: ShardId)
    ensures forall p :: p in Points(hash, s, v) <==> IsPoint(hash, v, s, p)
  {
    forall p ensures p in Points(hash, s, v) <==> IsPoint(hash, v, s, p) {
      if i: nat :| i < v && Point(hash, s, i) == p {
        assert Points(hash, s, v)[i] == p;
      }
    }
  }

  lemma NewPointsAreNew(hash: Hash, v: nat, r: Ring, s: ShardId)
    requires Faithful(hash, v, r) && s !in r.shards && NoCollisions(hash, v, r.shards + {s})
    ensures forall p :: IsPoint(hash, v, s, p) ==> p !in r.nodeMap && p !in r.positions
  {
    forall p | IsPoint(hash, v, s, p) ensures p !in r.nodeMap && p !in r.positions {
      var i: nat :| i < v && Point(hash, s, i) == p;
    }
  }

  lemma PointsDistinct(hash: Hash, v: nat, s: ShardId)
    requires NoCollisions(hash, v, {s})
    ensures B.Distinct(Points(hash, s, v))
  {
    forall a, b | 0 <= a < b < v ensures Points(hash, s, v)[a] != Points(hash, s, v)[b] {
      assert Points(hash, s, v)[a] == Point(hash, s, a) && Points(hash, s, v)[b] == Point(hash, s, b);
    }
  }

  lemma NewPointsApart(hash: Hash, v: nat, r: Ring, s: ShardId)
    requires Faithful(hash, v, r) && s !in r.shards && NoCollisions(hash, v, r.shards + {s})
    ensures B.Distinct(r.positions + Points(hash, s, v))
    ensures forall p :: IsPoint(hash, v, s, p) ==> p !in r.nodeMap
  {
    NewPointsAreNew(hash, v, r, s);
    PointsAre(hash, v, s);
    PointsDistinct(hash, v, s);
    ApartTogether(r.positions, Points(hash, s, v));
  }

  lemma ApartTogether(xs: seq<u32>, ys: seq<u32>)
    requires B.Distinct(xs) && B.Distinct(ys) && forall y <- ys :: y !in xs
    ensures B.Distinct(xs + ys)
  {
    forall a, b | 0 <= a < b < |xs + ys| ensures (xs + ys)[a] != (xs + ys)[b] {
      if a < |xs| <= b {
        assert ys[b - |xs|] !in xs;
      }
    }
  }

  lemma AddFaithful(hash: Hash, v: nat, r: Ring, s: ShardId)
    requires Faithful(hash, v, r) && NoCollisions(hash, v, r.shards + {s})
    ensures Faithful(hash, v, OnAdd(hash, v, r, s))
  {
    if s !in r.shards {
      var points := Points(hash, s, v);
      NewPointsApart(hash, v, r, s);
      PointsAre(hash, v, s);
      SortStrict(r.positions + points);
      ClaimLaw(r.nodeMap, points, s);
    }
  }

  // ---------------------------------------------------------------- removing

  lemma {:induction false} SweepLaw(positions: seq<u32>, nodeMap: map<u32, ShardId>, s: ShardId)
    requires Ascending(positions)
    ensures var (kept, m) := Sweep(positions, nodeMap, s);
            && Ascending(kept)
            && (forall p :: p in kept <==> p in positions && Owner(nodeMap, p) != s)
            && (forall p :: p in m <==> p in nodeMap && !(p in positions && nodeMap[p] == s))
            && (forall p <- m :: m[p] == nodeMap[p])
  {
    if positions != [] {
      var init, p := positions[..|positions| - 1], positions[|positions| - 1];
      SweepLaw(init, nodeMap, s);
      var (kept, m) := Sweep(init, nodeMap, s);
      assert positions == init + [p] && p !in init;
      assert Owner(m, p) == Owner(nodeMap, p);
      forall k | 0 <= k < |kept| ensures kept[k] < p {
        assert kept[k] in kept;
      }
    }
  }

  lemma RemoveFaithful(hash: Hash, v: nat, r: Ring, s: ShardId)
    requires Faithful(hash, v, r)
    ensures Faithful(hash, v, OnRemove(r, s))
  {
    SweepLaw(r.positions, r.nodeMap, s);
  }

  /** Removing a shard undoes adding it. */
  lemma RemoveUndoesAdd(hash: Hash, v: nat, r: Ring, s: ShardId)
    requires Faithful(hash, v, r) && s !in r.shards && NoCollisions(hash, v, r.shards + {s})
    ensures OnRemove(OnAdd(hash, v, r, s), s) == r
  {
    AddFaithful(hash, v, r, s);
    RemoveFaithful(hash, v, OnAdd(hash, v, r, s), s);
    FaithfulUnique(hash, v, OnRemove(OnAdd(hash, v, r, s), s), r);
  }

  // ---------------------------------------------------------------- runs

  datatype Change = Added(shard: ShardId) | Removed(shard: ShardId)

  function Apply(hash: Hash, v: nat, r: Ring, changes: seq<Change>): Ring {
    if changes == [] then r
    else
      var before, c := Apply(hash, v, r, changes[..|changes| - 1]), changes[|changes| - 1];
      match c case Added(s) => OnAdd(hash, v, before, s) case Removed(s) => OnRemove(before, s)
  }

  /** The set of shards a run of changes leaves. */
  function Members(changes: seq<Change>): set<ShardId> {
    if changes == [] then {}
    else
      var before, c := Members(changes[..|changes| - 1]), changes[|changes| - 1];
      match c case Added(s) => before + {s} case Removed(s) => before - {s}
  }

  /** Whatever was added and removed on the way, the ring holds the virtual nodes of the
      shards that are left. */
  lemma {:induction false} RunIsFaithful(hash: Hash, v: nat, changes: seq<Change>)
    requires NoCollisions(hash, v, set c | c in changes :: c.shard)
    ensures Faithful(hash, v, Apply(hash, v, EMPTY, changes))
    ensures Apply(hash, v, EMPTY, changes).shards == Members(changes)
    ensures Members(changes) <= set c | c in changes :: c.shard
  {
    if changes != [] {
      var before, c := changes[..|changes| - 1], changes[|changes| - 1];
      assert changes == before + [c];
      RunIsFaithful(hash, v, before);
      var r := Apply(hash, v, EMPTY, before);
      assert NoCollisions(hash, v, r.shards + {c.shard});
      match c {
        case Added(s) => AddFaithful(hash, v, r, s);
        case Removed(s) => RemoveFaithful(hash, v, r, s);
      }
    }
  }

  /** Two runs that leave the same shards leave the same ring. */
  lemma RingIsItsShards(hash: Hash, v: nat, xs: seq<Change>, ys: seq<Change>)
    requires NoCollisions(hash, v, set c | c in xs :: c.shard) && NoCollisions(hash, v, set c | c in ys :: c.shard)
    requires Members(xs) == Members(ys)
    ensures Apply(hash, v, EMPTY, xs) == Apply(hash, v, EMPTY, ys)
  {
    RunIsFaithful(hash, v, xs);
    RunIsFaithful(hash, v, ys);
    FaithfulUnique(hash, v, Apply(hash, v, EMPTY, xs), Apply(hash, v, EMPTY, ys));
  }

  // ---------------------------------------------------------------- routing

  /** How far clockwise from `h` a position lies. */
  function Distance(h: u32, p: u32): u32 {
    if p >= h then p - h else p - h + TWO_32
  }

  /** Consistent hashing: `s` has a virtual node no farther clockwise of the key's hash
      than any virtual node of any shard. */
  ghost predicate Serves(hash: Hash, v: nat, shards: set<ShardId>, key: Key, s: ShardId) {
    && s in shards
    && exists p ::
         && IsPoint(hash, v, s, p)
         && forall t, q :: t in shards && IsPoint(hash, v, t, q) ==> Distance(hash(key), p) <= Distance(hash(key), q)
  }

  /** Steps clockwise of the starting index go farther and farther away. */
  lemma StepsRecede(positions: seq<u32>, h: u32, k: nat, l: nat)
    requires Ascending(positions) && k < l < |positions|
    ensures var n, start := |positions|, Start(positions, h);
            Distance(h, positions[StepIndex(n, start, k)]) < Distance(h, positions[StepIndex(n, start, l)])
  {
  }

  /** One turn passes every position. */
  lemma StepTo(positions: seq<u32>, h: u32, p: u32) returns (k: nat)
    requires p in positions
    ensures k < |positions| && positions[StepIndex(|positions|, Start(positions, h), k)] == p
  {
    var n, start := |positions|, Start(positions, h);
    var i :| 0 <= i < n && positions[i] == p;
    k := if i >= start then i - start else i - start + n;
  }

  lemma HasPoint(hash: Hash, v: nat, s: ShardId)
    requires v > 0
    ensures IsPoint(hash, v, s, Point(hash, s, 0))
  {
  }

  lemma RouteServes(hash: Hash, v: nat, r: Ring, key: Key)
    requires Faithful(hash, v, r) && v > 0
    ensures if r.shards == {} then Route(hash, r, key) == NO_TEXT
            else Serves(hash, v, r.shards, key, Route(hash, r, key))
  {
    assert r.positions != [] ==> r.positions[0] in r.nodeMap;
    if s :| s in r.shards {
      HasPoint(hash, v, s);
      NextIsNearest(hash, v, r, hash(key));
    }
  }

  lemma RouteIsMember(hash: Hash, v: nat, r: Ring, key: Key)
    requires v > 0
    ensures Faithful(hash, v, r) ==>
              if r.shards == {} then Route(hash, r, key) == NO_TEXT else Route(hash, r, key) in r.shards
  {
    if Faithful(hash, v, r) {
      RouteServes(hash, v, r, key);
    }
  }

  lemma NextIsNearest(hash: Hash, v: nat, r: Ring, h: u32)
    requires Faithful(hash, v, r) && r.positions != []
    ensures var p := r.positions[Start(r.positions, h)];
            && p in r.nodeMap
            && forall t, q :: t in r.shards && IsPoint(hash, v, t, q) ==> Distance(h, p) <= Distance(h, q)
  {
    var p := r.positions[Start(r.positions, h)];
    assert p in r.positions;
    forall t, q | t in r.shards && IsPoint(hash, v, t, q) ensures Distance(h, p) <= Distance(h, q) {
      var k := StepTo(r.positions, h, q);
      if k > 0 {
        StepsRecede(r.positions, h, 0, k);
      }
    }
  }

  /** No two shards serve one key. */
  lemma ServesUnique(hash: Hash, v: nat, shards: set<ShardId>, key: Key, s: ShardId, t: ShardId)
    requires NoCollisions(hash, v, shards) && Serves(hash, v, shards, key, s) && Serves(hash, v, shards, key, t)
    ensures s == t
  {
    var h := hash(key);
    var p :| IsPoint(hash, v, s, p)
             && forall t, q :: t in shards && IsPoint(hash, v, t, q) ==> Distance(h, p) <= Distance(h, q);
    var q :| IsPoint(hash, v, t, q)
             && forall s, p :: s in shards && IsPoint(hash, v, s, p) ==> Distance(h, q) <= Distance(h, p);
    assert Distance(h, p) == Distance(h, q) && p == q;
    var i: nat :| i < v && Point(hash, s, i) == p;
    var j: nat :| j < v && Point(hash, t, j) == q;
  }

  /** The ring routes a key to a shard if and only if the shard serves it. */
  lemma RouteIff(hash: Hash, v: nat, r: Ring, key: Key, s: ShardId)
    requires Faithful(hash, v, r) && NoCollisions(hash, v, r.shards) && v > 0 && s in r.shards
    ensures Route(hash, r, key) == s <==> Serves(hash, v, r.shards, key, s)
  {
    RouteServes(hash, v, r, key);
    if Serves(hash, v, r.shards, key, s) {
      ServesUnique(hash, v, r.shards, key, s, Route(hash, r, key));
    }
  }

  /** Adding a shard moves keys to it and to no other; the keys it leaves alone stay. */
  lemma AddMovesOnlyToNew(hash: Hash, v: nat, r: Ring, s: ShardId, key: Key)
    requires Faithful(hash, v, r) && NoCollisions(hash, v, r.shards + {s}) && v > 0
    ensures var after := Route(hash, OnAdd(hash, v, r, s), key); after == s || after == Route(hash, r, key)
  {
    AddFaithful(hash, v, r, s);
    var r' := OnAdd(hash, v, r, s);
    RouteServes(hash, v, r', key);
    if Route(hash, r', key) != s {
      RouteIff(hash, v, r, key, Route(hash, r', key));
    }
  }

  /** Removing a shard moves its own keys and no others. */
  lemma RemoveMovesOnlyOwn(hash: Hash, v: nat, r: Ring, s: ShardId, key: Key)
    requires Faithful(hash, v, r) && NoCollisions(hash, v, r.shards) && v > 0
    requires Route(hash, r, key) != s
    ensures Route(hash, OnRemove(r, s), key) == Route(hash, r, key)
  {
    RemoveFaithful(hash, v, r, s);
    RouteServes(hash, v, r, key);
    if r.shards != {} {
      RouteIff(hash, v, OnRemove(r, s), key, Route(hash, r, key));
    }
  }

  // ---------------------------------------------------------------- replicas

  ghost predicate Nearer(hash: Hash, v: nat, key: Key, s: ShardId, t: ShardId) {
    exists p :: IsPoint(hash, v, s, p) && forall q :: IsPoint(hash, v, t, q) ==>
      Distance(hash(key), p) < Distance(hash(key), q)
  }

  /** Where an owner is first met: only owners listed before it own the steps up to there. */
  lemma {:induction false} FirstMeeting(r: Ring, start: nat, k: nat, a: nat) returns (l: nat)
    requires start < |r.positions| && k <= |r.positions| && a < |Met(r, start, k)|
    ensures l < k && OwnerAt(r, start, l) == Met(r, start, k)[a]
    ensures forall m :: 0 <= m < l ==> OwnerAt(r, start, m) in Met(r, start, k)[..a]
  {
    var met := Met(r, start, k - 1);
    if a < |met| {
      l := FirstMeeting(r, start, k - 1, a);
      assert Met(r, start, k)[..a] == met[..a];
    } else {
      l := k - 1;
      MetIsDistinct(r, start, k - 1);
      assert Met(r, start, k)[..a] == met;
    }
  }

  lemma {:induction false} DistinctCount(xs: seq<ShardId>, s: set<ShardId>)
    requires B.Distinct(xs) && forall x :: x in xs <==> x in s
    ensures |xs| == |s|
    decreases |xs|
  {
    if xs != [] {
      var init, x := xs[..|xs| - 1], xs[|xs| - 1];
      assert xs == init + [x] && x !in init;
      DistinctCount(init, s - {x});
    } else {
      assert s == {};
    }
  }

  /** One turn meets every shard of the ring and nobody else. */
  lemma TurnMeetsAll(hash: Hash, v: nat, r: Ring, h: u32)
    requires Faithful(hash, v, r) && v > 0 && r.positions != []
    ensures var all := Met(r, Start(r.positions, h), |r.positions|);
            B.Distinct(all) && |all| == |r.shards| && forall s :: s in all <==> s in r.shards
  {
    var start, n := Start(r.positions, h), |r.positions|;
    var all := Met(r, start, n);
    MetIsDistinct(r, start, n);
    forall s ensures s in all <==> s in r.shards {
      if s in r.shards {
        HasPoint(hash, v, s);
        var k := StepTo(r.positions, h, Point(hash, s, 0));
        assert OwnerAt(r, start, k) == s;
      }
      if s in all {
        var l :| 0 <= l < n && OwnerAt(r, start, l) == s;
        assert r.positions[StepIndex(n, start, l)] in r.nodeMap;
      }
    }
    DistinctCount(all, r.shards);
  }

  /** A list of shards, each once, in order of distance from a key; no other shard is nearer. */
  ghost predicate Nearest(hash: Hash, v: nat, shards: set<ShardId>, key: Key, rs: seq<ShardId>) {
    && B.Distinct(rs) && (forall s <- rs :: s in shards)
    && (forall a, b :: 0 <= a < b < |rs| ==> Nearer(hash, v, key, rs[a], rs[b]))
    && (forall s, a :: s in shards && s !in rs && 0 <= a < |rs| ==> Nearer(hash, v, key, rs[a], s))
  }

  /** The replicas are the `n` nearest shards, or all of them when there are fewer; the
      first is where the key is routed. */
  lemma ReplicasAreNearest(hash: Hash, v: nat, r: Ring, key: Key, n: nat)
    requires Faithful(hash, v, r) && v > 0
    ensures var rs := Replicas(hash, r, key, n);
            && |rs| == (if n <= |r.shards| then n else |r.shards|)
            && Nearest(hash, v, r.shards, key, rs)
            && (rs != [] ==> rs[0] == Route(hash, r, key))
  {
    if r.positions == [] {
      NobodyLeft(hash, v, r);
    } else {
      TurnMeetsAll(hash, v, r, hash(key));
      AllInOrder(hash, v, r, key);
      var all := Met(r, Start(r.positions, hash(key)), |r.positions|);
      NearestFirst(hash, v, r.shards, key, all, |Replicas(hash, r, key, n)|);
      RouteIsFirst(hash, r, key);
    }
  }

  lemma RouteIsFirst(hash: Hash, r: Ring, key: Key)
    requires r.positions != []
    ensures var all := Met(r, Start(r.positions, hash(key)), |r.positions|); all != [] && all[0] == Route(hash, r, key)
  {
    var start := Start(r.positions, hash(key));
    MetGrows(r, start, 1, |r.positions|);
    assert Met(r, start, 0) == [] && Met(r, start, 1) == [OwnerAt(r, start, 0)];
  }

  lemma AllInOrder(hash: Hash, v: nat, r: Ring, key: Key)
    requires Faithful(hash, v, r) && v > 0 && r.positions != []
    ensures var all := Met(r, Start(r.positions, hash(key)), |r.positions|);
            forall a, b :: 0 <= a < b < |all| ==> Nearer(hash, v, key, all[a], all[b])
  {
    var all := Met(r, Start(r.positions, hash(key)), |r.positions|);
    forall a, b | 0 <= a < b < |all| ensures Nearer(hash, v, key, all[a], all[b]) {
      MetInOrder(hash, v, r, key, a, b);
    }
  }

  lemma NearestFirst(hash: Hash, v: nat, shards: set<ShardId>, key: Key, all: seq<ShardId>, n: nat)
    requires n <= |all| && B.Distinct(all) && forall s :: s in all <==> s in shards
    requires forall a, b :: 0 <= a < b < |all| ==> Nearer(hash, v, key, all[a], all[b])
    ensures Nearest(hash, v, shards, key, all[..n])
  {
    forall s, a | s in shards && s !in all[..n] && 0 <= a < n ensures Nearer(hash, v, key, all[..n][a], s) {
      var b :| 0 <= b < |all| && all[b] == s;
      forall c | 0 <= c < n ensures all[c] != s {
        assert all[..n][c] == all[c];
      }
    }
  }

  lemma NobodyLeft(hash: Hash, v: nat, r: Ring)
    requires Faithful(hash, v, r) && v > 0 && r.positions == []
    ensures r.shards == {}
  {
    if s :| s in r.shards {
      HasPoint(hash, v, s);
      assert false;
    }
  }

  lemma MetInOrder(hash: Hash, v: nat, r: Ring, key: Key, a: nat, b: nat)
    requires Faithful(hash, v, r) && v > 0 && r.positions != []
    requires a < b < |Met(r, Start(r.positions, hash(key)), |r.positions|)|
    ensures var all := Met(r, Start(r.positions, hash(key)), |r.positions|); Nearer(hash, v, key, all[a], all[b])
  {
    var h, n := hash(key), |r.positions|;
    var start := Start(r.positions, h);
    var all := Met(r, start, n);
    MetIsDistinct(r, start, n);
    TurnMeetsAll(hash, v, r, h);
    var l := FirstMeeting(r, start, n, a);
    var p := r.positions[StepIndex(n, start, l)];
    assert p in r.nodeMap;
    forall q | IsPoint(hash, v, all[b], q) ensures Distance(h, p) < Distance(h, q) {
      assert all[b] in r.shards;
      var m := StepTo(r.positions, h, q);
      assert OwnerAt(r, start, m) == all[b] && all[b] !in all[..a];
      StepsRecede(r.positions, h, l, m);
    }
  }

  /** Asking for one replica more only adds one at the end. */
  lemma ReplicasPrefix(hash: Hash, r: Ring, key: Key, n: nat)
    ensures Replicas(hash, r, key, n) <= Replicas(hash, r, key, n + 1)
  {
  }

  /** The walk for replicas ends within one turn. */
  lemma OneTurnIsEnough(hash: Hash, v: nat, r: Ring, key: Key)
    requires Faithful(hash, v, r) && v > 0 && r.shards != {}
    ensures r.positions != [] && |Met(r, Start(r.positions, hash(key)), |r.positions|)| == |r.shards|
  {
    if r.positions == [] {
      NobodyLeft(hash, v, r);
    } else {
      TurnMeetsAll(hash, v, r, hash(key));
    }
  }

  // ---------------------------------------------------------------- collisions

  lemma {:induction false} SweepInOrder(positions: seq<u32>, nodeMap: map<u32, ShardId>, s: ShardId)
    requires InOrder(positions)
    ensures var kept := Sweep(positions, nodeMap, s).0; InOrder(kept) && forall p <- kept :: p in positions
  {
    if positions != [] {
      var init, p := positions[..|positions| - 1], positions[|positions| - 1];
      SweepInOrder(init, nodeMap, s);
      var kept := Sweep(init, nodeMap, s).0;
      forall k | 0 <= k < |kept| ensures kept[k] <= p {
        assert kept[k] in kept;
        var i :| 0 <= i < |init| && init[i] == kept[k];
        assert positions[i] <= p;
      }
    }
  }

  /** The ring is sorted after every run of changes, collisions or not. */
  lemma {:induction false} RunIsInOrder(hash: Hash, v: nat, changes: seq<Change>)
    ensures InOrder(Apply(hash, v, EMPTY, changes).positions)
  {
    if changes != [] {
      RunIsInOrder(hash, v, changes[..|changes| - 1]);
      var r := Apply(hash, v, EMPTY, changes[..|changes| - 1]);
      match changes[|changes| - 1] {
        case Added(s) => SortedIsSort(r.positions + Points(hash, s, v));
        case Removed(s) => SweepInOrder(r.positions, r.nodeMap, s);
      }
    }
  }

  lemma {:induction false} SweepLeaves(positions: seq<u32>, nodeMap: map<u32, ShardId>, s: ShardId, p: u32)
    requires p !in positions
    ensures var m := Sweep(positions, nodeMap, s).1;
            (p in m <==> p in nodeMap) && (p in m ==> m[p] == nodeMap[p])
  {
    if positions != [] {
      SweepLeaves(positions[..|positions| - 1], nodeMap, s, p);
    }
  }

  /** A position the shard owns leaves the map. */
  lemma {:induction false} SweptIsGone(positions: seq<u32>, nodeMap: map<u32, ShardId>, s: ShardId, p: u32)
    requires p in positions && p in nodeMap && nodeMap[p] == s
    ensures p !in Sweep(positions, nodeMap, s).1
  {
    var init, q := positions[..|positions| - 1], positions[|positions| - 1];
    assert positions == init + [q];
    if p in init {
      SweptIsGone(init, nodeMap, s, p);
    } else {
      SweepLeaves(init, nodeMap, s, p);
    }
  }

  /** A position that occurs twice is given up once and kept once, by nobody. */
  lemma {:induction false} SweptTwiceIsKept(positions: seq<u32>, nodeMap: map<u32, ShardId>, s: ShardId, i: nat, j: nat)
    requires i < j < |positions| && positions[i] == positions[j]
    requires positions[j] in nodeMap && nodeMap[positions[j]] == s && s != NO_TEXT
    ensures positions[j] in Sweep(positions, nodeMap, s).0
  {
    var init, p := positions[..|positions| - 1], positions[j];
    assert init[i] == p;
    if j < |init| {
      SweptTwiceIsKept(init, nodeMap, s, i, j);
    } else {
      SweptIsGone(init, nodeMap, s, p);
    }
  }

  lemma CountsTwice(xs: seq<u32>, i: nat, j: nat)
    requires i < j < |xs| && xs[i] == xs[j]
    ensures multiset(xs)[xs[j]] >= 2
  {
    assert xs == xs[..j] + xs[j..];
    assert xs[..j][i] == xs[j] && xs[j..][0] == xs[j];
    assert multiset(xs[..j])[xs[j]] >= 1 && multiset(xs[j..])[xs[j]] >= 1;
  }

  lemma {:induction false} FindTwice(xs: seq<u32>, p: u32) returns (i: nat, j: nat)
    requires multiset(xs)[p] >= 2
    ensures i < j < |xs| && xs[i] == p == xs[j]
  {
    var init, last := xs[..|xs| - 1], xs[|xs| - 1];
    assert xs == init + [last];
    if last == p {
      assert multiset(init)[p] >= 1 && p in init;
      i, j :| 0 <= i < |init| && init[i] == p && j == |init|;
    } else {
      i, j := FindTwice(init, p);
    }
  }

  /** Two virtual nodes on one position, at least one of them the new shard's. */
  ghost predicate Collides(hash: Hash, v: nat, shards: set<ShardId>, s: ShardId, i: nat, t: ShardId, j: nat) {
    i < v && j < v && t in shards + {s} && (s != t || i != j) && Point(hash, s, i) == Point(hash, t, j)
  }

  lemma CollisionOf(hash: Hash, v: nat, shards: set<ShardId>, s: ShardId) returns (i: nat, t: ShardId, j: nat)
    requires NoCollisions(hash, v, shards) && !NoCollisions(hash, v, shards + {s})
    ensures Collides(hash, v, shards, s, i, t, j)
  {
    var a, b, x: nat, y: nat :| a in shards + {s} && b in shards + {s} && x < v && y < v
                                && Point(hash, a, x) == Point(hash, b, y) && !(a == b && x == y);
    if a == s {
      i, t, j := x, b, y;
    } else {
      i, t, j := y, a, x;
    }
  }

  lemma FaithfulOwner(hash: Hash, v: nat, r: Ring, t: ShardId, j: nat) returns (k: nat)
    requires Faithful(hash, v, r) && t in r.shards && j < v
    ensures k < |r.positions| && r.positions[k] == Point(hash, t, j)
  {
    assert IsPoint(hash, v, t, Point(hash, t, j));
    k :| k < |r.positions| && r.positions[k] == Point(hash, t, j);
  }

  lemma CollidedTwice(hash: Hash, v: nat, r: Ring, s: ShardId, i: nat, t: ShardId, j: nat)
    requires Faithful(hash, v, r) && Collides(hash, v, r.shards, s, i, t, j)
    ensures multiset(r.positions + Points(hash, s, v))[Point(hash, s, i)] >= 2
  {
    var p, points := Point(hash, s, i), Points(hash, s, v);
    CountsBoth(r.positions, points, p);
    assert points[i] == p;
    if t == s {
      CountsTwice(points, if i < j then i else j, if i < j then j else i);
    } else {
      var k := FaithfulOwner(hash, v, r, t, j);
    }
  }

  lemma CountsBoth(xs: seq<u32>, ys: seq<u32>, p: u32)
    ensures multiset(xs + ys)[p] == multiset(xs)[p] + multiset(ys)[p]
  {
  }

  /** After the new shard is added, a collided position occurs twice, under its name. */
  lemma AddedTwice(hash: Hash, v: nat, r: Ring, s: ShardId, i: nat, t: ShardId, j: nat) returns (x: nat, y: nat)
    requires Faithful(hash, v, r) && s !in r.shards && Collides(hash, v, r.shards, s, i, t, j)
    ensures var p, added := Point(hash, s, i), OnAdd(hash, v, r, s);
            && InOrder(added.positions) && x < y < |added.positions| && added.positions[x] == p == added.positions[y]
            && p in added.nodeMap && added.nodeMap[p] == s
  {
    var points := Points(hash, s, v);
    assert points[i] == Point(hash, s, i);
    ClaimLaw(r.nodeMap, points, s);
    SortedIsSort(r.positions + points);
    CollidedTwice(hash, v, r, s, i, t, j);
    x, y := FindTwice(OnAdd(hash, v, r, s).positions, Point(hash, s, i));
  }

  /** When the added shard goes again, a position stays behind that belongs to nobody,
      and a key that hashes to it is routed to nobody. */
  lemma CollisionLosesKeys(hash: Hash, v: nat, r: Ring, s: ShardId) returns (key: Key)
    requires Faithful(hash, v, r) && s !in r.shards && s != NO_TEXT
    requires NoCollisions(hash, v, r.shards) && !NoCollisions(hash, v, r.shards + {s})
    ensures var after := OnRemove(OnAdd(hash, v, r, s), s);
            && hash(key) in after.positions && hash(key) !in after.nodeMap
            && Route(hash, after, key) == NO_TEXT
  {
    var i, t, j := CollisionOf(hash, v, r.shards, s);
    var x, y := AddedTwice(hash, v, r, s, i, t, j);
    key := VirtualNodeKey(s, i);
    TwiceIsLost(hash, OnAdd(hash, v, r, s), s, x, y, key);
  }

  lemma TwiceIsLost(hash: Hash, added: Ring, s: ShardId, x: nat, y: nat, key: Key)
    requires x < y < |added.positions| && added.positions[x] == hash(key) == added.positions[y]
    requires InOrder(added.positions) && hash(key) in added.nodeMap && added.nodeMap[hash(key)] == s != NO_TEXT
    requires s in added.shards
    ensures var after := OnRemove(added, s);
            && hash(key) in after.positions && hash(key) !in after.nodeMap
            && Route(hash, after, key) == NO_TEXT
  {
    SweptIsGone(added.positions, added.nodeMap, s, hash(key));
    SweptTwiceIsKept(added.positions, added.nodeMap, s, x, y);
    SweepInOrder(added.positions, added.nodeMap, s);
    StartsThere(OnRemove(added, s).positions, hash(key));
  }

  lemma StartsThere(positions: seq<u32>, p: u32)
    requires InOrder(positions) && p in positions
    ensures positions[Start(positions, p)] == p
  {
    var i :| 0 <= i < |positions| && positions[i] == p;
    assert First(positions, p) <= i;
  }

  /** The exact condition: removing a shard undoes adding it if and only if none of its
      virtual nodes falls on another's position, or on one of its own. */
  lemma RemoveUndoesAddIff(hash: Hash, v: nat, r: Ring, s: ShardId)
    requires Faithful(hash, v, r) && NoCollisions(hash, v, r.shards) && s !in r.shards && s != NO_TEXT
    ensures OnRemove(OnAdd(hash, v, r, s), s) == r <==> NoCollisions(hash, v, r.shards + {s})
  {
    if NoCollisions(hash, v, r.shards + {s}) {
      RemoveUndoesAdd(hash, v, r, s);
    } else {
      var key := CollisionLosesKeys(hash, v, r, s);
    }
  }

  /** And all keys are routed as before if and only if that is so, or there was no shard to
      route them to. */
  lemma RoutingRestoredIff(hash: Hash, v: nat, r: Ring, s: ShardId)
    requires Faithful(hash, v, r) && NoCollisions(hash, v, r.shards) && s !in r.shards && s != NO_TEXT
    requires NO_TEXT !in r.shards
    ensures (forall key :: Route(hash, OnRemove(OnAdd(hash, v, r, s), s), key) == Route(hash, r, key))
            <==> NoCollisions(hash, v, r.shards + {s}) || r.shards == {}
  {
    if NoCollisions(hash, v, r.shards + {s}) {
      RemoveUndoesAdd(hash, v, r, s);
    } else if r.shards == {} {
      forall key ensures Route(hash, OnRemove(OnAdd(hash, v, r, s), s), key) == Route(hash, r, key) {
        OnlyShardGone(hash, v, r, s, key);
      }
    } else {
      var key := CollisionLosesKeys(hash, v, r, s);
      RouteServes(hash, v, r, key);
    }
  }

  /** The only shard takes every owner with it, whatever positions stay behind. */
  lemma OnlyShardGone(hash: Hash, v: nat, r: Ring, s: ShardId, key: Key)
    requires Faithful(hash, v, r) && v > 0 && r.shards == {}
    ensures Route(hash, r, key) == NO_TEXT && Route(hash, OnRemove(OnAdd(hash, v, r, s), s), key) == NO_TEXT
  {
    RouteServes(hash, v, r, key);
    NoOwners(hash, v, r);
    var points, added := Points(hash, s, v), OnAdd(hash, v, r, s);
    ClaimLaw(r.nodeMap, points, s);
    SortedIsSort(r.positions + points);
    forall p ensures p !in OnRemove(added, s).nodeMap {
      if p in points {
        assert p in multiset(added.positions);
        SweptIsGone(added.positions, added.nodeMap, s, p);
      } else {
        SweepShrinks(added.positions, added.nodeMap, s, p);
      }
    }
  }

  lemma NoOwners(hash: Hash, v: nat, r: Ring)
    requires Faithful(hash, v, r) && r.shards == {}
    ensures r.nodeMap == map[]
  {
  }

  lemma {:induction false} SweepShrinks(positions: seq<u32>, nodeMap: map<u32, ShardId>, s: ShardId, p: u32)
    requires p !in nodeMap
    ensures p !in Sweep(positions, nodeMap, s).1
  {
    if positions != [] {
      SweepShrinks(positions[..|positions| - 1], nodeMap, s, p);
    }
  }
}
