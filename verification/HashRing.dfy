/** Consistent hashing: virtual nodes of the shards on a circle of 32-bit positions; a
    key belongs to the shard whose virtual node follows the key's hash. */
module HashRing {
  import opened Basics
  import B = Buffer

  const DEFAULT_VIRTUAL_NODES := 150
  const TWO_32 := 0x1_0000_0000

  // ---------------------------------------------------------------- virtual-node keys

  /** The conversion of an integer to a rune and to a string: 32 bits are kept, and what
      is no Unicode scalar value becomes the replacement character. */
  function RuneChar(x: int): char {
    var r := x % TWO_32;
    if r < 0xD800 || 0xE000 <= r < 0x11_0000 then r as char else 0xFFFD as char
  }

  function VirtualNodeKey(shard: ShardId, index: nat): Text {
    Text(shard.chars + "#" +
         [RuneChar('0' as int + index / 100), RuneChar('0' as int + index % 100 / 10),
          RuneChar('0' as int + index % 10)])
  }

  /** Up to the last character below the surrogates the key ends in the digits of the index:
      tens and ones are decimal digits, what stands before them counts the hundreds. */
  lemma VirtualNodeKeyIsNumeral(shard: ShardId, index: nat)
    requires '0' as int + index / 100 < 0xD800
    ensures var k, n := VirtualNodeKey(shard, index).chars, |shard.chars|;
            && |k| == n + 4 && k[..n] == shard.chars && k[n] == '#'
            && '0' <= k[n + 2] <= '9' && '0' <= k[n + 3] <= '9'
            && (k[n + 1] as int - '0' as int) * 100 + (k[n + 2] as int - '0' as int) * 10
               + (k[n + 3] as int - '0' as int) == index
  {
    Digits(index);
    RuneIsChar('0' as int + index / 100);
    RuneIsChar('0' as int + index % 100 / 10);
    RuneIsChar('0' as int + index % 10);
  }

  lemma RuneIsChar(x: nat)
    requires x < 0xD800
    ensures RuneChar(x) as int == x
  {
  }

  /** Below this many virtual nodes the key "unique to a virtual node" is one. */
  const MAX_UNIQUE := 5_524_900

  lemma RuneInjective(a: nat, b: nat)
    requires RuneChar('0' as int + a) == RuneChar('0' as int + b) && a < MAX_UNIQUE / 100 && b < MAX_UNIQUE / 100
    ensures a == b
  {
  }

  lemma Digits(i: nat)
    ensures i == i / 100 * 100 + i % 100 / 10 * 10 + i % 10
  {
    var q, r := i / 100, i % 100;
    var t, u := r / 10, r % 10;
    assert i == 10 * (10 * q + t) + u;
    assert i / 10 == 10 * q + t;
  }

  lemma DigitsDetermine(i: nat, j: nat)
    requires i / 100 == j / 100 && i % 100 / 10 == j % 100 / 10 && i % 10 == j % 10
    ensures i == j
  {
    Digits(i);
    Digits(j);
  }

  lemma VirtualNodeKeyInjective(s: ShardId, t: ShardId, i: nat, j: nat)
    requires VirtualNodeKey(s, i) == VirtualNodeKey(t, j) && i < MAX_UNIQUE && j < MAX_UNIQUE
    ensures s == t && i == j
  {
    var k, l, n := VirtualNodeKey(s, i).chars, VirtualNodeKey(t, j).chars, |s.chars|;
    assert |k| == n + 4 && |l| == |t.chars| + 4;
    assert s.chars == k[..n] && t.chars == l[..n];
    assert k[n + 1] == l[n + 1] && k[n + 2] == l[n + 2] && k[n + 3] == l[n + 3];
    RuneInjective(i / 100, j / 100);
    RuneInjective(i % 100 / 10, j % 100 / 10);
    RuneInjective(i % 10, j % 10);
    DigitsDetermine(i, j);
  }

  /** One virtual node more, and two of them share a key. */
  lemma VirtualNodeKeysUniqueIff(s: ShardId, n: nat)
    ensures (forall i, j :: 0 <= i < n && 0 <= j < n && VirtualNodeKey(s, i) == VirtualNodeKey(s, j) ==> i == j)
            <==> n <= MAX_UNIQUE
  {
    if n <= MAX_UNIQUE {
      forall i, j | 0 <= i < n && 0 <= j < n && VirtualNodeKey(s, i) == VirtualNodeKey(s, j) ensures i == j {
        VirtualNodeKeyInjective(s, s, i, j);
      }
    } else {
      assert VirtualNodeKey(s, 5_524_800) == VirtualNodeKey(s, 5_524_900);
    }
  }

  // ---------------------------------------------------------------- the ring as a value

  type Hash = Text -> u32

  datatype Ring = Ring(positions: seq<u32>, nodeMap: map<u32, ShardId>, shards: set<ShardId>)

  const EMPTY := Ring([], map[], {})

  function Point(hash: Hash, s: ShardId, i: nat): u32 {
    hash(VirtualNodeKey(s, i))
  }

  function Points(hash: Hash, s: ShardId, n: nat): (points: seq<u32>)
    ensures |points| == n && forall i :: 0 <= i < n ==> points[i] == Point(hash, s, i)
  {
    if n == 0 then [] else Points(hash, s, n - 1) + [Point(hash, s, n - 1)]
  }

  function Claim(nodeMap: map<u32, ShardId>, points: seq<u32>, s: ShardId): map<u32, ShardId> {
    if points == [] then nodeMap else Claim(nodeMap, points[..|points| - 1], s)[points[|points| - 1] := s]
  }

  function InsertSorted(xs: seq<u32>, x: u32): seq<u32> {
    if xs == [] || x <= xs[0] then [x] + xs else [xs[0]] + InsertSorted(xs[1..], x)
  }

  /** The one non-descending arrangement, which every correct sort arrives at. */
  function Sorted(xs: seq<u32>): seq<u32> {
    if xs == [] then [] else InsertSorted(Sorted(xs[1..]), xs[0])
  }

  /** The owner of a position, as Go reads a map: nobody is the empty name. */
  function Owner(nodeMap: map<u32, ShardId>, p: u32): ShardId {
    if p in nodeMap then nodeMap[p] else NO_TEXT
  }

  /** One pass over the positions that gives up those a shard still owns. */
  function Sweep(positions: seq<u32>, nodeMap: map<u32, ShardId>, s: ShardId): (seq<u32>, map<u32, ShardId>) {
    if positions == [] then ([], nodeMap)
    else
      var p := positions[|positions| - 1];
      var (kept, m) := Sweep(positions[..|positions| - 1], nodeMap, s);
      if Owner(m, p) != s then (kept + [p], m) else (kept, m - {p})
  }

  function OnAdd(hash: Hash, v: nat, r: Ring, s: ShardId): Ring {
    if s in r.shards then r
    else
      var points := Points(hash, s, v);
      Ring(Sorted(r.positions + points), Claim(r.nodeMap, points, s), r.shards + {s})
  }

  function OnRemove(r: Ring, s: ShardId): Ring {
    if s !in r.shards then r
    else
      var (kept, m) := Sweep(r.positions, r.nodeMap, s);
      Ring(kept, m, r.shards - {s})
  }

  /** The number of positions below `h`, counted from the left. */
  function First(positions: seq<u32>, h: u32): (n: nat)
    ensures n <= |positions|
    ensures forall i :: 0 <= i < n ==> positions[i] < h
    ensures n < |positions| ==> positions[n] >= h
  {
    if positions == [] || positions[0] >= h then 0 else 1 + First(positions[1..], h)
  }

  /** Past the last position the circle starts over. */
  function Start(positions: seq<u32>, h: u32): nat {
    if First(positions, h) == |positions| then 0 else First(positions, h)
  }

  function Route(hash: Hash, r: Ring, key: Key): ShardId {
    if r.positions == [] then NO_TEXT else Owner(r.nodeMap, r.positions[Start(r.positions, hash(key))])
  }

  // ---------------------------------------------------------------- the walk around the ring

  /** The position `k` steps clockwise of index `start`, within one turn. */
  function StepIndex(n: nat, start: nat, k: nat): (i: nat)
    requires start < n && k < n
    ensures i < n
  {
    if start + k < n then start + k else start + k - n
  }

  /** One step clockwise, wrapping around. */
  function Next(i: nat, n: nat): (j: nat)
    requires i < n
    ensures j == if i + 1 < n then i + 1 else 0
  {
    (i + 1) % n
  }

  function OwnerAt(r: Ring, start: nat, k: nat): ShardId
    requires start < |r.positions| && k < |r.positions|
  {
    Owner(r.nodeMap, r.positions[StepIndex(|r.positions|, start, k)])
  }

  /** The owners met in the first `k` steps, each once, in the order they are met. */
  function Met(r: Ring, start: nat, k: nat): seq<ShardId>
    requires start < |r.positions| && k <= |r.positions|
  {
    if k == 0 then []
    else
      var met, o := Met(r, start, k - 1), OwnerAt(r, start, k - 1);
      if o in met then met else met + [o]
  }

  lemma MetStep(r: Ring, start: nat, k: nat, met: seq<ShardId>, o: ShardId)
    requires start < |r.positions| && k < |r.positions| && met == Met(r, start, k)
    requires o == Owner(r.nodeMap, r.positions[StepIndex(|r.positions|, start, k)])
    ensures Met(r, start, k + 1) == if o in met then met else met + [o]
  {
  }

  /** One step of the walk, as long as owners are wanted that lie within the turn. */
  lemma WalkStep(r: Ring, start: nat, k: nat, idx: nat, wanted: nat)
    requires start < |r.positions| && k <= |r.positions| && wanted <= |Met(r, start, |r.positions|)|
    requires |Met(r, start, k)| < wanted && (k < |r.positions| ==> idx == StepIndex(|r.positions|, start, k))
    ensures k < |r.positions| && idx == StepIndex(|r.positions|, start, k)
    ensures k + 1 < |r.positions| ==> Next(idx, |r.positions|) == StepIndex(|r.positions|, start, k + 1)
  {
  }

  lemma {:induction false} MetGrows(r: Ring, start: nat, k: nat, l: nat)
    requires start < |r.positions| && k <= l <= |r.positions|
    ensures Met(r, start, k) <= Met(r, start, l)
  {
    if k < l {
      MetGrows(r, start, k, l - 1);
    }
  }

  lemma {:induction false} MetIsDistinct(r: Ring, start: nat, k: nat)
    requires start < |r.positions| && k <= |r.positions|
    ensures B.Distinct(Met(r, start, k))
    ensures forall o :: o in Met(r, start, k) <==> exists l :: 0 <= l < k && OwnerAt(r, start, l) == o
  {
    if k > 0 {
      MetIsDistinct(r, start, k - 1);
      var met, o := Met(r, start, k - 1), OwnerAt(r, start, k - 1);
      forall x ensures x in Met(r, start, k) <==> exists l :: 0 <= l < k && OwnerAt(r, start, l) == x {
        if l :| 0 <= l < k && OwnerAt(r, start, l) == x {
          assert l < k - 1 || x == o;
        }
        assert o in met || (met + [o])[|met|] == o;
      }
    }
  }

  /** The shards a key is replicated on. */
  function Replicas(hash: Hash, r: Ring, key: Key, n: nat): seq<ShardId> {
    if r.positions == [] then []
    else
      var all := Met(r, Start(r.positions, hash(key)), |r.positions|);
      all[..if n <= |r.shards| && n <= |all| then n else if |r.shards| <= |all| then |r.shards| else |all|]
  }

  // ---------------------------------------------------------------- the ring object

  class HashRing {
    const hashKey: Hash
    const virtualNodes: nat
    var ring: seq<u32>
    var nodeMap: map<u32, ShardId>
    var shardSet: set<ShardId>

    function View(): Ring
      reads this
    {
      Ring(ring, nodeMap, shardSet)
    }

    constructor (hashKey: Hash)
      ensures View() == EMPTY && this.hashKey == hashKey && virtualNodes == DEFAULT_VIRTUAL_NODES
    {
      this.hashKey := hashKey;
      virtualNodes := DEFAULT_VIRTUAL_NODES;
      ring, nodeMap, shardSet := [], map[], {};
    }

    constructor WithVNodes(hashKey: Hash, virtualNodes: int)
      ensures View() == EMPTY && this.hashKey == hashKey && this.virtualNodes > 0
      ensures virtualNodes > 0 ==> this.virtualNodes == virtualNodes
      ensures virtualNodes <= 0 ==> this.virtualNodes == DEFAULT_VIRTUAL_NODES
    {
      this.hashKey := hashKey;
      this.virtualNodes := if virtualNodes <= 0 then DEFAULT_VIRTUAL_NODES else virtualNodes;
      ring, nodeMap, shardSet := [], map[], {};
    }

    method AddShard(shard: ShardId) returns (added: bool)
      modifies this
      ensures added == (shard !in old(shardSet))
      ensures View() == OnAdd(hashKey, virtualNodes, old(View()), shard)
    {
      if shard in shardSet {
        return false;
      }
      for i := 0 to virtualNodes
        invariant shardSet == old(shardSet)
        invariant ring == old(ring) + Points(hashKey, shard, i)
        invariant nodeMap == Claim(old(nodeMap), Points(hashKey, shard, i), shard)
      {
        var hash := hashKey(VirtualNodeKey(shard, i));
        assert Points(hashKey, shard, i + 1)[..i] == Points(hashKey, shard, i);
        ring := ring + [hash];
        nodeMap := nodeMap[hash := shard];
      }
      ring := Sorted(ring);
      shardSet := shardSet + {shard};
      added := true;
    }

    method RemoveShard(shard: ShardId) returns (removed: bool)
      modifies this
      ensures removed == (shard in old(shardSet))
      ensures View() == OnRemove(old(View()), shard)
    {
      if shard !in shardSet {
        return false;
      }
      var newRing: seq<u32> := [];
      for i := 0 to |ring|
        invariant ring == old(ring) && shardSet == old(shardSet)
        invariant (newRing, nodeMap) == Sweep(ring[..i], old(nodeMap), shard)
      {
        assert ring[..i + 1][..i] == ring[..i];
        var hash := ring[i];
        if Owner(nodeMap, hash) != shard {
          newRing := newRing + [hash];
        } else {
          nodeMap := nodeMap - {hash};
        }
      }
      assert ring[..|ring|] == ring;
      ring := newRing;
      shardSet := shardSet - {shard};
      removed := true;
    }

    /** Binary search for the first position at or after `hash`, index 0 past the end. */
    method Search(hash: u32) returns (idx: nat)
      requires forall i, j :: 0 <= i < j < |ring| ==> ring[i] <= ring[j]
      ensures idx == Start(ring, hash)
    {
      var lo, hi := 0, |ring|;
      while lo < hi
        invariant 0 <= lo <= First(ring, hash) <= hi <= |ring|
      {
        var mid := (lo + hi) / 2;
        if ring[mid] >= hash {
          hi := mid;
        } else {
          lo := mid + 1;
        }
      }
      idx := if lo >= |ring| then 0 else lo;
    }

    method GetShardForKey(key: Key) returns (shard: ShardId)
      requires forall i, j :: 0 <= i < j < |ring| ==> ring[i] <= ring[j]
      ensures shard == Route(hashKey, View(), key)
    {
      if |ring| == 0 {
        return NO_TEXT;
      }
      var idx := Search(hashKey(key));
      shard := Owner(nodeMap, ring[idx]);
    }

    /** Clockwise from index `start` until `wanted` owners are met; one turn is enough. */
    method Walk(start: nat, wanted: nat) returns (result: seq<ShardId>)
      requires start < |ring| && wanted <= |Met(View(), start, |ring|)|
      ensures result == Met(View(), start, |ring|)[..wanted]
    {
      var idx := start;
      result := [];
      var seen: set<ShardId> := {};
      ghost var k := 0;
      while |result| < wanted
        invariant k <= |ring| && (k < |ring| ==> idx == StepIndex(|ring|, start, k))
        invariant |result| <= wanted
        invariant result == Met(View(), start, k)
        invariant forall s :: s in seen <==> s in result
        decreases |ring| - k
      {
        WalkStep(View(), start, k, idx, wanted);
        var shard := Owner(nodeMap, ring[idx]);
        MetStep(View(), start, k, result, shard);
        if shard !in seen {
          seen := seen + {shard};
          result := result + [shard];
        }
        idx := Next(idx, |ring|);
        k := k + 1;
      }
      MetGrows(View(), start, k, |ring|);
    }

    /** Without shards the answer is empty for any `n`; otherwise a negative one panics. */
    method GetNShards(key: Key, n: int) returns (result: seq<ShardId>)
      requires forall i, j :: 0 <= i < j < |ring| ==> ring[i] <= ring[j]
      requires shardSet != {} ==>
                 && n >= 0 && ring != []
                 && var met := |Met(View(), Start(ring, hashKey(key)), |ring|)|; n <= met || |shardSet| <= met
      ensures shardSet == {} ==> result == []
      ensures shardSet != {} ==> result == Replicas(hashKey, View(), key, n)
    {
      var shardCount := |shardSet|;
      if shardCount == 0 {
        return [];
      }
      var wanted := if n > shardCount then shardCount else n;
      var idx := Search(hashKey(key));
      result := Walk(idx, wanted);
    }
  }
}
