/** The topology manager: a registry of shards, the hash ring over them, and a version
    drawn from the hybrid clock. */
module Topology {
  import opened Basics
  import Hlc
  import H = HashRing
  import R = RingLaws

  datatype ShardStatus = Unknown | Active | Draining | Offline
  datatype ShardInfo = ShardInfo(shardID: ShardId, address: Text, replicaSet: Text, priority: int, status: ShardStatus)
  datatype TopologyError = EmptyShardID | EmptyAddress | ShardNotFound | NoShards

  class TopologyManager {
    var registry: map<ShardId, ShardInfo>
    const hashRing: H.HashRing
    var topologyVersion: u64
    const clock: Hlc.Clock

    /** The registry and the ring know the same shards, each under its own nonempty name
        and with an address; the version is a past reading of the clock. */
    ghost predicate Valid()
      reads this, hashRing, clock
    {
      && registry.Keys == hashRing.shardSet
      && (forall s <- registry :: s != NO_TEXT && registry[s].shardID == s && registry[s].address != NO_TEXT)
      && R.InOrder(hashRing.ring) && hashRing.virtualNodes > 0
      && topologyVersion <= clock.ts
    }

    ghost predicate Faithful()
      reads hashRing
    {
      R.Faithful(hashRing.hashKey, hashRing.virtualNodes, hashRing.View())
    }

    constructor (hashKey: H.Hash, clock: Hlc.Clock)
      ensures Valid() && Faithful() && registry == map[] && this.clock == clock && fresh(hashRing)
      ensures topologyVersion == 0
    {
      registry, topologyVersion := map[], 0;
      hashRing := new H.HashRing(hashKey);
      this.clock := clock;
    }

    method IncrementVersion(now: u64)
      modifies this`topologyVersion, clock
      ensures topologyVersion == clock.ts == Hlc.TickTs(old(clock.ts), now)
    {
      topologyVersion := clock.Tick(now);
    }

    /** The version a change leaves is above every version before it, clock permitting. */
    twostate predicate Bumped(now: u64)
      reads this, clock
    {
      && topologyVersion == clock.ts == Hlc.TickTs(old(clock.ts), now)
      && (Hlc.TickFits(old(clock.ts), now) && old(topologyVersion) <= old(clock.ts) ==>
          topologyVersion > old(topologyVersion))
    }

    /** A new shard joins the ring under a new version. A known one is overwritten in the
        registry, its address included, and the version stays. */
    method AddShard(info: ShardInfo, now: u64) returns (r: Result<u64, TopologyError>)
      requires Valid()
      modifies this, hashRing, clock
      ensures Valid()
      ensures r.Err? <==> info.shardID == NO_TEXT || info.address == NO_TEXT
      ensures r.Err? ==> registry == old(registry) && topologyVersion == old(topologyVersion)
                         && hashRing.View() == old(hashRing.View())
      ensures r.Ok? ==> r.value == topologyVersion && registry == old(registry)[info.shardID := info]
      ensures r.Ok? && info.shardID in old(registry) ==>
                topologyVersion == old(topologyVersion) && hashRing.View() == old(hashRing.View())
      ensures r.Ok? && info.shardID !in old(registry) ==>
                && Bumped(now)
                && hashRing.View() ==
                   H.OnAdd(hashRing.hashKey, hashRing.virtualNodes, old(hashRing.View()), info.shardID)
      ensures old(Faithful()) && R.NoCollisions(hashRing.hashKey, hashRing.virtualNodes, registry.Keys) ==> Faithful()
    {
      if info.shardID == NO_TEXT {
        return Err(EmptyShardID);
      }
      if info.address == NO_TEXT {
        return Err(EmptyAddress);
      }
      var isNew := info.shardID !in registry;
      registry := registry[info.shardID := info];
      if isNew {
        ghost var before := hashRing.View();
        var _ := hashRing.AddShard(info.shardID);
        AddStaysFit(hashRing.hashKey, hashRing.virtualNodes, before, info.shardID);
        Hlc.TickGrowsIff(clock.ts, now);
        IncrementVersion(now);
      }
      r := Ok(topologyVersion);
    }

    method RemoveShard(shard: ShardId, now: u64) returns (r: Result<u64, TopologyError>)
      requires Valid()
      modifies this, hashRing, clock
      ensures Valid()
      ensures r.Err? <==> shard !in old(registry)
      ensures r.Err? ==> registry == old(registry) && topologyVersion == old(topologyVersion)
                         && hashRing.View() == old(hashRing.View())
      ensures r.Ok? ==>
                && r.value == topologyVersion && Bumped(now) && registry == old(registry) - {shard}
                && hashRing.View() == H.OnRemove(old(hashRing.View()), shard)
      ensures old(Faithful()) ==> Faithful()
    {
      if shard !in registry {
        return Err(ShardNotFound);
      }
      registry := registry - {shard};
      ghost var before := hashRing.View();
      var _ := hashRing.RemoveShard(shard);
      RemoveStaysFit(hashRing.hashKey, hashRing.virtualNodes, before, shard);
      Hlc.TickGrowsIff(clock.ts, now);
      IncrementVersion(now);
      r := Ok(topologyVersion);
    }

    method UpdateShardStatus(shard: ShardId, status: ShardStatus, now: u64) returns (r: Result<u64, TopologyError>)
      requires Valid()
      modifies this, clock
      ensures Valid()
      ensures r.Err? <==> shard !in old(registry)
      ensures r.Err? ==> registry == old(registry) && topologyVersion == old(topologyVersion)
      ensures r.Ok? ==>
                && r.value == topologyVersion && Bumped(now)
                && registry == old(registry)[shard := old(registry)[shard].(status := status)]
    {
      if shard !in registry {
        return Err(ShardNotFound);
      }
      registry := registry[shard := registry[shard].(status := status)];
      Hlc.TickGrowsIff(clock.ts, now);
      IncrementVersion(now);
      r := Ok(topologyVersion);
    }

    method GetShardForKey(key: Key) returns (r: Result<ShardId, TopologyError>)
      requires Valid()
      ensures var shard := H.Route(hashRing.hashKey, hashRing.View(), key);
              r == if shard == NO_TEXT then Err(NoShards) else Ok(shard)
      ensures Faithful() ==> (r.Err? <==> registry == map[]) && (r.Ok? ==> r.value in registry)
    {
      var shard := hashRing.GetShardForKey(key);
      R.RouteIsMember(hashRing.hashKey, hashRing.virtualNodes, hashRing.View(), key);
      r := if shard == NO_TEXT then Err(NoShards) else Ok(shard);
    }

    /** With a faithful ring the second error cannot happen: whoever a key is routed to
        is registered and has an address. */
    method GetShardAddressForKey(key: Key) returns (r: Result<Text, TopologyError>)
      requires Valid()
      ensures Faithful() ==>
                && (registry == map[] ==> r == Err(NoShards))
                && (registry != map[] ==>
                      var shard := H.Route(hashRing.hashKey, hashRing.View(), key);
                      shard in registry && r == Ok(registry[shard].address))
    {
      var found := GetShardForKey(key);
      if found.Err? {
        return Err(NoShards);
      }
      var addr := if found.value in registry then registry[found.value].address else NO_TEXT;
      r := if addr == NO_TEXT then Err(ShardNotFound) else Ok(addr);
    }
  }

  lemma AddStaysFit(hash: H.Hash, v: nat, r: H.Ring, s: ShardId)
    ensures s !in r.shards ==> R.InOrder(H.OnAdd(hash, v, r, s).positions)
    ensures R.Faithful(hash, v, r) && R.NoCollisions(hash, v, r.shards + {s}) ==>
            R.Faithful(hash, v, H.OnAdd(hash, v, r, s))
  {
    R.SortedIsSort(r.positions + H.Points(hash, s, v));
    if R.Faithful(hash, v, r) && R.NoCollisions(hash, v, r.shards + {s}) {
      R.AddFaithful(hash, v, r, s);
    }
  }

  lemma RemoveStaysFit(hash: H.Hash, v: nat, r: H.Ring, s: ShardId)
    requires R.InOrder(r.positions)
    ensures R.InOrder(H.OnRemove(r, s).positions)
    ensures R.Faithful(hash, v, r) ==> R.Faithful(hash, v, H.OnRemove(r, s))
  {
    R.SweepInOrder(r.positions, r.nodeMap, s);
    if R.Faithful(hash, v, r) {
      R.RemoveFaithful(hash, v, r, s);
    }
  }
}
