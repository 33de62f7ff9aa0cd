/** What a transaction's calls leave at its shards, in the whole system: its records are the
    answers it got, a second start takes nothing away, and what it wrote stays pending
    until its outcome. */
module PendingWrites {
  import opened Basics
  import Hlc
  import S = Store
  import B = Buffer
  import SI = SiteInvariant
  import Shard
  import ShardLaws
  import Site
  import opened Cluster
  import opened ClusterInvariant
  import opened Reread

  // ---------------------------------------------------------------- one call

  /** A shard with another buffer for one transaction, at another clock reading. */
  function WithBuffer(site: Site.Site, t: TxId, b: B.Buf, ts: u64): Site.Site {
    site.(st := site.st.(ts := ts, buffers := site.st.buffers[t := b]))
  }

  /** After a read the buffer is as before, with exactly the answer as the record of the key:
      what the snapshot shows of the commits the shard has applied. Nothing else changes. */
  lemma ReadIsRecorded(c: State, t: TxId, s: ShardId, k: Key, now: u64)
    requires Reachable(c) && Asks(c, t, s, k) && Enabled(c, Read(t, s, k, now))
    ensures var b, reply := c.sites[s].st.buffers[t], ReplyAt(c.sites[s].log, k, c.coords[t].snapshot);
            && Answer(c, t, s, k) == Ok(reply)
            && Next(c, Read(t, s, k, now)) ==
               c.(sites := c.sites[s :=
                 WithBuffer(c.sites[s], t, b.(readSet := b.readSet[k := RecordOf(k, reply)]),
                            if reply.found then Hlc.TickTs(TsOf(c, s), now) else TsOf(c, s))])
  {
    ReachableInv(c);
    ShardLaws.ReadLaw(c.sites[s], t, k, c.coords[t].snapshot, now);
    AnswerIsShown(c, t, s, k);
  }

  /** A start at a shard that has a buffer of the transaction changes nothing at all, heard or
      not: the shard does not become involved. Otherwise the shard gets an empty buffer,
      and becomes involved if the answer arrives. */
  lemma StartOutcome(c: State, t: TxId, s: ShardId, heard: bool)
    requires Enabled(c, Start(t, s, heard))
    ensures t in c.sites[s].st.buffers ==> Next(c, Start(t, s, heard)) == c
    ensures t !in c.sites[s].st.buffers ==>
              var k := c.coords[t];
              Next(c, Start(t, s, heard)) ==
              c.(sites := c.sites[s := WithBuffer(c.sites[s], t, B.Buf(map[], [], map[]), c.sites[s].st.ts)],
                 coords := if heard then c.coords[t := k.(involved := k.involved + {s})] else c.coords)
  {
    ShardLaws.StartLaw(c.sites[s], t);
    if t in c.sites[s].st.buffers {
      assert c.sites[s := c.sites[s]] == c.sites;
    }
  }

  // ---------------------------------------------------------------- until the outcome

  /** The operation is pending. */
  predicate Pends(site: Site.Site, t: TxId, op: B.WriteOp) {
    && t in site.st.buffers && op.key in site.st.buffers[t].writes
    && site.st.buffers[t].writes[op.key] == op
  }

  /** The action is neither another write of the key, nor an outcome or ABORT vote of the
      transaction at that shard. */
  ghost predicate Spares(c: State, a: Action, t: TxId, s: ShardId, k: Key)
    requires Enabled(c, a) && s in c.sites
  {
    && !(a.Write? && a.tx == t && a.shard == s && a.key == k)
    && !((a.Commit? || a.Abort?) && a.tx == t && a.shard == s)
    && !(a.Prepare? && a.tx == t && a.shard == s
         && Site.Prepare(c.sites[s], t, c.coords[t].iso, a.now).1.vote == Shard.VoteAbort)
  }

  ghost predicate AllSpare(c: State, actions: seq<Action>, t: TxId, s: ShardId, k: Key)
    requires Legal(c, actions) && s in c.sites
    decreases |actions|
  {
    actions == [] ||
    (Spares(c, actions[0], t, s, k)
     && s in Next(c, actions[0]).sites && AllSpare(Next(c, actions[0]), actions[1..], t, s, k))
  }

  lemma StartSpares(site: Site.Site, u: TxId, t: TxId, op: B.WriteOp)
    requires Pends(site, t, op)
    ensures Pends(Site.Start(site, u), t, op)
  {
  }

  lemma ReadSpares(site: Site.Site, u: TxId, k: Key, snapshot: u64, now: u64, t: TxId, op: B.WriteOp)
    requires Pends(site, t, op)
    ensures Pends(Site.Read(site, u, k, snapshot, now), t, op)
  {
  }

  lemma WriteSpares(site: Site.Site, u: TxId, k: Key, v: Text, deleted: bool, now: u64, t: TxId, op: B.WriteOp)
    requires Pends(site, t, op) && (u != t || k != op.key)
    ensures Pends(Site.Write(site, u, k, v, deleted, now), t, op)
  {
  }

  lemma PrepareSpares(site: Site.Site, u: TxId, iso: Shard.Isolation, now: u64, t: TxId, op: B.WriteOp)
    requires Pends(site, t, op) && (u != t || Site.Prepare(site, t, iso, now).1.vote == Shard.VoteCommit)
    ensures Pends(Site.Prepare(site, u, iso, now).0, t, op)
  {
  }

  lemma OutcomeSpares(site: Site.Site, u: TxId, at: u64, now: u64, t: TxId, op: B.WriteOp)
    requires Pends(site, t, op) && u != t
    ensures Pends(Site.Commit(site, u, at, now).0, t, op) && Pends(Site.Abort(site, u, now), t, op)
  {
  }

  lemma StepSpares(c: State, a: Action, t: TxId, s: ShardId, op: B.WriteOp)
    requires Enabled(c, a) && s in c.sites && Pends(c.sites[s], t, op) && Spares(c, a, t, s, op.key)
    ensures s in Next(c, a).sites && Pends(Next(c, a).sites[s], t, op)
  {
    match a {
      case Start(u, r, heard) => StartSpares(c.sites[s], u, t, op);
      case Read(u, r, k, now) => ReadSpares(c.sites[s], u, k, c.coords[u].snapshot, now, t, op);
      case Write(u, r, k, v, deleted, now) =>
        if r == s {
          WriteSpares(c.sites[s], u, k, v, deleted, now, t, op);
        }
      case Prepare(u, r, now) =>
        if r == s {
          PrepareSpares(c.sites[s], u, c.coords[u].iso, now, t, op);
        }
      case Commit(u, r, at, now) =>
        if r == s {
          OutcomeSpares(c.sites[s], u, at, now, t, op);
        }
      case Abort(u, r, now) =>
        if r == s {
          OutcomeSpares(c.sites[s], u, 0, now, t, op);
        }
      case _ =>
    }
  }

  lemma {:induction false} RunSpares(c: State, actions: seq<Action>, t: TxId, s: ShardId, op: B.WriteOp)
    requires Legal(c, actions) && s in c.sites && Pends(c.sites[s], t, op) && AllSpare(c, actions, t, s, op.key)
    ensures s in Run(c, actions).sites && Pends(Run(c, actions).sites[s], t, op)
    decreases |actions|
  {
    if actions != [] {
      StepSpares(c, actions[0], t, s, op);
      RunSpares(Next(c, actions[0]), actions[1..], t, s, op);
    }
  }

  /** What a transaction wrote last to a key stays in its buffer, with the version it saw,
      through every run in which neither its outcome nor its own ABORT vote reaches the
      shard; all the while the transaction reads it. */
  lemma WriteStays(c: State, t: TxId, s: ShardId, k: Key, v: Text, deleted: bool, now: u64, actions: seq<Action>)
    requires Reachable(c) && Enabled(c, Write(t, s, k, v, deleted, now)) && t in c.sites[s].st.buffers
    requires var c1 := Next(c, Write(t, s, k, v, deleted, now));
             Legal(c1, actions) && AllSpare(c1, actions, t, s, k)
    ensures var c', seen := Run(Next(c, Write(t, s, k, v, deleted, now)), actions),
                            Site.VersionAt(c.sites[s].log, |c.sites[s].log|, k);
            && s in c'.sites && Pends(c'.sites[s], t, B.WriteOp(k, v, deleted, seen))
            && forall snapshot: u64, now': u64 ::
                 && Site.Read(c'.sites[s], t, k, snapshot, now') == c'.sites[s]
                 && Shard.OnRead(c'.sites[s].st, t, k, snapshot, now').1 ==
                    Ok(if deleted then Shard.NOT_FOUND else Shard.ReadReply(v, seen, true))
  {
    ReachableInv(c);
    var seen := Site.VersionAt(c.sites[s].log, |c.sites[s].log|, k);
    ShardLaws.WriteLaw(c.sites[s], t, k, v, deleted, now);
    var c1 := Next(c, Write(t, s, k, v, deleted, now));
    RunSpares(c1, actions, t, s, B.WriteOp(k, v, deleted, seen));
    var c' := Run(c1, actions);
    forall snapshot: u64, now': u64
      ensures Site.Read(c'.sites[s], t, k, snapshot, now') == c'.sites[s]
      ensures Shard.OnRead(c'.sites[s].st, t, k, snapshot, now').1 ==
              Ok(if deleted then Shard.NOT_FOUND else Shard.ReadReply(v, seen, true))
    {
      ShardLaws.OwnReadLaw(c'.sites[s], t, k, snapshot, now');
    }
  }

  /** And when its commit reaches the shard, what it wrote last becomes the newest version of
      the key, at the commit time and under its name. */
  lemma WriteIsInstalled(c: State, t: TxId, s: ShardId, op: B.WriteOp, at: u64, now: u64)
    requires Reachable(c) && Enabled(c, Commit(t, s, at, now)) && Pends(c.sites[s], t, op)
    ensures var c' := Next(c, Commit(t, s, at, now));
            && s in c'.sites
            && S.VersionsOf(c'.sites[s].st.data, op.key) ==
               S.VersionsOf(c.sites[s].st.data, op.key) + [ShardLaws.Version(op, at, t)]
  {
    ReachableInv(c);
    CommitPremises(c, t, s, at);
    var site := c.sites[s];
    assert Site.Settled(site, t);
    ShardLaws.CommitLaw(site, t, at, now);
    SI.CommitAppends(site, t, at);
    AppendsOne(S.VersionsOf(site.st.data, op.key), ShardLaws.Version(op, at, t));
  }

  lemma AppendsOne(vs: S.Versions, e: S.VersionedValue)
    requires SI.AllBelow(vs, e.version)
    ensures S.Insert(vs, e) == vs + [e]
  {
    S.InsertAppends(vs, e);
  }
}
