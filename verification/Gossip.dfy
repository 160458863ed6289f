/** Push-pull gossip handlers (Cluster/gossip/gossip.go) and why they are a semilattice join. */
module Gossip {
  import opened Common
  import opened Membership

  /** Full records and the sender's own digest. */
  datatype Response = Response(full: seq<(Addr, NodeInfo)>, myDigest: seq<GossipDigest>)

  const FINGERPRINT: string := "fingerprint"

  /** The entry carries this node's own identity fingerprint. */
  predicate OwnFingerprint(fp: string, meta: Metadata) {
    fp != "" && FINGERPRINT in meta && meta[FINGERPRINT] == fp
  }

  // ---------------------------------------------------------------- what HandleResponse does to one address

  function FullEntry(self: Addr, fp: string, a: Addr, e: Entry, full: seq<(Addr, NodeInfo)>): Entry {
    if full == [] then e
    else
      var before := FullEntry(self, fp, a, e, full[..|full| - 1]);
      var (addr, info) := full[|full| - 1];
      if addr != a || a == self || OwnFingerprint(fp, info.metadata) then before
      else MetaEntry(UpdateEntry(before, info.state, info.generation), info.metadata)
  }

  /** The digest map keeps the last digest of an address. */
  function LastDigest(ds: seq<GossipDigest>, a: Addr): Option<GossipDigest> {
    if ds == [] then None
    else if ds[|ds| - 1].addr == a then Some(ds[|ds| - 1])
    else LastDigest(ds[..|ds| - 1], a)
  }

  ghost predicate Needs(e: Entry, ds: seq<GossipDigest>, a: Addr) {
    exists i :: 0 <= i < |ds| && ds[i].addr == a && Newer(e, ds[i])
  }

  ghost function ResponseEntry(self: Addr, fp: string, a: Addr, e: Entry, msg: Response): Entry {
    var afterFull := FullEntry(self, fp, a, e, msg.full);
    var merged := MergeAll(a, afterFull, msg.myDigest);
    if a == self || !Needs(afterFull, msg.myDigest, a) || (merged.Some? && OwnFingerprint(fp, merged.value.metadata))
    then merged
    else
      var d := LastDigest(msg.myDigest, a);
      if d.None? then merged else UpdateEntry(merged, d.value.state, d.value.generation)
  }

  /** What HandleDigest does to one address: known ones are merged; an unknown, unconnected one
      that some digest calls Alive is registered, if new peers are being dialled at all. */
  function RegisterAll(a: Addr, e: Entry, ds: seq<GossipDigest>): Entry {
    if ds == [] then e
    else
      var before := RegisterAll(a, e, ds[..|ds| - 1]);
      var d := ds[|ds| - 1];
      if d.addr == a && d.state == Alive then UpdateEntry(AddEntry(before, map[]), d.state, d.generation) else before
  }

  function DigestEntry(self: Addr, dialling: bool, connected: set<Addr>, a: Addr, e: Entry, ds: seq<GossipDigest>): Entry {
    var merged := MergeAll(a, e, ds);
    if e.Some? || !dialling || a == self || a in connected then merged else RegisterAll(a, merged, ds)
  }

  /** Registration, told apart from how it is done: a stranger becomes known exactly when some digest calls
      it Alive, as Alive, at the greatest of 1 and the generations of those digests. */
  lemma {:induction false} Registered(a: Addr, ds: seq<GossipDigest>)
    ensures var r := RegisterAll(a, None, ds);
      && (r.Some? <==> exists d :: d in ds && d.addr == a && d.state == Alive)
      && (r.Some? ==>
            && r.value.state == Alive && r.value.metadata == map[] && r.value.generation >= 1
            && (forall d :: d in ds && d.addr == a && d.state == Alive ==> d.generation <= r.value.generation)
            && (r.value.generation == 1 || GossipDigest(a, Alive, r.value.generation) in ds))
  {
    if ds != [] {
      var n := |ds| - 1;
      Registered(a, ds[..n]);
      assert ds == ds[..n] + [ds[n]];
    }
  }

  lemma {:induction false} NothingToMerge(a: Addr, ds: seq<GossipDigest>)
    ensures MergeAll(a, None, ds) == None
  {
    if ds != [] {
      NothingToMerge(a, ds[..|ds| - 1]);
    }
  }

  /** What a digest does to an unknown address: it is registered exactly when new peers are being dialled,
      it is neither this node nor connected, and some digest calls it Alive. */
  lemma StrangerAfterDigest(self: Addr, dialling: bool, connected: set<Addr>, a: Addr, ds: seq<GossipDigest>)
    ensures var r := DigestEntry(self, dialling, connected, a, None, ds);
      && (r.Some? <==> dialling && a != self && a !in connected && exists d :: d in ds && d.addr == a && d.state == Alive)
      && (r.Some? ==>
            && r.value.state == Alive && r.value.metadata == map[] && r.value.generation >= 1
            && (forall d :: d in ds && d.addr == a && d.state == Alive ==> d.generation <= r.value.generation)
            && (r.value.generation == 1 || GossipDigest(a, Alive, r.value.generation) in ds))
  {
    NothingToMerge(a, ds);
    Registered(a, ds);
  }

  /** What a digest does to a known address: only its state changes, to the most severe one told of it at
      its own generation. */
  lemma KnownAfterDigest(self: Addr, dialling: bool, connected: set<Addr>, a: Addr, i: NodeInfo, ds: seq<GossipDigest>)
    ensures var r := DigestEntry(self, dialling, connected, a, Some(i), ds);
      && r.Some? && r.value == i.(state := r.value.state) && Severity(i.state) <= Severity(r.value.state)
      && (forall d :: d in ds && d.addr == a && d.generation == i.generation ==> Severity(d.state) <= Severity(r.value.state))
      && (r.value == i || GossipDigest(a, r.value.state, i.generation) in ds)
  {
    MergeIsMostSevere(a, Some(i), ds);
  }

  /** A full record of this node itself, by address or by fingerprint, is skipped. */
  lemma {:induction false} OwnRecordsSkipped(self: Addr, fp: string, a: Addr, e: Entry, full: seq<(Addr, NodeInfo)>)
    requires forall k :: 0 <= k < |full| && full[k].0 == a ==> !Introduces(self, fp, a, full[k].1)
    ensures FullEntry(self, fp, a, e, full) == e
  {
    if full != [] {
      OwnRecordsSkipped(self, fp, a, e, full[..|full| - 1]);
    }
  }

  /** The metadata of full records is merged whether or not their state was news: record `k` being the last
      one of `a`, its values stand, beside what was known and what other records of `a` say. */
  lemma {:induction false} MetadataTakenOver(self: Addr, fp: string, a: Addr, e: Entry, full: seq<(Addr, NodeInfo)>, k: nat)
    requires k < |full| && full[k].0 == a && Introduces(self, fp, a, full[k].1)
    requires forall j :: k < j < |full| && full[j].0 == a ==> !Introduces(self, fp, a, full[j].1)
    ensures var r := FullEntry(self, fp, a, e, full);
      && r.Some?
      && (forall key :: key in full[k].1.metadata ==> key in r.value.metadata && r.value.metadata[key] == full[k].1.metadata[key])
  {
    if k < |full| - 1 {
      MetadataTakenOver(self, fp, a, e, full[..|full| - 1], k);
    }
  }

  lemma {:induction false} MetadataKept(self: Addr, fp: string, a: Addr, e: Entry, full: seq<(Addr, NodeInfo)>)
    ensures var r := FullEntry(self, fp, a, e, full);
      && (e.Some? ==> r.Some? && e.value.metadata.Keys <= r.value.metadata.Keys)
      && (r.Some? ==> forall key :: key in r.value.metadata ==>
            || (e.Some? && key in e.value.metadata && r.value.metadata[key] == e.value.metadata[key])
            || exists j :: 0 <= j < |full| && full[j].0 == a && Introduces(self, fp, a, full[j].1)
                 && key in full[j].1.metadata && r.value.metadata[key] == full[j].1.metadata[key])
  {
    if full != [] {
      var n := |full| - 1;
      MetadataKept(self, fp, a, e, full[..n]);
      assert full == full[..n] + [full[n]];
    }
  }

  /** A known node that is not Alive here announces itself Alive at a higher generation. */
  predicate Rejoins(t: Table, d: GossipDigest) {
    d.state == Alive && d.addr in t && t[d.addr].state != Alive && d.generation > t[d.addr].generation
  }

  /** Some digest says something newer of a known node that is not Alive here, and the last one says Alive. */
  ghost predicate SaidAlive(t: Table, ds: seq<GossipDigest>, a: Addr) {
    && a in t && t[a].state != Alive && Needs(Some(t[a]), ds, a)
    && LastDigest(ds, a).Some? && LastDigest(ds, a).value.state == Alive
  }

  /** Whom a digest makes a node dial: of the strangers it is not connected to, the unknown ones the
      digest lists and the known ones that may be rejoining. */
  ghost predicate Dials(self: Addr, connected: set<Addr>, known: set<Addr>, t: Table, ds: seq<GossipDigest>, a: Addr) {
    && a != self && a !in connected
    && if a in known then SaidAlive(t, ds, a) || exists d :: d in ds && d.addr == a && Rejoins(t, d)
       else exists d :: d in ds && d.addr == a
  }

  /** Whom a digest makes a node dial, spelled out: every stranger it lists, and every node known here as
      not Alive of which it tells a higher generation, there or in its last word on the node as Alive. */
  lemma DialledIff(self: Addr, connected: set<Addr>, known: set<Addr>, t: Table, ds: seq<GossipDigest>, a: Addr)
    requires known <= t.Keys
    ensures Dials(self, connected, known, t, ds, a) <==>
      && a != self && a !in connected
      && exists d :: d in ds && d.addr == a
           && (a in known ==>
                 && t[a].state != Alive && d.generation > t[a].generation
                 && (d.state == Alive || exists l :: LastDigest(ds, a) == Some(l) && l.state == Alive))
  {
    LastDigestFound(ds, a);
    if a in known {
      assert Needs(Some(t[a]), ds, a) <==> exists d :: d in ds && d.addr == a && d.generation > t[a].generation by {
        if d :| d in ds && d.addr == a && d.generation > t[a].generation {
          var i :| 0 <= i < |ds| && ds[i] == d;
          assert Newer(Some(t[a]), ds[i]);
        }
      }
    }
  }

  /** A full record of somebody else. */
  predicate Introduces(self: Addr, fp: string, addr: Addr, info: NodeInfo) {
    addr != self && !OwnFingerprint(fp, info.metadata)
  }

  predicate Passes(self: Addr, connected: set<Addr>, known: set<Addr>, t: Table, ds: seq<GossipDigest>, a: Addr) {
    && a != self && a !in connected
    && (a !in known || (LastDigest(ds, a).Some? && LastDigest(ds, a).value.state == Alive && a in t && t[a].state != Alive))
  }

  predicate Scanned(self: Addr, connected: set<Addr>, known: set<Addr>, t: Table, d: GossipDigest) {
    d.addr != self && d.addr !in connected && d.state == Alive && (d.addr !in known || Rejoins(t, d))
  }

  /** Merging changes neither who is known nor of whom the sender knows more. */
  ghost predicate MergedNeeds(merged: Table, a: Addr, ds: seq<GossipDigest>, needFull: seq<Addr>, known: set<Addr>) {
    (a in merged <==> a in known) && (a in needFull <==> Needs(Lookup(merged, a), ds, a))
  }

  lemma DialledByPasses(self: Addr, connected: set<Addr>, known: set<Addr>, t: Table, ds: seq<GossipDigest>, needFull: seq<Addr>, a: Addr)
    requires MergedNeeds(t, a, ds, needFull, known)
    ensures Dials(self, connected, known, t, ds, a) <==>
      || (a in needFull && Passes(self, connected, known, t, ds, a))
      || exists d :: d in ds && d.addr == a && Scanned(self, connected, known, t, d)
  {
    if a !in known {
      assert Needs(None, ds, a) <==> exists d :: d in ds && d.addr == a by {
        if d :| d in ds && d.addr == a {
          var i :| 0 <= i < |ds| && ds[i] == d;
          assert Newer(None, ds[i]);
        }
      }
    }
  }

  lemma SameDials(self: Addr, connected: set<Addr>, known: set<Addr>, t: Table, t': Table, ds: seq<GossipDigest>, a: Addr)
    requires a in known ==> Lookup(t, a) == Lookup(t', a)
    ensures Dials(self, connected, known, t, ds, a) <==> Dials(self, connected, known, t', ds, a)
  {
    forall d: GossipDigest | d.addr == a && a in known ensures Rejoins(t, d) <==> Rejoins(t', d) {}
  }

  // ---------------------------------------------------------------- the handlers

  class GossipService {
    const selfAddr: Addr
    const selfFingerprint: string
    const fanOut: nat
    const cluster: ClusterState

    constructor (selfAddr: Addr, selfFingerprint: string, fanOut: nat, cluster: ClusterState)
      ensures this.selfAddr == selfAddr && this.selfFingerprint == selfFingerprint
      ensures this.fanOut == fanOut && this.cluster == cluster
    {
      this.selfAddr, this.selfFingerprint, this.fanOut, this.cluster := selfAddr, selfFingerprint, fanOut, cluster;
    }

    /** One round. `shuffled` is the peer list after filtering and shuffling: its first entries are
        the targets. Only entries of connected nodes and of this node itself are advertised. */
    method DoGossipRound(all: seq<Addr>, shuffle: seq<Addr> -> seq<Addr>) returns (targets: seq<Addr>, digests: seq<GossipDigest>)
      requires forall s :: multiset(shuffle(s)) == multiset(s)
      ensures |targets| == Min(fanOut, |all| - multiset(all)[selfAddr])
      ensures multiset(targets) <= multiset(all) && selfAddr !in targets
      ensures targets != [] ==> forall d :: d in digests ==>
        && (d.addr == selfAddr || d.addr in all)
        && Lookup(cluster.nodes, d.addr).Some? && RecOf(cluster.nodes[d.addr]) == Rec(d.generation, d.state)
      ensures targets != [] ==> forall a :: a in cluster.nodes && (a == selfAddr || a in all) ==>
        exists d :: d in digests && d.addr == a
    {
      var peers := Others(all);
      if |peers| == 0 {
        return [], [];
      }
      var shuffled := shuffle(peers);
      forall p ensures p in shuffled <==> p in peers {
        assert p in multiset(shuffled) <==> p in multiset(peers);
      }
      assert |shuffled| == |multiset(shuffled)| == |peers|;
      var k := if fanOut > |shuffled| then |shuffled| else fanOut;
      targets := shuffled[..k];
      assert shuffled == shuffled[..k] + shuffled[k..];
      var connected := {selfAddr} + set p | p in shuffled;
      var mine := cluster.Digest();
      digests := [];
      for i := 0 to |mine|
        invariant forall d :: d in digests <==> d in mine[..i] && d.addr in connected
      {
        assert mine[..i + 1] == mine[..i] + [mine[i]];
        if mine[i].addr in connected {
          digests := digests + [mine[i]];
        }
      }
      assert mine[..|mine|] == mine;
      Advertises(cluster.nodes, mine, digests, connected);
    }

    /** The peers other than this node itself. */
    method Others(all: seq<Addr>) returns (peers: seq<Addr>)
      ensures forall p :: p in peers <==> p in all && p != selfAddr
      ensures multiset(peers) <= multiset(all) && |peers| == |all| - multiset(all)[selfAddr]
    {
      peers := [];
      for i := 0 to |all|
        invariant forall p :: p in peers <==> p in all[..i] && p != selfAddr
        invariant multiset(peers) <= multiset(all[..i]) && |peers| == i - multiset(all[..i])[selfAddr]
      {
        assert all[..i + 1] == all[..i] + [all[i]];
        if all[i] != selfAddr {
          peers := peers + [all[i]];
        }
      }
      assert all[..|all|] == all;
    }

    /** Merges an incoming digest, registers new peers, and replies with full records and a digest
        of the resulting table. */
    method HandleDigest(ds: seq<GossipDigest>, dialling: bool, connected: set<Addr>) returns (resp: Response, toDial: set<Addr>)
      modifies cluster
      ensures forall a :: Lookup(cluster.nodes, a) == DigestEntry(selfAddr, dialling, connected, a, Lookup(old(cluster.nodes), a), ds)
      ensures DigestOf(cluster.nodes, resp.myDigest)
      ensures forall i :: 0 <= i < |resp.full| ==> Lookup(cluster.nodes, resp.full[i].0) == Some(resp.full[i].1)
      ensures forall a :: a in cluster.nodes ==>
        ((a, cluster.nodes[a]) in resp.full <==> Needs(Lookup(old(cluster.nodes), a), ds, a))
      ensures forall a :: a in toDial <==> dialling && Dials(selfAddr, connected, old(cluster.nodes).Keys, cluster.nodes, ds, a)
    {
      var knownBefore := cluster.nodes.Keys;
      var needFull := cluster.Merge(ds);
      ghost var merged := cluster.nodes;
      toDial := {};
      if dialling {
        forall a ensures MergedNeeds(merged, a, ds, needFull, knownBefore) {
          MergeKeepsGeneration(a, Lookup(old(cluster.nodes), a), ds);
        }
        toDial := FirstPass(ds, needFull, connected, knownBefore);
        toDial := Scan(ds, connected, knownBefore, toDial);
        forall a ensures a in toDial <==> Dials(selfAddr, connected, knownBefore, merged, ds, a) {
          DialledByPasses(selfAddr, connected, knownBefore, merged, ds, needFull, a);
        }
        forall a | a in knownBefore ensures Lookup(cluster.nodes, a) == Lookup(merged, a) {}
        forall a
          ensures Dials(selfAddr, connected, knownBefore, merged, ds, a)
             <==> Dials(selfAddr, connected, knownBefore, cluster.nodes, ds, a)
        {
          SameDials(selfAddr, connected, knownBefore, merged, cluster.nodes, ds, a);
        }
      }
      var full, _ := cluster.GetNodes(needFull);
      var mine := cluster.Digest();
      resp := Response(full, mine);
    }

    /** The first loop of HandleDigest, over the addresses the sender knows more about. */
    method FirstPass(ds: seq<GossipDigest>, needFull: seq<Addr>, connected: set<Addr>, knownBefore: set<Addr>) returns (toDial: set<Addr>)
      ensures forall a :: a in toDial <==> a in needFull && Passes(selfAddr, connected, knownBefore, cluster.nodes, ds, a)
    {
      toDial := {};
      for k := 0 to |needFull|
        invariant forall a :: a in toDial <==> a in needFull[..k] && Passes(selfAddr, connected, knownBefore, cluster.nodes, ds, a)
      {
        assert needFull[..k + 1] == needFull[..k] + [needFull[k]];
        var addr := needFull[k];
        if addr != selfAddr && addr !in connected {
          if addr !in knownBefore {
            toDial := toDial + {addr};
          } else {
            // a known node that left or died may be rejoining
            var last := LastDigest(ds, addr);
            if last.Some? && last.value.state == Alive && addr in cluster.nodes && cluster.nodes[addr].state != Alive {
              toDial := toDial + {addr};
            }
          }
        }
      }
      assert needFull[..|needFull|] == needFull;
    }

    /** The second loop of HandleDigest. */
    method Scan(ds: seq<GossipDigest>, connected: set<Addr>, knownBefore: set<Addr>, start: set<Addr>) returns (toDial: set<Addr>)
      modifies cluster
      ensures forall a ::
        Lookup(cluster.nodes, a) ==
        (if a == selfAddr || a in connected || a in knownBefore then Lookup(old(cluster.nodes), a)
         else RegisterAll(a, Lookup(old(cluster.nodes), a), ds))
      ensures forall a :: a in toDial <==>
        a in start || exists d :: d in ds && d.addr == a && Scanned(selfAddr, connected, knownBefore, old(cluster.nodes), d)
    {
      toDial := start;
      for k := 0 to |ds|
        invariant forall a ::
          Lookup(cluster.nodes, a) ==
          (if a == selfAddr || a in connected || a in knownBefore then Lookup(old(cluster.nodes), a)
           else RegisterAll(a, Lookup(old(cluster.nodes), a), ds[..k]))
        invariant forall a :: a in toDial <==>
          a in start || exists d :: d in ds[..k] && d.addr == a && Scanned(selfAddr, connected, knownBefore, old(cluster.nodes), d)
      {
        var d := ds[k];
        assert ds[..k + 1][..k] == ds[..k] && ds[..k + 1][k] == d;
        assert ds[..k + 1] == ds[..k] + [d];
        assert d.addr in knownBefore ==> Lookup(cluster.nodes, d.addr) == Lookup(old(cluster.nodes), d.addr);
        if d.addr == selfAddr {
          continue;
        }
        if d.state == Alive && d.addr !in connected {
          if d.addr !in knownBefore {
            cluster.AddNode(d.addr, map[]);
            var _ := cluster.UpdateState(d.addr, d.state, d.generation);
            toDial := toDial + {d.addr};
          } else if Rejoins(cluster.nodes, d) {
            toDial := toDial + {d.addr};
          }
        }
      }
      assert ds[..|ds|] == ds;
    }

    /** Applies full records, merges the peer's digest, takes over whatever is newer there, and dials
        the Alive nodes first heard of in a full record. */
    method HandleResponse(msg: Response, dialling: bool) returns (toDial: set<Addr>)
      modifies cluster
      ensures forall a :: Lookup(cluster.nodes, a) == ResponseEntry(selfAddr, selfFingerprint, a, Lookup(old(cluster.nodes), a), msg)
      ensures forall a :: a in toDial <==>
        dialling && a !in old(cluster.nodes)
        && exists k :: 0 <= k < |msg.full| && msg.full[k].0 == a
             && Introduces(selfAddr, selfFingerprint, a, msg.full[k].1) && msg.full[k].1.state == Alive
    {
      toDial := TakeFull(msg.full, dialling);
      TakeNewer(msg.myDigest);
    }

    /** The full-record part of HandleResponse. */
    method TakeFull(full: seq<(Addr, NodeInfo)>, dialling: bool) returns (toDial: set<Addr>)
      modifies cluster
      ensures forall a :: Lookup(cluster.nodes, a) == FullEntry(selfAddr, selfFingerprint, a, Lookup(old(cluster.nodes), a), full)
      ensures forall a :: a in toDial <==>
        dialling && a !in old(cluster.nodes)
        && exists k :: 0 <= k < |full| && full[k].0 == a
             && Introduces(selfAddr, selfFingerprint, a, full[k].1) && full[k].1.state == Alive
    {
      var knownBefore := cluster.nodes.Keys;
      toDial := {};
      for k := 0 to |full|
        invariant forall a :: Lookup(cluster.nodes, a) == FullEntry(selfAddr, selfFingerprint, a, Lookup(old(cluster.nodes), a), full[..k])
        invariant forall a :: a in toDial <==>
          dialling && a !in old(cluster.nodes)
          && exists j :: 0 <= j < k && full[j].0 == a
               && Introduces(selfAddr, selfFingerprint, a, full[j].1) && full[j].1.state == Alive
      {
        var (addr, info) := full[k];
        assert full[..k + 1][..k] == full[..k] && full[..k + 1][k] == (addr, info);
        if addr == selfAddr {
          continue;
        }
        if selfFingerprint != "" && FINGERPRINT in info.metadata && info.metadata[FINGERPRINT] == selfFingerprint {
          continue;
        }
        var _ := cluster.UpdateState(addr, info.state, info.generation);
        cluster.SetMetadata(addr, info.metadata);
        if addr !in knownBefore && info.state == Alive && dialling {
          toDial := toDial + {addr};
        }
      }
      assert full[..|full|] == full;
    }

    /** The digest part of HandleResponse. */
    method TakeNewer(ds: seq<GossipDigest>)
      modifies cluster
      ensures forall a ::
        Lookup(cluster.nodes, a) == ResponseEntry(selfAddr, selfFingerprint, a, Lookup(old(cluster.nodes), a), Response([], ds))
    {
      var need := cluster.Merge(ds);
      ghost var merged := cluster.nodes;
      for k := 0 to |need|
        invariant forall a ::
          Lookup(cluster.nodes, a) ==
          (if a in need[..k] then ResponseEntry(selfAddr, selfFingerprint, a, Lookup(old(cluster.nodes), a), Response([], ds))
           else Lookup(merged, a))
      {
        var addr := need[k];
        assert need[..k + 1] == need[..k] + [addr];
        assert addr in need;
        if addr == selfAddr {
          continue;
        }
        if addr in cluster.nodes && OwnFingerprint(selfFingerprint, cluster.nodes[addr].metadata) {
          TakenTwice(selfAddr, selfFingerprint, addr, Lookup(old(cluster.nodes), addr), ds);
          continue;
        }
        var d := LastDigest(ds, addr);
        LastDigestFound(ds, addr);
        if d.Some? {
          TakenTwice(selfAddr, selfFingerprint, addr, Lookup(old(cluster.nodes), addr), ds);
          var _ := cluster.UpdateState(d.value.addr, d.value.state, d.value.generation);
        }
      }
      assert need[..|need|] == need;
    }
  }

  lemma Advertises(t: Table, mine: seq<GossipDigest>, digests: seq<GossipDigest>, connected: set<Addr>)
    requires DigestOf(t, mine) && forall d :: d in digests <==> d in mine && d.addr in connected
    ensures forall d :: d in digests ==> d.addr in connected && Lookup(t, d.addr).Some? && RecOf(t[d.addr]) == Rec(d.generation, d.state)
    ensures forall a :: a in t && a in connected ==> exists d :: d in digests && d.addr == a
  {
    forall a | a in t && a in connected ensures exists d :: d in digests && d.addr == a {
      var i :| 0 <= i < |mine| && mine[i].addr == a;
      assert mine[i] in digests;
    }
  }

  lemma {:induction false} LastDigestFound(ds: seq<GossipDigest>, a: Addr)
    ensures LastDigest(ds, a).Some? <==> exists i :: 0 <= i < |ds| && ds[i].addr == a
    ensures LastDigest(ds, a).Some? ==> LastDigest(ds, a).value in ds && LastDigest(ds, a).value.addr == a
    ensures forall i :: 0 <= i < |ds| && ds[i].addr == a && (forall j :: i < j < |ds| ==> ds[j].addr != a) ==>
              LastDigest(ds, a) == Some(ds[i])
  {
    if ds != [] && ds[|ds| - 1].addr != a {
      LastDigestFound(ds[..|ds| - 1], a);
      if i :| 0 <= i < |ds| && ds[i].addr == a {
        assert ds[..|ds| - 1][i].addr == a;
      }
    }
  }

  /** An address listed twice is taken over once: the second time changes nothing. */
  lemma TakenTwice(self: Addr, fp: string, a: Addr, e: Entry, ds: seq<GossipDigest>)
    ensures var r := ResponseEntry(self, fp, a, e, Response([], ds));
      var d := LastDigest(ds, a);
      var merged := MergeAll(a, e, ds);
      && (d.Some? && a != self && Needs(e, ds, a) && r.Some? && !OwnFingerprint(fp, r.value.metadata)
          ==> UpdateEntry(r, d.value.state, d.value.generation) == r)
      && (r.Some? && OwnFingerprint(fp, r.value.metadata) && merged.Some? ==> OwnFingerprint(fp, merged.value.metadata) && r == merged)
  {
    MergeKeepsGeneration(a, e, ds);
  }

  // ---------------------------------------------------------------- the join

  /** What HandleDigest produces: a digest with one record per address, and full records of the
      same table. A full record may be older than the digest when the table moved on in between. */
  ghost predicate WellFormed(msg: Response) {
    && (forall i, j :: 0 <= i < j < |msg.myDigest| ==> msg.myDigest[i].addr != msg.myDigest[j].addr)
    && (forall k :: 0 <= k < |msg.full| ==> Le(Some(RecOf(msg.full[k].1)), Told(msg, msg.full[k].0)))
  }

  /** The peer's record of `a` as its digest tells it. */
  function Told(msg: Response, a: Addr): Option<Rec> {
    var d := LastDigest(msg.myDigest, a);
    if d.Some? then Some(Rec(d.value.generation, d.value.state)) else None
  }

  lemma ReplyWellFormed(t: Table, msg: Response)
    requires DigestOf(t, msg.myDigest)
    requires forall k :: 0 <= k < |msg.full| ==> Lookup(t, msg.full[k].0) == Some(msg.full[k].1)
    ensures WellFormed(msg)
    ensures forall a :: Told(msg, a) == View(Lookup(t, a))
  {
    forall a ensures Told(msg, a) == View(Lookup(t, a)) {
      LastDigestFound(msg.myDigest, a);
    }
  }

  /** A full record is applied only when it is strictly newer, so it stays within the digest. */
  lemma {:induction false} FullWithin(self: Addr, fp: string, a: Addr, e: Entry, full: seq<(Addr, NodeInfo)>, top: Option<Rec>)
    requires forall k :: 0 <= k < |full| && full[k].0 == a ==> Le(Some(RecOf(full[k].1)), top)
    ensures var r := View(FullEntry(self, fp, a, e, full));
      Le(View(e), r) && (r == View(e) || Le(r, top))
    ensures e.None? || FullEntry(self, fp, a, e, full).Some?
  {
    if full != [] {
      FullWithin(self, fp, a, e, full[..|full| - 1], top);
    }
  }

  /** With one digest per address, Merge acts on an address by its one digest. */
  lemma {:induction false} MergeByLast(a: Addr, e: Entry, ds: seq<GossipDigest>)
    requires forall i, j :: 0 <= i < j < |ds| ==> ds[i].addr != ds[j].addr
    ensures MergeAll(a, e, ds) == if LastDigest(ds, a).Some? then MergeEntry(e, LastDigest(ds, a).value) else e
    ensures Needs(e, ds, a) <==> LastDigest(ds, a).Some? && Newer(e, LastDigest(ds, a).value)
  {
    if ds != [] {
      var n := |ds| - 1;
      MergeByLast(a, e, ds[..n]);
      LastDigestFound(ds[..n], a);
      assert Needs(e, ds, a) <==> Needs(e, ds[..n], a) || (ds[n].addr == a && Newer(e, ds[n])) by {
        if i :| 0 <= i < n && ds[i].addr == a && Newer(e, ds[i]) {
          assert ds[..n][i] == ds[i];
        }
      }
    }
  }

  /** Whether `a` is somebody else, as far as this node can tell from addresses and fingerprints. */
  ghost predicate Foreign(self: Addr, fp: string, a: Addr, e: Entry, msg: Response) {
    && a != self
    && (e.Some? ==> !OwnFingerprint(fp, e.value.metadata))
    && (forall k :: 0 <= k < |msg.full| && msg.full[k].0 == a ==> !OwnFingerprint(fp, msg.full[k].1.metadata))
  }

  lemma {:induction false} FullKeepsForeign(self: Addr, fp: string, a: Addr, e: Entry, full: seq<(Addr, NodeInfo)>)
    requires e.Some? ==> !OwnFingerprint(fp, e.value.metadata)
    requires forall k :: 0 <= k < |full| && full[k].0 == a ==> !OwnFingerprint(fp, full[k].1.metadata)
    ensures var r := FullEntry(self, fp, a, e, full); r.Some? ==> !OwnFingerprint(fp, r.value.metadata)
  {
    if full != [] {
      FullKeepsForeign(self, fp, a, e, full[..|full| - 1]);
    }
  }

  /** HandleResponse leaves every foreign address at the maximum of what was known and what the
      peer's digest tells. */
  lemma ResponseIsJoin(self: Addr, fp: string, a: Addr, e: Entry, msg: Response)
    requires WellFormed(msg) && Foreign(self, fp, a, e, msg)
    ensures View(ResponseEntry(self, fp, a, e, msg)) == Join(View(e), Told(msg, a))
    ensures ResponseEntry(self, fp, a, e, msg).Some? ==> !OwnFingerprint(fp, ResponseEntry(self, fp, a, e, msg).value.metadata)
  {
    FullWithin(self, fp, a, e, msg.full, Told(msg, a));
    FullKeepsForeign(self, fp, a, e, msg.full);
    var afterFull := FullEntry(self, fp, a, e, msg.full);
    MergeByLast(a, afterFull, msg.myDigest);
  }

  // ---------------------------------------------------------------- any order, any repetition

  ghost function HandleAll(self: Addr, fp: string, a: Addr, e: Entry, msgs: seq<Response>): Entry {
    if msgs == [] then e
    else ResponseEntry(self, fp, a, HandleAll(self, fp, a, e, msgs[..|msgs| - 1]), msgs[|msgs| - 1])
  }

  /** `m` is the greatest of what was known and everything told. */
  ghost predicate Greatest(m: Option<Rec>, start: Option<Rec>, msgs: seq<Response>, a: Addr) {
    && Le(start, m)
    && (forall k :: 0 <= k < |msgs| ==> Le(Told(msgs[k], a), m))
    && (m == start || exists k :: 0 <= k < |msgs| && m == Told(msgs[k], a))
  }

  lemma {:induction false} HandleAllIsGreatest(self: Addr, fp: string, a: Addr, e: Entry, msgs: seq<Response>)
    requires forall k :: 0 <= k < |msgs| ==> WellFormed(msgs[k]) && Foreign(self, fp, a, e, msgs[k])
    requires a != self && (e.Some? ==> !OwnFingerprint(fp, e.value.metadata))
    ensures var r := HandleAll(self, fp, a, e, msgs);
      Greatest(View(r), View(e), msgs, a) && (r.Some? ==> !OwnFingerprint(fp, r.value.metadata))
  {
    if msgs != [] {
      var n := |msgs| - 1;
      HandleAllIsGreatest(self, fp, a, e, msgs[..n]);
      var before := HandleAll(self, fp, a, e, msgs[..n]);
      assert Foreign(self, fp, a, e, msgs[n]);
      ResponseIsJoin(self, fp, a, before, msgs[n]);
      GreatestStep(View(before), View(e), msgs, a);
    }
  }

  lemma GreatestStep(before: Option<Rec>, start: Option<Rec>, msgs: seq<Response>, a: Addr)
    requires msgs != [] && Greatest(before, start, msgs[..|msgs| - 1], a)
    ensures Greatest(Join(before, Told(msgs[|msgs| - 1], a)), start, msgs, a)
  {
    var n := |msgs| - 1;
    var m := Join(before, Told(msgs[n], a));
    LeIsTotalOrder(start, before, m);
    forall k | 0 <= k < |msgs| ensures Le(Told(msgs[k], a), m) {
      LeIsTotalOrder(Told(msgs[k], a), before, m);
      if k < n {
        assert msgs[..n][k] == msgs[k];
      }
    }
    if m != start && m == before {
      var k :| 0 <= k < n && before == Told(msgs[..n][k], a);
      assert m == Told(msgs[k], a);
    }
  }

  /** Two nodes, or one node twice, that handle the same responses in any order and with any
      repetition end with the same record of every foreign address. */
  lemma OrderAndRepetitionIrrelevant(self: Addr, fp: string, a: Addr, e: Entry, xs: seq<Response>, ys: seq<Response>)
    requires forall m :: m in xs <==> m in ys
    requires forall m :: m in xs ==> WellFormed(m) && Foreign(self, fp, a, e, m)
    requires a != self && (e.Some? ==> !OwnFingerprint(fp, e.value.metadata))
    ensures View(HandleAll(self, fp, a, e, xs)) == View(HandleAll(self, fp, a, e, ys))
  {
    forall k | 0 <= k < |ys| ensures WellFormed(ys[k]) && Foreign(self, fp, a, e, ys[k]) {
      assert ys[k] in xs;
    }
    HandleAllIsGreatest(self, fp, a, e, xs);
    HandleAllIsGreatest(self, fp, a, e, ys);
    var x, y := View(HandleAll(self, fp, a, e, xs)), View(HandleAll(self, fp, a, e, ys));
    GreatestTransfers(x, View(e), xs, y, ys, a);
    GreatestTransfers(y, View(e), ys, x, xs, a);
    LeIsTotalOrder(x, y, y);
  }

  lemma GreatestTransfers(x: Option<Rec>, start: Option<Rec>, xs: seq<Response>, y: Option<Rec>, ys: seq<Response>, a: Addr)
    requires Greatest(x, start, xs, a) && Greatest(y, start, ys, a)
    requires forall m :: m in xs ==> m in ys
    ensures Le(x, y)
  {
    if x != start {
      var k :| 0 <= k < |xs| && x == Told(xs[k], a);
      assert xs[k] in ys;
      var j :| 0 <= j < |ys| && ys[j] == xs[k];
    }
  }

  // ---------------------------------------------------------------- nothing ever decreases

  /** Handling a response, whatever it contains, never lowers an entry; in particular a dead or
      departed node is Alive again only at a strictly greater generation. */
  lemma ResponseNeverLowers(self: Addr, fp: string, a: Addr, e: Entry, msg: Response)
    ensures Le(View(e), View(ResponseEntry(self, fp, a, e, msg)))
    ensures var r := ResponseEntry(self, fp, a, e, msg);
      e.Some? && r.Some? && Severity(r.value.state) < Severity(e.value.state) ==> r.value.generation > e.value.generation
  {
    FullNeverLowers(self, fp, a, e, msg.full);
    var afterFull := FullEntry(self, fp, a, e, msg.full);
    MergeKeepsGeneration(a, afterFull, msg.myDigest);
    LeIsTotalOrder(View(e), View(afterFull), View(MergeAll(a, afterFull, msg.myDigest)));
    LeIsTotalOrder(View(e), View(MergeAll(a, afterFull, msg.myDigest)), View(ResponseEntry(self, fp, a, e, msg)));
  }

  lemma {:induction false} FullNeverLowers(self: Addr, fp: string, a: Addr, e: Entry, full: seq<(Addr, NodeInfo)>)
    ensures Le(View(e), View(FullEntry(self, fp, a, e, full)))
  {
    if full != [] {
      FullNeverLowers(self, fp, a, e, full[..|full| - 1]);
    }
  }

  lemma {:induction false} RegisterNeverLowers(a: Addr, e: Entry, ds: seq<GossipDigest>)
    ensures Le(View(e), View(RegisterAll(a, e, ds)))
  {
    if ds != [] {
      RegisterNeverLowers(a, e, ds[..|ds| - 1]);
    }
  }

  lemma DigestNeverLowers(self: Addr, dialling: bool, connected: set<Addr>, a: Addr, e: Entry, ds: seq<GossipDigest>)
    ensures Le(View(e), View(DigestEntry(self, dialling, connected, a, e, ds)))
  {
    MergeKeepsGeneration(a, e, ds);
    RegisterNeverLowers(a, MergeAll(a, e, ds), ds);
    LeIsTotalOrder(View(e), View(MergeAll(a, e, ds)), View(DigestEntry(self, dialling, connected, a, e, ds)));
  }
}
