/** Key migration when a node joins the ring (Cluster/rebalance/rebalance.go, migrateToNewNode). */
module Rebalance {
  import opened Sequences
  import opened HashRing

  // ---------------------------------------------------------------- who is responsible

  ghost predicate Responsible(ps: Params, nodes: set<Addr>, key: string, n: nat, a: Addr)
    requires ps.virtualNodes > 0
  {
    exists r :: Owners(ps, nodes, key, n, r) && a in r
  }

  /** Some address not yet taken is nearest to the key. */
  lemma {:induction false} NearestOf(ps: Params, nodes: set<Addr>, key: string) returns (y: Addr)
    requires ps.virtualNodes > 0 && nodes != {}
    ensures y in nodes && forall z :: z in nodes ==> Distance(ps, key, y) <= Distance(ps, key, z)
    decreases |nodes|
  {
    var first :| first in nodes;
    var rest := nodes - {first};
    y := first;
    if rest != {} {
      var best := NearestOf(ps, rest, key);
      if Distance(ps, key, best) < Distance(ps, key, first) {
        y := best;
      }
    }
    forall z | z in nodes ensures Distance(ps, key, y) <= Distance(ps, key, z) {
      assert z == first || z in rest;
    }
  }

  lemma {:induction false} OwnersExist(ps: Params, nodes: set<Addr>, key: string, n: nat) returns (r: seq<Addr>)
    requires ps.virtualNodes > 0 && CollisionFree(ps, nodes)
    ensures Owners(ps, nodes, key, n, r)
  {
    if n == 0 {
      r := [];
    } else {
      r := OwnersExist(ps, nodes, key, n - 1);
      if n <= |nodes| {
        DistinctOwners(ps, nodes, key, n - 1, r);
        DistinctCounts(r);
        var left := nodes - Elements(r);
        assert left + Elements(r) == nodes && |left + Elements(r)| == |left| + |Elements(r)|;
        var y := NearestOf(ps, left, key);
        OwnersExtend(ps, nodes, key, n - 1, r, y);
        r := r + [y];
      }
    }
  }

  lemma OwnersExtend(ps: Params, nodes: set<Addr>, key: string, n: nat, r: seq<Addr>, y: Addr)
    requires ps.virtualNodes > 0 && CollisionFree(ps, nodes) && n < |nodes|
    requires Owners(ps, nodes, key, n, r) && y in nodes && y !in r
    requires forall z :: z in nodes && z !in r ==> Distance(ps, key, y) <= Distance(ps, key, z)
    ensures Owners(ps, nodes, key, n + 1, r + [y])
  {
    forall z | z in nodes && z !in r + [y] ensures Distance(ps, key, y) < Distance(ps, key, z) {
      assert (r + [y])[|r|] == y;
      if Distance(ps, key, y) == Distance(ps, key, z) {
        DistancesDiffer(ps, key, nodes, y, z);
      }
    }
  }

  lemma ResponsibleIsMember(ps: Params, nodes: set<Addr>, key: string, n: nat, r: seq<Addr>, a: Addr)
    requires ps.virtualNodes > 0 && CollisionFree(ps, nodes) && Owners(ps, nodes, key, n, r)
    ensures Responsible(ps, nodes, key, n, a) <==> a in r
  {
    if t :| Owners(ps, nodes, key, n, t) && a in t {
      OwnersUnique(ps, nodes, key, n, r, t, |r|);
      assert r[..|r|] == r && t[..|t|] == t;
    }
  }

  /** After a join, whoever was not added was responsible before. */
  lemma OldOwnersWereResponsible(ps: Params, nodes: set<Addr>, x: Addr, key: string, n: nat, a: Addr)
    requires ps.virtualNodes > 0 && x !in nodes && CollisionFree(ps, nodes + {x})
    requires Responsible(ps, nodes + {x}, key, n, a) && a != x
    ensures Responsible(ps, nodes, key, n, a)
  {
    SubsetCollisionFree(ps, nodes, nodes + {x});
    var r' :| Owners(ps, nodes + {x}, key, n, r') && a in r';
    var r := OwnersExist(ps, nodes, key, n);
    var p := MinimalDisruption(ps, nodes, x, key, n, r, r');
    if x in r' {
      assert a in r[..p] + [x] + r[p..|r'| - 1];
    }
  }

  // ---------------------------------------------------------------- one node's migration

  /** The closures and outcomes one migration run meets. */
  datatype Env = Env(
    skip: string -> bool,                 // shouldSkip
    readFile: string -> bool,             // readFile succeeds
    manifestsWired: bool,                 // SetManifestFuncs was called
    readManifest: string -> bool,         // readManifest finds the manifest of a file key
    send: string -> bool,                 // sending this key succeeds
    stopped: nat -> bool)                 // Stop is observed in the pause after this many migrations

  const MANIFEST_PREFIX: string := "manifest:"

  /** The run can read and deliver `key`. */
  predicate Deliverable(env: Env, key: string) {
    && env.send(key)
    && if MANIFEST_PREFIX <= key then env.manifestsWired && env.readManifest(key[|MANIFEST_PREFIX|..]) else env.readFile(key)
  }

  class Rebalancer {
    const selfAddr: Addr
    const ring: Ring
    var inProgress: bool

    constructor (selfAddr: Addr, ring: Ring)
      ensures this.selfAddr == selfAddr && this.ring == ring && !inProgress
    {
      this.selfAddr := selfAddr;
      this.ring := ring;
      inProgress := false;
    }

    method LocalKeys(all: seq<string>, env: Env) returns (filtered: seq<string>)
      ensures forall k :: k in filtered <==> k in all && !env.skip(k)
    {
      filtered := [];
      for i := 0 to |all|
        invariant forall k :: k in filtered <==> k in all[..i] && !env.skip(k)
      {
        assert all[..i + 1] == all[..i] + [all[i]];
        if !env.skip(all[i]) {
          filtered := filtered + [all[i]];
        }
      }
      assert all[..|all|] == all;
    }

    /** Sends the new node the keys that both it and this node are responsible for. */
    method MigrateToNewNode(newAddr: Addr, held: seq<string>, env: Env, ghost nodes: set<Addr>) returns (sent: seq<string>)
      requires ring.params.virtualNodes > 0 && CollisionFree(ring.params, nodes) && IsRing(ring.params, nodes, ring.State())
      modifies this
      ensures inProgress == old(inProgress)
      ensures old(inProgress) ==> sent == []
      ensures forall k :: k in sent ==>
        && k in held && !env.skip(k) && Deliverable(env, k)
        && Responsible(ring.params, nodes, k, ring.replFactor, newAddr)
        && Responsible(ring.params, nodes, k, ring.replFactor, selfAddr)
      ensures !old(inProgress) && (forall i :: !env.stopped(i)) ==> forall k ::
        && k in held && !env.skip(k) && Deliverable(env, k)
        && Responsible(ring.params, nodes, k, ring.replFactor, newAddr)
        && Responsible(ring.params, nodes, k, ring.replFactor, selfAddr)
        ==> k in sent
    {
      sent := [];
      if inProgress {
        return;
      }
      inProgress := true;
      var keys := LocalKeys(held, env);
      var migrated := 0;
      var i := 0;
      while i < |keys|
        invariant 0 <= i <= |keys|
        invariant forall k :: k in sent ==>
          && k in keys && Deliverable(env, k)
          && Responsible(ring.params, nodes, k, ring.replFactor, newAddr)
          && Responsible(ring.params, nodes, k, ring.replFactor, selfAddr)
        invariant forall k ::
          && k in keys[..i] && Deliverable(env, k)
          && Responsible(ring.params, nodes, k, ring.replFactor, newAddr)
          && Responsible(ring.params, nodes, k, ring.replFactor, selfAddr)
          ==> k in sent
      {
        var key := keys[i];
        assert keys[..i + 1] == keys[..i] + [key];
        i := i + 1;
        var responsible := ring.GetNodes(key, ring.replFactor, nodes);
        ResponsibleIsMember(ring.params, nodes, key, ring.replFactor, responsible, newAddr);
        ResponsibleIsMember(ring.params, nodes, key, ring.replFactor, responsible, selfAddr);
        if newAddr !in responsible {
          continue;
        }
        if selfAddr !in responsible {
          continue;
        }
        if MANIFEST_PREFIX <= key {
          if env.manifestsWired && env.readManifest(key[|MANIFEST_PREFIX|..]) && env.send(key) {
            sent := sent + [key];
            migrated := migrated + 1;
          }
          continue;
        }
        if !env.readFile(key) || !env.send(key) {
          continue;
        }
        sent := sent + [key];
        migrated := migrated + 1;
        if env.stopped(migrated) {
          inProgress := false;
          return;
        }
      }
      assert keys[..i] == keys;
      inProgress := false;
    }
  }

  // ---------------------------------------------------------------- the whole cluster

  /** Every responsible node holds every unskipped key. */
  ghost predicate Placed(ps: Params, nodes: set<Addr>, n: nat, keys: set<string>, holds: Addr -> set<string>, skip: string -> bool)
    requires ps.virtualNodes > 0
  {
    forall a, k :: a in nodes && k in keys && !skip(k) && Responsible(ps, nodes, k, n, a) ==> k in holds(a)
  }

  /** What the old members send between them: the contract of MigrateToNewNode when reads and
      sends succeed and nobody interrupts. */
  ghost predicate AllMigrated(ps: Params, nodes: set<Addr>, x: Addr, n: nat, holds: Addr -> set<string>, skip: string -> bool,
                              sent: Addr -> set<string>)
    requires ps.virtualNodes > 0
  {
    forall a, k :: a in nodes ==>
      (k in sent(a) <==>
         && k in holds(a) && !skip(k)
         && Responsible(ps, nodes + {x}, k, n, x) && Responsible(ps, nodes + {x}, k, n, a))
  }

  /** A key the new node becomes responsible for reaches it exactly when the replication factor
      leaves an old holder responsible. With a factor of 1 nobody sends it. */
  lemma KeyReachesNewNodeIff(ps: Params, nodes: set<Addr>, x: Addr, n: nat, keys: set<string>, holds: Addr -> set<string>,
                             skip: string -> bool, sent: Addr -> set<string>, k: string)
    requires ps.virtualNodes > 0 && nodes != {} && x !in nodes && CollisionFree(ps, nodes + {x})
    requires Placed(ps, nodes, n, keys, holds, skip) && AllMigrated(ps, nodes, x, n, holds, skip, sent)
    requires k in keys && !skip(k) && Responsible(ps, nodes + {x}, k, n, x)
    ensures (exists a :: a in nodes && k in sent(a)) <==> n >= 2
  {
    if n >= 2 {
      var a := OldOwnerRemains(ps, nodes, x, n, k);
      OldOwnersWereResponsible(ps, nodes, x, k, n, a);
      assert k in sent(a);
    } else {
      forall a | a in nodes ensures k !in sent(a) {
        OnlyNewOwner(ps, nodes, x, n, k, a);
      }
    }
  }

  /** With a factor of at least 2 some old node stays responsible beside the new one. */
  lemma OldOwnerRemains(ps: Params, nodes: set<Addr>, x: Addr, n: nat, k: string) returns (a: Addr)
    requires ps.virtualNodes > 0 && nodes != {} && x !in nodes && CollisionFree(ps, nodes + {x})
    requires n >= 2 && Responsible(ps, nodes + {x}, k, n, x)
    ensures a in nodes && Responsible(ps, nodes + {x}, k, n, a)
  {
    var r' :| Owners(ps, nodes + {x}, k, n, r') && x in r';
    assert |nodes + {x}| == |nodes| + 1;
    assert |r'| >= 2;
    assert Distance(ps, k, r'[0]) < Distance(ps, k, r'[1]);
    a := if r'[0] == x then r'[1] else r'[0];
    assert a in r' && a in nodes + {x};
  }

  /** With a factor of 1 a new owner is the only one. */
  lemma OnlyNewOwner(ps: Params, nodes: set<Addr>, x: Addr, n: nat, k: string, a: Addr)
    requires ps.virtualNodes > 0 && x !in nodes && CollisionFree(ps, nodes + {x}) && a in nodes
    requires n < 2 && Responsible(ps, nodes + {x}, k, n, x)
    ensures !Responsible(ps, nodes + {x}, k, n, a)
  {
    var r' :| Owners(ps, nodes + {x}, k, n, r') && x in r';
    assert |r'| <= 1 && r' == [x];
    ResponsibleIsMember(ps, nodes + {x}, k, n, r', a);
  }

  function After(holds: Addr -> set<string>, nodes: set<Addr>, x: Addr, sent: Addr -> set<string>): Addr -> set<string> {
    a => if a == x then holds(x) + set b, k | b in nodes && k in sent(b) :: k else holds(a)
  }

  /** Join migration preserves placement. */
  lemma JoinPreservesPlacement(ps: Params, nodes: set<Addr>, x: Addr, n: nat, keys: set<string>, holds: Addr -> set<string>,
                               skip: string -> bool, sent: Addr -> set<string>)
    requires ps.virtualNodes > 0 && nodes != {} && x !in nodes && CollisionFree(ps, nodes + {x}) && n >= 2
    requires Placed(ps, nodes, n, keys, holds, skip) && AllMigrated(ps, nodes, x, n, holds, skip, sent)
    ensures Placed(ps, nodes + {x}, n, keys, After(holds, nodes, x, sent), skip)
  {
    forall a, k | a in nodes + {x} && k in keys && !skip(k) && Responsible(ps, nodes + {x}, k, n, a)
      ensures k in After(holds, nodes, x, sent)(a)
    {
      if a == x {
        KeyReachesNewNodeIff(ps, nodes, x, n, keys, holds, skip, sent, k);
      } else {
        OldOwnersWereResponsible(ps, nodes, x, k, n, a);
      }
    }
  }

  function SentBy(sent: map<Addr, seq<string>>): Addr -> set<string> {
    a => if a in sent then Elements(sent[a]) else {}
  }

  function HeldBy(held: Addr -> seq<string>): Addr -> set<string> {
    a => Elements(held(a))
  }

  /** Nothing is in a run's way: reads and sends succeed and nobody stops it. */
  ghost predicate Unhindered(env: Env, held: seq<string>) {
    (forall k :: k in held ==> Deliverable(env, k)) && forall i :: !env.stopped(i)
  }

  /** A member that agrees on the ring and has no migration running. */
  ghost predicate Ready(ps: Params, nodes: set<Addr>, n: nat, r: Rebalancer)
    reads r, r.ring
  {
    r.ring.params == ps && r.ring.replFactor == n && IsRing(ps, nodes, r.ring.State()) && !r.inProgress
  }

  /** What one member sent is exactly the keys that both it and the new node are responsible for. */
  ghost predicate MigratedOne(ps: Params, nodes: set<Addr>, x: Addr, n: nat, held: seq<string>, skip: string -> bool, a: Addr,
                              sent: seq<string>)
    requires ps.virtualNodes > 0
  {
    forall k ::
      (k in sent <==>
         && k in held && !skip(k)
         && Responsible(ps, nodes, k, n, x) && Responsible(ps, nodes, k, n, a))
  }

  method MigrateUnhindered(ps: Params, r: Rebalancer, x: Addr, n: nat, held: seq<string>, env: Env, ghost nodes: set<Addr>)
    returns (sent: seq<string>)
    requires ps.virtualNodes > 0 && CollisionFree(ps, nodes) && Ready(ps, nodes, n, r) && Unhindered(env, held)
    modifies r
    ensures Ready(ps, nodes, n, r) && MigratedOne(ps, nodes, x, n, held, env.skip, r.selfAddr, sent)
  {
    sent := r.MigrateToNewNode(x, held, env, nodes);
  }

  lemma SentIsMigrated(ps: Params, nodes: set<Addr>, x: Addr, n: nat, held: Addr -> seq<string>, skip: string -> bool,
                       sent: map<Addr, seq<string>>)
    requires ps.virtualNodes > 0 && sent.Keys == nodes && AllMigratedOne(ps, nodes + {x}, x, n, held, skip, sent)
    ensures AllMigrated(ps, nodes, x, n, HeldBy(held), skip, SentBy(sent))
  {
    forall a, k | a in nodes
      ensures k in SentBy(sent)(a) <==>
        && k in HeldBy(held)(a) && !skip(k)
        && Responsible(ps, nodes + {x}, k, n, x) && Responsible(ps, nodes + {x}, k, n, a)
    {
      assert MigratedOne(ps, nodes + {x}, x, n, held(a), skip, a, sent[a]);
      assert k in SentBy(sent)(a) <==> k in sent[a];
    }
  }

  ghost function Addresses(members: seq<Rebalancer>): set<Addr> {
    set r | r in members :: r.selfAddr
  }

  lemma AddressesStep(members: seq<Rebalancer>, i: nat)
    requires i < |members|
    ensures Addresses(members[..i + 1]) == Addresses(members[..i]) + {members[i].selfAddr}
    ensures members[i].selfAddr in Addresses(members)
  {
    assert members[..i + 1] == members[..i] + [members[i]];
  }

  ghost predicate AllMigratedOne(ps: Params, nodes: set<Addr>, x: Addr, n: nat, held: Addr -> seq<string>, skip: string -> bool,
                                 sent: map<Addr, seq<string>>)
    requires ps.virtualNodes > 0
  {
    forall a :: a in sent ==> MigratedOne(ps, nodes, x, n, held(a), skip, a, sent[a])
  }

  ghost predicate AllReady(ps: Params, nodes: set<Addr>, n: nat, members: seq<Rebalancer>)
    reads members, set r | r in members :: r.ring
  {
    forall r :: r in members ==> Ready(ps, nodes, n, r)
  }

  /** The members run one after the other, in any order. */
  method MigrateEach(ps: Params, members: seq<Rebalancer>, x: Addr, n: nat, held: Addr -> seq<string>, envs: Addr -> Env,
                     ghost skip: string -> bool, ghost nodes: set<Addr>)
    returns (sent: map<Addr, seq<string>>)
    requires ps.virtualNodes > 0 && CollisionFree(ps, nodes) && AllReady(ps, nodes, n, members)
    requires forall a :: a in Addresses(members) ==> envs(a).skip == skip && Unhindered(envs(a), held(a))
    modifies members
    ensures sent.Keys == Addresses(members) && AllMigratedOne(ps, nodes, x, n, held, skip, sent)
  {
    sent := map[];
    for i := 0 to |members|
      invariant AllReady(ps, nodes, n, members)
      invariant sent.Keys == Addresses(members[..i]) && AllMigratedOne(ps, nodes, x, n, held, skip, sent)
    {
      AddressesStep(members, i);
      var self := members[i].selfAddr;
      var keysSent := MigrateUnhindered(ps, members[i], x, n, held(self), envs(self), nodes);
      sent := sent[self := keysSent];
    }
    assert members[..|members|] == members;
  }

  /** Every old member of an agreed ring runs its migration: afterwards every responsible node,
      the new one included, holds every unskipped key. */
  method MigrateAll(ps: Params, members: seq<Rebalancer>, x: Addr, n: nat, held: Addr -> seq<string>, envs: Addr -> Env,
                    ghost skip: string -> bool, ghost nodes: set<Addr>, ghost keys: set<string>)
    returns (sent: map<Addr, seq<string>>)
    requires ps.virtualNodes > 0 && n >= 2 && nodes != {} && x !in nodes && CollisionFree(ps, nodes + {x})
    requires nodes == Addresses(members) && AllReady(ps, nodes + {x}, n, members)
    requires forall a :: a in nodes ==> envs(a).skip == skip && Unhindered(envs(a), held(a))
    requires Placed(ps, nodes, n, keys, HeldBy(held), skip)
    modifies members
    ensures Placed(ps, nodes + {x}, n, keys, After(HeldBy(held), nodes, x, SentBy(sent)), skip)
  {
    sent := MigrateEach(ps, members, x, n, held, envs, skip, nodes + {x});
    SentIsMigrated(ps, nodes, x, n, held, skip, sent);
    JoinPreservesPlacement(ps, nodes, x, n, keys, HeldBy(held), skip, SentBy(sent));
  }
}
