/** The membership table of one node (Cluster/membership/membership.go). Clock readings are
    parameters; what a call does to one address is a function of that address's entry. */
module Membership {
  import opened Common

  type Addr = string

  datatype NodeState = Alive | Suspect | Dead | Left

  function Severity(s: NodeState): nat {
    match s case Alive => 0 case Suspect => 1 case Dead => 2 case Left => 3
  }

  type Metadata = map<string, string>

  datatype NodeInfo = NodeInfo(state: NodeState, generation: nat, metadata: Metadata)

  datatype GossipDigest = GossipDigest(addr: Addr, state: NodeState, generation: nat)

  type Entry = Option<NodeInfo>

  type Table = map<Addr, NodeInfo>

  function Lookup(t: Table, a: Addr): Entry {
    if a in t then Some(t[a]) else None
  }

  // ---------------------------------------------------------------- the order on records

  /** What gossip carries about an address. */
  datatype Rec = Rec(generation: nat, state: NodeState)

  function RecOf(i: NodeInfo): Rec {
    Rec(i.generation, i.state)
  }

  function View(e: Entry): Option<Rec> {
    if e.Some? then Some(RecOf(e.value)) else None
  }

  /** Lexicographic: a higher generation wins, then the more severe state. */
  predicate RecLe(x: Rec, y: Rec) {
    x.generation < y.generation || (x.generation == y.generation && Severity(x.state) <= Severity(y.state))
  }

  predicate Le(x: Option<Rec>, y: Option<Rec>) {
    x.None? || (y.Some? && RecLe(x.value, y.value))
  }

  function Join(x: Option<Rec>, y: Option<Rec>): Option<Rec> {
    if Le(x, y) then y else x
  }

  lemma LeIsTotalOrder(x: Option<Rec>, y: Option<Rec>, z: Option<Rec>)
    ensures Le(x, x) && (Le(x, y) || Le(y, x))
    ensures Le(x, y) && Le(y, x) ==> x == y
    ensures Le(x, y) && Le(y, z) ==> Le(x, z)
    ensures forall g, s :: RecLe(Rec(g, Alive), Rec(g, s)) && RecLe(Rec(g, s), Rec(g, Left)) && RecLe(Rec(g, Suspect), Rec(g, Dead))
  {
  }

  // ---------------------------------------------------------------- what each call does to one entry

  function UpdateEntry(e: Entry, state: NodeState, generation: nat): Entry {
    match e
    case None => Some(NodeInfo(state, generation, map[]))
    case Some(i) => if generation <= i.generation then e else Some(i.(state := state, generation := generation))
  }

  function NextStamp(now: nat, generation: nat): nat {
    if now <= generation then generation + 1 else now
  }

  function ForceEntry(e: Entry, state: NodeState, now: nat): Entry {
    if e.None? then None else Some(e.value.(state := state, generation := NextStamp(now, e.value.generation)))
  }

  function BumpEntry(e: Entry, now: nat): Entry {
    if e.None? then None else Some(e.value.(generation := NextStamp(now, e.value.generation)))
  }

  function AddEntry(e: Entry, meta: Metadata): Entry {
    if e.None? then Some(NodeInfo(Alive, 1, meta)) else e
  }

  function MetaEntry(e: Entry, meta: Metadata): Entry {
    if e.None? then None else Some(e.value.(metadata := e.value.metadata + meta))
  }

  /** At equal generation the more severe state is taken. */
  function MergeEntry(e: Entry, d: GossipDigest): Entry {
    if e.Some? && d.generation == e.value.generation && Severity(d.state) > Severity(e.value.state)
    then Some(e.value.(state := d.state)) else e
  }

  function MergeAll(a: Addr, e: Entry, ds: seq<GossipDigest>): Entry {
    if ds == [] then e
    else
      var before := MergeAll(a, e, ds[..|ds| - 1]);
      var d := ds[|ds| - 1];
      if d.addr == a then MergeEntry(before, d) else before
  }

  /** The sender knows more about this address: it is unknown here or carries a higher generation. */
  predicate Newer(e: Entry, d: GossipDigest) {
    e.None? || d.generation > e.value.generation
  }

  /** Merge never changes whether an address is known, nor its generation. */
  lemma {:induction false} MergeKeepsGeneration(a: Addr, e: Entry, ds: seq<GossipDigest>)
    ensures MergeAll(a, e, ds).Some? == e.Some?
    ensures e.Some? ==> MergeAll(a, e, ds).value.generation == e.value.generation
    ensures e.Some? ==> MergeAll(a, e, ds).value.metadata == e.value.metadata
    ensures Le(View(e), View(MergeAll(a, e, ds)))
  {
    if ds != [] {
      MergeKeepsGeneration(a, e, ds[..|ds| - 1]);
    }
  }

  /** Merging leaves a known address at the most severe state told of it at its own generation, and
      touches nothing else. */
  lemma {:induction false} MergeIsMostSevere(a: Addr, e: Entry, ds: seq<GossipDigest>)
    requires e.Some?
    ensures var r := MergeAll(a, e, ds);
      && r.Some? && r.value == e.value.(state := r.value.state)
      && Severity(e.value.state) <= Severity(r.value.state)
      && (forall d :: d in ds && d.addr == a && d.generation == e.value.generation ==> Severity(d.state) <= Severity(r.value.state))
      && (r == e || GossipDigest(a, r.value.state, e.value.generation) in ds)
  {
    if ds != [] {
      var n := |ds| - 1;
      MergeIsMostSevere(a, e, ds[..n]);
      assert ds == ds[..n] + [ds[n]];
    }
  }

  // ---------------------------------------------------------------- the table object

  ghost predicate DigestOf(t: Table, ds: seq<GossipDigest>) {
    && (forall i, j :: 0 <= i < j < |ds| ==> ds[i].addr != ds[j].addr)
    && (forall i :: 0 <= i < |ds| ==> ds[i].addr in t && Rec(ds[i].generation, ds[i].state) == RecOf(t[ds[i].addr]))
    && (forall a :: a in t ==> exists i :: 0 <= i < |ds| && ds[i].addr == a)
  }

  class ClusterState {
    const selfAddr: Addr
    var nodes: Table

    /** A new node is alive at a generation taken from the clock, at least 2. */
    constructor (selfAddr: Addr, now: nat)
      ensures this.selfAddr == selfAddr
      ensures nodes == map[selfAddr := NodeInfo(Alive, if now < 2 then 2 else now, map[])]
    {
      this.selfAddr := selfAddr;
      var gen := now;
      if gen < 2 {
        gen := 2;
      }
      nodes := map[selfAddr := NodeInfo(Alive, gen, map[])];
    }

    method AddNode(addr: Addr, meta: Metadata)
      modifies this
      ensures forall a :: Lookup(nodes, a) == if a == addr then AddEntry(Lookup(old(nodes), a), meta) else Lookup(old(nodes), a)
      ensures nodes == if addr in old(nodes) then old(nodes) else old(nodes)[addr := NodeInfo(Alive, 1, meta)]
    {
      if addr in nodes {
        return;
      }
      nodes := nodes[addr := NodeInfo(Alive, 1, meta)];
    }

    method RemoveNode(addr: Addr)
      modifies this
      ensures forall a :: Lookup(nodes, a) == if a == addr then None else Lookup(old(nodes), a)
    {
      nodes := nodes - {addr};
    }

    method UpdateState(addr: Addr, newState: NodeState, generation: nat) returns (applied: bool)
      modifies this
      ensures forall a ::
        Lookup(nodes, a) == if a == addr then UpdateEntry(Lookup(old(nodes), a), newState, generation) else Lookup(old(nodes), a)
      ensures applied <==> addr !in old(nodes) || generation > old(nodes)[addr].generation
      ensures applied ==> addr in nodes && RecOf(nodes[addr]) == Rec(generation, newState)
      ensures !applied ==> nodes == old(nodes)
    {
      if addr !in nodes {
        nodes := nodes[addr := NodeInfo(newState, generation, map[])];
        return true;
      }
      if generation <= nodes[addr].generation {
        return false;
      }
      nodes := nodes[addr := nodes[addr].(state := newState, generation := generation)];
      applied := true;
    }

    method ForceLocalState(addr: Addr, newState: NodeState, now: nat)
      modifies this
      ensures forall a ::
        Lookup(nodes, a) == if a == addr then ForceEntry(Lookup(old(nodes), a), newState, now) else Lookup(old(nodes), a)
      ensures nodes.Keys == old(nodes).Keys
      ensures addr in nodes ==>
        && nodes[addr].state == newState && nodes[addr].metadata == old(nodes)[addr].metadata
        && nodes[addr].generation > old(nodes)[addr].generation && nodes[addr].generation >= now
        && (nodes[addr].generation == now || nodes[addr].generation == old(nodes)[addr].generation + 1)
    {
      if addr !in nodes {
        return;
      }
      var newGen := now;
      if newGen <= nodes[addr].generation {
        newGen := nodes[addr].generation + 1;
      }
      nodes := nodes[addr := nodes[addr].(state := newState, generation := newGen)];
    }

    method SetMetadata(addr: Addr, meta: Metadata)
      modifies this
      ensures forall a :: Lookup(nodes, a) == if a == addr then MetaEntry(Lookup(old(nodes), a), meta) else Lookup(old(nodes), a)
      ensures nodes.Keys == old(nodes).Keys
      ensures addr in nodes ==>
        && RecOf(nodes[addr]) == RecOf(old(nodes)[addr])
        && nodes[addr].metadata.Keys == old(nodes)[addr].metadata.Keys + meta.Keys
        && forall k :: k in nodes[addr].metadata ==>
             nodes[addr].metadata[k] == if k in meta then meta[k] else old(nodes)[addr].metadata[k]
    {
      if addr in nodes {
        nodes := nodes[addr := nodes[addr].(metadata := nodes[addr].metadata + meta)];
      }
    }

    method BumpSelfGeneration(now: nat)
      modifies this
      ensures forall a :: Lookup(nodes, a) == if a == selfAddr then BumpEntry(Lookup(old(nodes), a), now) else Lookup(old(nodes), a)
      ensures nodes.Keys == old(nodes).Keys
      ensures selfAddr in nodes ==>
        && nodes[selfAddr] == old(nodes)[selfAddr].(generation := nodes[selfAddr].generation)
        && nodes[selfAddr].generation > old(nodes)[selfAddr].generation && nodes[selfAddr].generation >= now
        && (nodes[selfAddr].generation == now || nodes[selfAddr].generation == old(nodes)[selfAddr].generation + 1)
    {
      if selfAddr !in nodes {
        return;
      }
      var newGen := now;
      if newGen <= nodes[selfAddr].generation {
        newGen := nodes[selfAddr].generation + 1;
      }
      nodes := nodes[selfAddr := nodes[selfAddr].(generation := newGen)];
    }

    /** One digest per known address, in no particular order. */
    method Digest() returns (digests: seq<GossipDigest>)
      ensures DigestOf(nodes, digests)
    {
      digests := [];
      var left := nodes.Keys;
      while left != {}
        invariant left <= nodes.Keys
        invariant forall i, j :: 0 <= i < j < |digests| ==> digests[i].addr != digests[j].addr
        invariant forall i :: 0 <= i < |digests| ==>
          && digests[i].addr in nodes && digests[i].addr !in left
          && Rec(digests[i].generation, digests[i].state) == RecOf(nodes[digests[i].addr])
        invariant forall a :: a in nodes && a !in left ==> exists i :: 0 <= i < |digests| && digests[i].addr == a
        decreases left
      {
        var a :| a in left;
        left := left - {a};
        ghost var before := digests;
        digests := digests + [GossipDigest(a, nodes[a].state, nodes[a].generation)];
        forall b | b in nodes && b !in left ensures exists i :: 0 <= i < |digests| && digests[i].addr == b {
          if b == a {
            assert digests[|before|].addr == a;
          } else {
            var i :| 0 <= i < |before| && before[i].addr == b;
            assert digests[i].addr == b;
          }
        }
      }
    }

    /** Full records of the known ones among `addrs`, one for each and in that order; `at` are their positions. */
    method GetNodes(addrs: seq<Addr>) returns (infos: seq<(Addr, NodeInfo)>, ghost at: seq<nat>)
      ensures |infos| == |at| && forall i, j :: 0 <= i < j < |at| ==> at[i] < at[j]
      ensures forall i :: 0 <= i < |infos| ==>
        at[i] < |addrs| && infos[i].0 == addrs[at[i]] && Lookup(nodes, infos[i].0) == Some(infos[i].1)
      ensures forall k :: 0 <= k < |addrs| && addrs[k] in nodes ==> k in at
      ensures forall i :: 0 <= i < |infos| ==> infos[i].0 in addrs && Lookup(nodes, infos[i].0) == Some(infos[i].1)
      ensures forall a :: a in addrs && a in nodes ==> (a, nodes[a]) in infos
    {
      infos, at := [], [];
      for k := 0 to |addrs|
        invariant |infos| == |at| && forall i, j :: 0 <= i < j < |at| ==> at[i] < at[j]
        invariant forall i :: 0 <= i < |infos| ==>
          at[i] < k && infos[i].0 == addrs[at[i]] && Lookup(nodes, infos[i].0) == Some(infos[i].1)
        invariant forall j :: 0 <= j < k && addrs[j] in nodes ==> j in at
      {
        if addrs[k] in nodes {
          infos, at := infos + [(addrs[k], nodes[addrs[k]])], at + [k];
        }
      }
      forall a | a in addrs && a in nodes ensures (a, nodes[a]) in infos {
        var k :| 0 <= k < |addrs| && addrs[k] == a;
        assert k in at;
        var i :| 0 <= i < |at| && at[i] == k;
        assert infos[i] == (a, nodes[a]);
      }
    }

    /** Takes the more severe state at equal generation and returns the addresses about which the
        sender knows more. */
    method Merge(digests: seq<GossipDigest>) returns (needFull: seq<Addr>)
      modifies this
      ensures forall a :: Lookup(nodes, a) == MergeAll(a, Lookup(old(nodes), a), digests)
      ensures forall a :: a in needFull <==>
        exists i :: 0 <= i < |digests| && digests[i].addr == a && Newer(Lookup(old(nodes), a), digests[i])
    {
      needFull := [];
      for k := 0 to |digests|
        invariant forall a :: Lookup(nodes, a) == MergeAll(a, Lookup(old(nodes), a), digests[..k])
        invariant forall a :: a in needFull <==> exists i :: 0 <= i < k && digests[i].addr == a && Newer(Lookup(old(nodes), a), digests[i])
      {
        var d := digests[k];
        assert digests[..k + 1][..k] == digests[..k];
        MergeKeepsGeneration(d.addr, Lookup(old(nodes), d.addr), digests[..k]);
        ghost var before := needFull;
        ghost var t := nodes;
        assert Newer(Lookup(t, d.addr), d) <==> Newer(Lookup(old(nodes), d.addr), d);
        if d.addr !in nodes {
          needFull := needFull + [d.addr];
        } else if d.generation > nodes[d.addr].generation {
          needFull := needFull + [d.addr];
        } else if d.generation == nodes[d.addr].generation && Severity(d.state) > Severity(nodes[d.addr].state) {
          nodes := nodes[d.addr := nodes[d.addr].(state := d.state)];
        }
        assert needFull == if Newer(Lookup(old(nodes), d.addr), d) then before + [d.addr] else before;
        forall a ensures a in needFull <==> exists i :: 0 <= i < k + 1 && digests[i].addr == a && Newer(Lookup(old(nodes), a), digests[i]) {
          assert digests[k] == d;
        }
        forall a ensures Lookup(nodes, a) == MergeAll(a, Lookup(old(nodes), a), digests[..k + 1]) {
          assert digests[..k + 1][k] == d;
        }
      }
      assert digests[..|digests|] == digests;
    }
  }
}
