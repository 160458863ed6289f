/** The flooded search (Server/server.go, SearchRequestCache, SearchFiles and handleSearchRequest):
    requests fan out with a decreasing TTL and are deduplicated by a cache that may evict. */
module SearchFlood {
  import opened Common
  import opened Sequences

  type Addr = string

  datatype Request = Request(to: Addr, sender: Addr, id: string, origin: Addr, ttl: int)

  // ---------------------------------------------------------------- one node

  const CACHE_SOFT_LIMIT: nat := 100
  const CACHE_AGE: int := 30

  class SearchRequestCache {
    var items: map<string, int>   // request id -> when it was seen, in seconds

    constructor ()
      ensures items == map[]
    {
      items := map[];
    }

    /** Reports a known id, or records a new one; when that makes more than 100, exactly the entries older
        than 30 s are evicted. */
    method SeenOrAdd(id: string, now: int) returns (seen: bool)
      modifies this
      ensures seen <==> id in old(items)
      ensures seen ==> items == old(items)
      ensures !seen ==> forall k :: k in items <==>
        || k == id
        || (k in old(items) && (|old(items)| < CACHE_SOFT_LIMIT || old(items)[k] >= now - CACHE_AGE))
      ensures forall k :: k in items && k in old(items) ==> items[k] == old(items)[k]
      ensures !seen ==> items[id] == now
    {
      if id in items {
        return true;
      }
      items := items[id := now];
      assert items.Keys == old(items).Keys + {id};
      if |items| > CACHE_SOFT_LIMIT {
        var cutoff := now - CACHE_AGE;
        var left := items.Keys;
        ghost var full := items;
        while left != {}
          invariant left <= full.Keys
          invariant forall k :: k in items <==> k in full && (k in left || full[k] >= cutoff)
          invariant forall k :: k in items ==> items[k] == full[k]
          decreases left
        {
          var k :| k in left;
          left := left - {k};
          if items[k] < cutoff {
            items := items - {k};
          }
        }
      }
      seen := false;
    }
  }

  /** The copies a node sends on: to every peer but the one it came from, while the TTL lasts. */
  function Forwards(peers: seq<Addr>, r: Request): seq<Request> {
    if r.ttl <= 1 || peers == [] then []
    else
      (if peers[0] == r.sender then [] else [Request(peers[0], r.to, r.id, r.origin, r.ttl - 1)]) + Forwards(peers[1..], r)
  }

  /** The results of a search, sent straight to its originator. */
  datatype Answer = Answer(to: Addr, id: string, results: seq<string>)

  /** `matches` are the public files here that match the query. */
  method HandleSearchRequest(cache: SearchRequestCache, peers: seq<Addr>, r: Request, matches: seq<string>, now: int)
    returns (searched: bool, answer: Option<Answer>, forwards: seq<Request>)
    modifies cache
    ensures answer == if searched && matches != [] then Some(Answer(r.origin, r.id, matches)) else None
    ensures searched <==> r.id !in old(cache.items)
    ensures forwards == if searched then Forwards(peers, r) else []
    ensures searched ==> r.id in cache.items && cache.items.Keys <= old(cache.items).Keys + {r.id}
    ensures !searched ==> cache.items == old(cache.items)
  {
    forwards := [];
    var seen := cache.SeenOrAdd(r.id, now);
    if seen {
      return false, None, [];
    }
    searched := true;
    answer := None;
    if |matches| > 0 {
      answer := Some(Answer(r.origin, r.id, matches));
    }
    forwards := Forward(peers, r);
  }

  /** Every peer but the sender gets the request with one less to live, while the TTL is above 1, and
      nobody else gets anything; over distinct connections each gets one copy. */
  lemma {:induction false} ForwardsExactly(peers: seq<Addr>, r: Request)
    ensures forall f :: f in Forwards(peers, r) <==>
              r.ttl > 1 && f.to in peers && f.to != r.sender && f == Request(f.to, r.to, r.id, r.origin, r.ttl - 1)
    ensures Distinct(peers) ==> Distinct(Forwards(peers, r))
  {
    if r.ttl > 1 && peers != [] {
      ForwardsExactly(peers[1..], r);
      assert peers == [peers[0]] + peers[1..];
      if Distinct(peers) {
        assert Distinct(peers[1..]) && peers[0] !in peers[1..];
      }
    }
  }

  lemma ForwardsStep(peers: seq<Addr>, i: nat, r: Request)
    requires i < |peers| && r.ttl > 1
    ensures peers[i] == r.sender ==> Forwards(peers[i..], r) == Forwards(peers[i + 1..], r)
    ensures peers[i] != r.sender ==>
      Forwards(peers[i..], r) == [Request(peers[i], r.to, r.id, r.origin, r.ttl - 1)] + Forwards(peers[i + 1..], r)
  {
    assert peers[i..][0] == peers[i] && peers[i..][1..] == peers[i + 1..];
    assert [] + Forwards(peers[i + 1..], r) == Forwards(peers[i + 1..], r);
  }

  lemma Regroup<T>(a: seq<T>, b: seq<T>, c: seq<T>)
    ensures a + (b + c) == a + b + c
  {
  }

  /** The forwarding loop. */
  method Forward(peers: seq<Addr>, r: Request) returns (forwards: seq<Request>)
    ensures forwards == Forwards(peers, r)
  {
    forwards := [];
    if r.ttl > 1 {
      assert peers[0..] == peers;
      for i := 0 to |peers|
        invariant Forwards(peers, r) == forwards + Forwards(peers[i..], r)
      {
        ForwardsStep(peers, i, r);
        if peers[i] == r.sender {
          continue;
        }
        var copy := Request(peers[i], r.to, r.id, r.origin, r.ttl - 1);
        Regroup(forwards, [copy], Forwards(peers[i + 1..], r));
        forwards := forwards + [copy];
      }
    }
  }

  // ---------------------------------------------------------------- the network

  /** Requests in flight, the ids each node remembers, and who searched what, in order. */
  datatype Net = Net(inFlight: seq<Request>, known: Addr -> set<string>, searched: seq<(Addr, string)>)

  datatype Action = Handle(k: nat) | Lose(k: nat)

  function Without<T>(s: seq<T>, k: nat): seq<T>
    requires k < |s|
  {
    s[..k] + s[k + 1..]
  }

  /** Handling follows HandleSearchRequest's contract; the cache may evict anything it likes. */
  ghost predicate Step(peers: Addr -> seq<Addr>, s: Net, a: Action, s': Net) {
    a.k < |s.inFlight| &&
    match a
    case Lose(k) => s' == s.(inFlight := Without(s.inFlight, k))
    case Handle(k) =>
      var r := s.inFlight[k];
      if r.id in s.known(r.to) then s' == s.(inFlight := Without(s.inFlight, k))
      else
        && s'.inFlight == Without(s.inFlight, k) + Forwards(peers(r.to), r)
        && s'.searched == s.searched + [(r.to, r.id)]
        && (forall n :: n != r.to ==> s'.known(n) == s.known(n))
        && r.id in s'.known(r.to) && s'.known(r.to) <= s.known(r.to) + {r.id}
  }

  function Power(b: nat, e: nat): nat {
    if e == 0 then 1 else b * Power(b, e - 1)
  }

  /** With at most `d` peers per node, a request of this TTL can cause no more than this much. */
  function Weight(d: nat, ttl: int): nat {
    Power(d + 1, if ttl > 0 then ttl else 0)
  }

  function Total(d: nat, rs: seq<Request>): nat {
    if rs == [] then 0 else Weight(d, rs[0].ttl) + Total(d, rs[1..])
  }

  lemma {:induction false} TotalConcat(d: nat, xs: seq<Request>, ys: seq<Request>)
    ensures Total(d, xs + ys) == Total(d, xs) + Total(d, ys)
  {
    if xs == [] {
      assert xs + ys == ys;
    } else {
      TotalConcat(d, xs[1..], ys);
      assert (xs + ys)[1..] == xs[1..] + ys;
    }
  }

  lemma TotalWithout(d: nat, rs: seq<Request>, k: nat)
    requires k < |rs|
    ensures Total(d, rs) == Total(d, Without(rs, k)) + Weight(d, rs[k].ttl)
  {
    assert rs == rs[..k] + ([rs[k]] + rs[k + 1..]);
    TotalConcat(d, rs[..k], [rs[k]] + rs[k + 1..]);
    TotalConcat(d, rs[..k], rs[k + 1..]);
    assert ([rs[k]] + rs[k + 1..])[1..] == rs[k + 1..];
  }

  lemma {:induction false} PowerPositive(b: nat, e: nat)
    requires b > 0
    ensures Power(b, e) > 0
  {
    if e > 0 {
      PowerPositive(b, e - 1);
    }
  }

  lemma MulSucc(n: nat, w: nat)
    ensures (n + 1) * w == w + n * w
  {
  }

  lemma MulMonotone(a: nat, b: nat, w: nat)
    requires a <= b
    ensures a * w <= b * w
  {
    assert b * w == a * w + (b - a) * w;
  }

  lemma {:induction false} ForwardsUniform(peers: seq<Addr>, r: Request)
    requires r.ttl > 1
    ensures |Forwards(peers, r)| <= |peers|
    ensures forall f :: f in Forwards(peers, r) ==> f.ttl == r.ttl - 1
  {
    if peers != [] {
      ForwardsUniform(peers[1..], r);
    }
  }

  lemma {:induction false} UniformTotal(d: nat, rs: seq<Request>, ttl: int)
    requires forall r :: r in rs ==> r.ttl == ttl
    ensures Total(d, rs) == |rs| * Weight(d, ttl)
  {
    if rs != [] {
      UniformTotal(d, rs[1..], ttl);
      MulSucc(|rs| - 1, Weight(d, ttl));
    }
  }

  /** All the copies together weigh less than the request they replace. */
  lemma CopiesWeighLess(d: nat, peers: seq<Addr>, r: Request)
    requires |peers| <= d
    ensures Total(d, Forwards(peers, r)) < Weight(d, r.ttl)
  {
    PowerPositive(d + 1, if r.ttl > 0 then r.ttl else 0);
    if r.ttl > 1 {
      var fs, w := Forwards(peers, r), Weight(d, r.ttl - 1);
      ForwardsUniform(peers, r);
      UniformTotal(d, fs, r.ttl - 1);
      MulMonotone(|fs|, d, w);
      PowerPositive(d + 1, r.ttl - 1);
      MulSucc(d, w);
    }
  }

  /** Every handling step, and every loss, strictly lowers the total weight, evictions or not. */
  lemma StepLowersTotal(d: nat, peers: Addr -> seq<Addr>, s: Net, a: Action, s': Net)
    requires Step(peers, s, a, s') && forall n :: |peers(n)| <= d
    ensures Total(d, s'.inFlight) < Total(d, s.inFlight)
  {
    var r := s.inFlight[a.k];
    TotalWithout(d, s.inFlight, a.k);
    CopiesWeighLess(d, peers(r.to), r);
    TotalConcat(d, Without(s.inFlight, a.k), Forwards(peers(r.to), r));
  }

  ghost predicate IsRun(peers: Addr -> seq<Addr>, states: seq<Net>, acts: seq<Action>) {
    && |states| == |acts| + 1
    && forall i :: 0 <= i < |acts| ==> Step(peers, states[i], acts[i], states[i + 1])
  }

  lemma {:induction false} RunBound(d: nat, peers: Addr -> seq<Addr>, states: seq<Net>, acts: seq<Action>, i: nat)
    requires IsRun(peers, states, acts) && i <= |acts| && forall n :: |peers(n)| <= d
    ensures i + Total(d, states[i].inFlight) <= Total(d, states[0].inFlight)
  {
    if i > 0 {
      RunBound(d, peers, states, acts, i - 1);
      StepLowersTotal(d, peers, states[i - 1], acts[i - 1], states[i]);
    }
  }

  const SEARCH_TTL: int := 5

  /** SearchFiles marks its own id as seen and floods all its peers with TTL 5. */
  function Flood(peers: seq<Addr>, origin: Addr, id: string): seq<Request> {
    if peers == [] then [] else [Request(peers[0], origin, id, origin, SEARCH_TTL)] + Flood(peers[1..], origin, id)
  }

  lemma {:induction false} FloodExactly(peers: seq<Addr>, origin: Addr, id: string)
    ensures forall f :: f in Flood(peers, origin, id) <==> f.to in peers && f == Request(f.to, origin, id, origin, SEARCH_TTL)
    ensures Distinct(peers) ==> Distinct(Flood(peers, origin, id))
  {
    if peers != [] {
      FloodExactly(peers[1..], origin, id);
      assert peers == [peers[0]] + peers[1..];
      if Distinct(peers) {
        assert Distinct(peers[1..]) && peers[0] !in peers[1..];
      }
    }
  }

  lemma {:induction false} FloodUniform(peers: seq<Addr>, origin: Addr, id: string)
    ensures |Flood(peers, origin, id)| == |peers|
    ensures forall f :: f in Flood(peers, origin, id) ==> f.ttl == SEARCH_TTL
  {
    if peers != [] {
      FloodUniform(peers[1..], origin, id);
    }
  }

  /** A search dies out: in a network of degree at most d it causes at most d * (d+1)^5 deliveries
      and losses, whatever the caches evict. */
  lemma SearchDiesOut(d: nat, peers: Addr -> seq<Addr>, origin: Addr, id: string, states: seq<Net>, acts: seq<Action>)
    requires IsRun(peers, states, acts) && forall n :: |peers(n)| <= d
    requires states[0].inFlight == Flood(peers(origin), origin, id)
    ensures |acts| <= d * Power(d + 1, 5)
    ensures (forall a, s' :: !Step(peers, states[|acts|], a, s')) ==> states[|acts|].inFlight == []
  {
    RunBound(d, peers, states, acts, |acts|);
    FloodUniform(peers(origin), origin, id);
    UniformTotal(d, states[0].inFlight, SEARCH_TTL);
    MulMonotone(|peers(origin)|, d, Weight(d, SEARCH_TTL));
    var last := states[|acts|];
    if last.inFlight != [] {
      assert Step(peers, last, Lose(0), last.(inFlight := Without(last.inFlight, 0)));
    }
  }

  // ---------------------------------------------------------------- once each

  /** No cache evicts anything during the run. */
  ghost predicate NoEviction(states: seq<Net>, acts: seq<Action>)
    requires |states| == |acts| + 1
  {
    forall i :: 0 <= i < |acts| ==> Remembers(states[i], acts[i], states[i + 1])
  }

  /** The node the step delivers to still knows every id it knew. */
  ghost predicate Remembers(s: Net, a: Action, s': Net) {
    a.k < |s.inFlight| ==> s.known(s.inFlight[a.k].to) <= s'.known(s.inFlight[a.k].to)
  }

  ghost predicate OnceEach(s: Net) {
    && (forall i, j :: 0 <= i < j < |s.searched| ==> s.searched[i] != s.searched[j])
    && (forall i :: 0 <= i < |s.searched| ==> s.searched[i].1 in s.known(s.searched[i].0))
  }

  /** While nothing is evicted every node searches and answers a request id at most once, and the
      originator, which marked the id before flooding, never does. */
  lemma {:induction false} SearchedAtMostOnce(peers: Addr -> seq<Addr>, states: seq<Net>, acts: seq<Action>,
                                              origin: Addr, id: string, i: nat)
    requires IsRun(peers, states, acts) && NoEviction(states, acts) && i <= |acts|
    requires states[0].searched == [] && id in states[0].known(origin)
    ensures OnceEach(states[i]) && id in states[i].known(origin) && (origin, id) !in states[i].searched
  {
    if i > 0 {
      SearchedAtMostOnce(peers, states, acts, origin, id, i - 1);
      var s, s' := states[i - 1], states[i];
      assert Step(peers, s, acts[i - 1], s');
      assert Remembers(s, acts[i - 1], s');
      assert forall n :: s.known(n) <= s'.known(n);
    }
  }

  // ---------------------------------------------------------------- whom a search reaches

  /** `b` is at most `k` connections away from `a`. */
  ghost predicate Within(peers: Addr -> seq<Addr>, a: Addr, b: Addr, k: nat)
    decreases k
  {
    a == b || (k > 0 && exists m :: Within(peers, a, m, k - 1) && b in peers(m))
  }

  lemma {:induction false} WithinMore(peers: Addr -> seq<Addr>, a: Addr, b: Addr, k: nat, l: nat)
    requires Within(peers, a, b, k) && k <= l
    ensures Within(peers, a, b, l)
    decreases k
  {
    if a != b {
      var m :| Within(peers, a, m, k - 1) && b in peers(m);
      WithinMore(peers, a, m, k - 1, l - 1);
    }
  }

  ghost predicate Reached(s: Net, origin: Addr, id: string, n: Addr) {
    n == origin || (n, id) in s.searched
  }

  ghost predicate Awaited(rs: seq<Request>, n: Addr) {
    exists r :: r in rs && r.to == n
  }

  /** The step is the first delivery of the request at its node. */
  ghost predicate FirstDelivery(s: Net, a: Action) {
    a.Handle? && a.k < |s.inFlight| && s.inFlight[a.k].id !in s.known(s.inFlight[a.k].to)
  }

  /** The nodes that sent the request on during the first `i` steps: the originator, and those it reached
      with a TTL above 1. */
  ghost function Spreaders(origin: Addr, states: seq<Net>, acts: seq<Action>, i: nat): set<Addr>
    requires i <= |acts| && |states| == |acts| + 1
  {
    if i == 0 then {origin}
    else Spreaders(origin, states, acts, i - 1) + SpreadBy(states[i - 1], acts[i - 1])
  }

  ghost function SpreadBy(s: Net, a: Action): set<Addr> {
    if FirstDelivery(s, a) && s.inFlight[a.k].ttl > 1 then {s.inFlight[a.k].to} else {}
  }

  /** What is on its way was sent by a node the search reached, over as many connections as its TTL has
      lost; whoever sent the request on has all its peers reached or about to be. */
  ghost predicate Flooding(peers: Addr -> seq<Addr>, origin: Addr, id: string, s: Net, spreaders: set<Addr>) {
    && (forall r :: r in s.inFlight ==> InOrder(peers, origin, id, s, r))
    && (forall n :: id in s.known(n) <==> Reached(s, origin, id, n))
    && (forall n :: Reached(s, origin, id, n) ==> Within(peers, origin, n, SEARCH_TTL))
    && (forall n, p :: n in spreaders && p in peers(n) ==> Reached(s, origin, id, p) || Awaited(s.inFlight, p))
  }

  ghost predicate InOrder(peers: Addr -> seq<Addr>, origin: Addr, id: string, s: Net, r: Request) {
    r.id == id && 1 <= r.ttl <= SEARCH_TTL && Within(peers, origin, r.to, SEARCH_TTL + 1 - r.ttl) && Reached(s, origin, id, r.sender)
  }

  lemma WithoutMembers<T>(s: seq<T>, k: nat)
    requires k < |s|
    ensures forall x :: x in Without(s, k) ==> x in s
    ensures forall x :: x in s && x != s[k] ==> x in Without(s, k)
  {
    forall x | x in s && x != s[k] ensures x in Without(s, k) {
      var i :| 0 <= i < |s| && s[i] == x;
      assert x in if i < k then s[..k] else s[k + 1..];
    }
  }

  lemma DuplicateFlooding(peers: Addr -> seq<Addr>, origin: Addr, id: string, s: Net, k: nat, s': Net, spreaders: set<Addr>)
    requires Flooding(peers, origin, id, s, spreaders) && Step(peers, s, Handle(k), s') && !FirstDelivery(s, Handle(k))
    ensures Flooding(peers, origin, id, s', spreaders)
  {
    WithoutMembers(s.inFlight, k);
    assert InOrder(peers, origin, id, s, s.inFlight[k]);
    forall n, p | n in spreaders && p in peers(n) && !Reached(s, origin, id, p) ensures Awaited(s'.inFlight, p) {
      var r :| r in s.inFlight && r.to == p;
      assert r in s'.inFlight;
    }
    forall r | r in s'.inFlight ensures InOrder(peers, origin, id, s', r) {
      assert InOrder(peers, origin, id, s, r);
    }
  }

  lemma FirstInOrder(peers: Addr -> seq<Addr>, origin: Addr, id: string, s: Net, k: nat, s': Net, spreaders: set<Addr>)
    requires Flooding(peers, origin, id, s, spreaders) && Step(peers, s, Handle(k), s') && FirstDelivery(s, Handle(k))
    ensures forall r :: r in s'.inFlight ==> InOrder(peers, origin, id, s', r)
    ensures Within(peers, origin, s.inFlight[k].to, SEARCH_TTL)
  {
    var r := s.inFlight[k];
    assert InOrder(peers, origin, id, s, r);
    WithoutMembers(s.inFlight, k);
    ForwardsExactly(peers(r.to), r);
    WithinMore(peers, origin, r.to, SEARCH_TTL + 1 - r.ttl, SEARCH_TTL);
    forall f | f in s'.inFlight ensures InOrder(peers, origin, id, s', f) {
      if f in s.inFlight {
        assert InOrder(peers, origin, id, s, f);
      } else {
        assert f in Forwards(peers(r.to), r);
      }
    }
  }

  lemma FirstAwaited(peers: Addr -> seq<Addr>, origin: Addr, id: string, s: Net, k: nat, s': Net, spreaders: set<Addr>, n: Addr, p: Addr)
    requires Flooding(peers, origin, id, s, spreaders) && Step(peers, s, Handle(k), s') && FirstDelivery(s, Handle(k))
    requires n in spreaders + SpreadBy(s, Handle(k)) && p in peers(n)
    ensures Reached(s', origin, id, p) || Awaited(s'.inFlight, p)
  {
    var r := s.inFlight[k];
    assert InOrder(peers, origin, id, s, r);
    WithoutMembers(s.inFlight, k);
    if n in spreaders {
      if !Reached(s, origin, id, p) {
        var q :| q in s.inFlight && q.to == p;
        assert q == r || q in s'.inFlight;
      }
    } else if p != r.sender {
      ForwardsExactly(peers(n), r);
      assert Request(p, r.to, r.id, r.origin, r.ttl - 1) in s'.inFlight;
    }
  }

  lemma FirstFlooding(peers: Addr -> seq<Addr>, origin: Addr, id: string, s: Net, k: nat, s': Net, spreaders: set<Addr>)
    requires Flooding(peers, origin, id, s, spreaders) && Step(peers, s, Handle(k), s') && FirstDelivery(s, Handle(k))
    requires s.known(s.inFlight[k].to) <= s'.known(s.inFlight[k].to)
    ensures Flooding(peers, origin, id, s', spreaders + SpreadBy(s, Handle(k)))
  {
    var r := s.inFlight[k];
    assert InOrder(peers, origin, id, s, r);
    FirstInOrder(peers, origin, id, s, k, s', spreaders);
    forall n, p | n in spreaders + SpreadBy(s, Handle(k)) && p in peers(n)
      ensures Reached(s', origin, id, p) || Awaited(s'.inFlight, p)
    {
      FirstAwaited(peers, origin, id, s, k, s', spreaders, n, p);
    }
    forall n ensures Reached(s', origin, id, n) <==> Reached(s, origin, id, n) || n == r.to {}
  }

  lemma HandleFlooding(peers: Addr -> seq<Addr>, origin: Addr, id: string, s: Net, k: nat, s': Net, spreaders: set<Addr>)
    requires Flooding(peers, origin, id, s, spreaders) && Step(peers, s, Handle(k), s')
    requires s.known(s.inFlight[k].to) <= s'.known(s.inFlight[k].to)
    ensures Flooding(peers, origin, id, s', spreaders + SpreadBy(s, Handle(k)))
  {
    if FirstDelivery(s, Handle(k)) {
      FirstFlooding(peers, origin, id, s, k, s', spreaders);
    } else {
      assert spreaders + SpreadBy(s, Handle(k)) == spreaders;
      DuplicateFlooding(peers, origin, id, s, k, s', spreaders);
    }
  }

  /** A search starts: one request with the full TTL to each peer, and only the originator knows the id. */
  ghost predicate Starts(peers: Addr -> seq<Addr>, origin: Addr, id: string, s: Net) {
    && s.inFlight == Flood(peers(origin), origin, id) && s.searched == []
    && forall n :: id in s.known(n) <==> n == origin
  }

  lemma StartsFlooding(peers: Addr -> seq<Addr>, origin: Addr, id: string, s: Net)
    requires Starts(peers, origin, id, s)
    ensures Flooding(peers, origin, id, s, {origin})
  {
    FloodExactly(peers(origin), origin, id);
    forall r | r in s.inFlight ensures InOrder(peers, origin, id, s, r) {
      assert Within(peers, origin, origin, 0) && r.to in peers(origin);
    }
    forall p | p in peers(origin) ensures Awaited(s.inFlight, p) {
      assert Request(p, origin, id, origin, SEARCH_TTL) in s.inFlight;
    }
  }

  ghost predicate NoLoss(acts: seq<Action>) {
    forall i :: 0 <= i < |acts| ==> acts[i].Handle?
  }

  lemma StepFlooding(peers: Addr -> seq<Addr>, origin: Addr, id: string, states: seq<Net>, acts: seq<Action>, i: nat)
    requires IsRun(peers, states, acts) && NoLoss(acts) && NoEviction(states, acts) && 0 < i <= |acts|
    requires Flooding(peers, origin, id, states[i - 1], Spreaders(origin, states, acts, i - 1))
    ensures Flooding(peers, origin, id, states[i], Spreaders(origin, states, acts, i))
  {
    var s, k := states[i - 1], acts[i - 1].k;
    assert Step(peers, s, acts[i - 1], states[i]) && acts[i - 1] == Handle(k);
    assert Remembers(s, acts[i - 1], states[i]);
    HandleFlooding(peers, origin, id, s, k, states[i], Spreaders(origin, states, acts, i - 1));
  }

  lemma StartFlooding(peers: Addr -> seq<Addr>, origin: Addr, id: string, states: seq<Net>, acts: seq<Action>)
    requires |states| == |acts| + 1 && Starts(peers, origin, id, states[0])
    ensures Flooding(peers, origin, id, states[0], Spreaders(origin, states, acts, 0))
  {
    StartsFlooding(peers, origin, id, states[0]);
  }

  lemma {:induction false} RunFlooding(peers: Addr -> seq<Addr>, origin: Addr, id: string, states: seq<Net>, acts: seq<Action>, i: nat)
    requires IsRun(peers, states, acts) && NoLoss(acts) && NoEviction(states, acts) && i <= |acts|
    requires Starts(peers, origin, id, states[0])
    ensures Flooding(peers, origin, id, states[i], Spreaders(origin, states, acts, i))
  {
    if i == 0 {
      StartFlooding(peers, origin, id, states, acts);
    } else {
      RunFlooding(peers, origin, id, states, acts, i - 1);
      StepFlooding(peers, origin, id, states, acts, i);
    }
  }

  /** No node first hears of the search from a request that may not be sent on. */
  ghost predicate NeverExpires(states: seq<Net>, acts: seq<Action>)
    requires |states| == |acts| + 1
  {
    forall i :: 0 <= i < |acts| && FirstDelivery(states[i], acts[i]) ==> states[i].inFlight[acts[i].k].ttl > 1
  }

  lemma {:induction false} AllSpread(peers: Addr -> seq<Addr>, origin: Addr, id: string, states: seq<Net>, acts: seq<Action>,
                                     i: nat, n: Addr)
    requires IsRun(peers, states, acts) && NoLoss(acts) && NeverExpires(states, acts) && i <= |acts|
    requires Starts(peers, origin, id, states[0]) && Reached(states[i], origin, id, n)
    ensures n in Spreaders(origin, states, acts, i)
  {
    if i > 0 {
      assert Step(peers, states[i - 1], acts[i - 1], states[i]);
      if Reached(states[i - 1], origin, id, n) {
        AllSpread(peers, origin, id, states, acts, i - 1, n);
      } else {
        assert FirstDelivery(states[i - 1], acts[i - 1]);
      }
    }
  }

  /** When a search without losses and evictions has died out, every peer of a node that sent it on, so
      every peer of the originator, has been reached, and nobody farther away than the TTL. */
  lemma FloodReachesPeers(peers: Addr -> seq<Addr>, origin: Addr, id: string, states: seq<Net>, acts: seq<Action>)
    requires IsRun(peers, states, acts) && NoLoss(acts) && NoEviction(states, acts)
    requires Starts(peers, origin, id, states[0]) && states[|acts|].inFlight == []
    ensures forall n, p :: n in Spreaders(origin, states, acts, |acts|) && p in peers(n) ==> Reached(states[|acts|], origin, id, p)
    ensures forall p :: p in peers(origin) ==> Reached(states[|acts|], origin, id, p)
    ensures forall n :: Reached(states[|acts|], origin, id, n) ==> Within(peers, origin, n, SEARCH_TTL)
  {
    var last, spreaders := states[|acts|], Spreaders(origin, states, acts, |acts|);
    RunFlooding(peers, origin, id, states, acts, |acts|);
    OriginSpreads(origin, states, acts, |acts|);
    forall n, p | n in spreaders && p in peers(n) ensures Reached(last, origin, id, p) {
      assert !Awaited(last.inFlight, p);
    }
  }

  lemma {:induction false} OriginSpreads(origin: Addr, states: seq<Net>, acts: seq<Action>, i: nat)
    requires i <= |acts| && |states| == |acts| + 1
    ensures origin in Spreaders(origin, states, acts, i)
  {
    if i > 0 {
      OriginSpreads(origin, states, acts, i - 1);
    }
  }

  lemma {:induction false} ReachedWithin(peers: Addr -> seq<Addr>, origin: Addr, id: string, s: Net, n: Addr, k: nat)
    requires forall m, p :: Reached(s, origin, id, m) && p in peers(m) ==> Reached(s, origin, id, p)
    requires Within(peers, origin, n, k)
    ensures Reached(s, origin, id, n)
    decreases k
  {
    if n != origin {
      var m :| Within(peers, origin, m, k - 1) && n in peers(m);
      ReachedWithin(peers, origin, id, s, m, k - 1);
    }
  }

  /** If besides the TTL never ran out, the nodes the search reached are exactly those connected to the
      originator at any distance. */
  lemma FloodReachesAll(peers: Addr -> seq<Addr>, origin: Addr, id: string, states: seq<Net>, acts: seq<Action>, n: Addr)
    requires IsRun(peers, states, acts) && NoLoss(acts) && NoEviction(states, acts) && NeverExpires(states, acts)
    requires Starts(peers, origin, id, states[0]) && states[|acts|].inFlight == []
    ensures Reached(states[|acts|], origin, id, n) <==> exists k: nat :: Within(peers, origin, n, k)
  {
    var last := states[|acts|];
    FloodReachesPeers(peers, origin, id, states, acts);
    forall m, p | Reached(last, origin, id, m) && p in peers(m) ensures Reached(last, origin, id, p) {
      AllSpread(peers, origin, id, states, acts, |acts|, m);
    }
    forall k: nat | Within(peers, origin, n, k) ensures Reached(last, origin, id, n) {
      ReachedWithin(peers, origin, id, last, n, k);
    }
    var ttl: nat := SEARCH_TTL;
    assert Reached(last, origin, id, n) ==> Within(peers, origin, n, ttl);
  }

  // ---------------------------------------------------------------- a near node that is not reached

  /** "o" is connected to "m" directly and over "a", "b", "c" and "d"; "z" only to "m". */
  function Detour(n: Addr): seq<Addr> {
    match n
    case "o" => ["m", "a"]
    case "a" => ["o", "b"]
    case "b" => ["a", "c"]
    case "c" => ["b", "d"]
    case "d" => ["c", "m"]
    case "m" => ["d", "o", "z"]
    case "z" => ["m"]
    case _ => []
  }

  const DETOUR: seq<Addr> := ["a", "b", "c", "d", "m"]

  /** What the node before `i` on the detour sends to node `i`. */
  function Hop(i: nat): Request
    requires i < 5
  {
    Request(DETOUR[i], if i == 0 then "o" else DETOUR[i - 1], "q", "o", 5 - i)
  }

  /** The search after its first deliveries to `i` nodes of the detour, the direct request to "m" being slow. */
  function Along(i: nat): Net
    requires i <= 5
  {
    Net([Request("m", "o", "q", "o", 5)] + if i < 5 then [Hop(i)] else [],
        n => if n == "o" || n in DETOUR[..i] then {"q"} else {},
        seq(i, k requires 0 <= k < i => (DETOUR[k], "q")))
  }

  lemma HopForwards(i: nat)
    requires i < 5
    ensures Forwards(Detour(DETOUR[i]), Hop(i)) == if i < 4 then [Hop(i + 1)] else []
  {
    var peers := Detour(DETOUR[i]);
    if i < 4 {
      assert peers == [Hop(i).sender, DETOUR[i + 1]];
      assert peers[1..] == [DETOUR[i + 1]] && peers[1..][1..] == [];
      assert Forwards(peers[1..], Hop(i)) == [Hop(i + 1)];
    }
  }

  lemma AlongKnown(i: nat, n: Addr)
    requires i < 5
    ensures Along(i + 1).known(n) == if n == DETOUR[i] then {"q"} else Along(i).known(n)
    ensures Along(i).known(DETOUR[i]) == {}
  {
    assert DETOUR[..i + 1] == DETOUR[..i] + [DETOUR[i]];
    assert DETOUR[i] !in DETOUR[..i];
  }

  lemma AlongStep(i: nat)
    requires i < 5
    ensures Step(Detour, Along(i), Handle(1), Along(i + 1))
  {
    var s := Along(i);
    assert s.inFlight[1] == Hop(i) && Without(s.inFlight, 1) == [s.inFlight[0]];
    HopForwards(i);
    forall n ensures Along(i + 1).known(n) == if n == DETOUR[i] then {"q"} else s.known(n) {
      AlongKnown(i, n);
    }
    AlongKnown(i, DETOUR[i]);
    assert Along(i + 1).searched == s.searched + [(DETOUR[i], "q")];
  }

  lemma LateDuplicate()
    ensures Step(Detour, Along(5), Handle(0), Along(5).(inFlight := []))
  {
    assert "m" == DETOUR[..5][4];
    assert Without(Along(5).inFlight, 0) == [];
  }

  lemma DetourStarts()
    ensures Starts(Detour, "o", "q", Along(0))
  {
    assert Detour("o")[1..] == ["a"] && Detour("o")[1..][1..] == [];
    assert Flood(Detour("o")[1..], "o", "q") == [Hop(0)];
  }

  lemma DetourDistance()
    ensures Within(Detour, "o", "z", 2)
  {
    assert Within(Detour, "o", "o", 0) && "m" in Detour("o");
    assert Within(Detour, "o", "m", 1) && "z" in Detour("m");
  }

  /** Without the premise on the TTL a node need not be reached however near it is: a request that comes
      the long way round with its last life marks the id, and the direct one is dropped as a duplicate. */
  lemma NearNodeNotReached() returns (states: seq<Net>, acts: seq<Action>)
    ensures IsRun(Detour, states, acts) && NoLoss(acts) && NoEviction(states, acts)
    ensures Starts(Detour, "o", "q", states[0]) && states[|acts|].inFlight == []
    ensures Within(Detour, "o", "z", 2) && !Reached(states[|acts|], "o", "q", "z")
  {
    states := seq(6, i requires 0 <= i < 6 => Along(i)) + [Along(5).(inFlight := [])];
    acts := [Handle(1), Handle(1), Handle(1), Handle(1), Handle(1), Handle(0)];
    forall i | 0 <= i < 6 ensures Step(Detour, states[i], acts[i], states[i + 1]) {
      if i < 5 {
        AlongStep(i);
      } else {
        LateDuplicate();
      }
    }
    forall i | 0 <= i < 6 ensures Remembers(states[i], acts[i], states[i + 1]) {
      if i < 5 {
        AlongKnown(i, DETOUR[i]);
      }
    }
    DetourStarts();
    DetourDistance();
  }
}
