/** Exactly which quorum configurations read their writes when some targets may acknowledge a write and
    lose its metadata (Cluster/quorum/quorum.go, handleQuorumWrite in Server/server.go). */
module QuorumLimits {
  import opened Indices
  import opened Sequences
  import opened VectorClock
  import opened Conflict
  import opened Quorum

  ghost predicate AllKept(u: set<Addr>, acts: seq<Action>) {
    forall k :: 0 <= k < |acts| ==> Kept(u, acts[k])
  }

  /** No run over any earlier metadata ends in a stale read. */
  ghost predicate AlwaysReadsWrite(op: Op, u: set<Addr>) {
    forall replicas: map<Addr, Stored>, states: seq<State>, acts: seq<Action> ::
      IsRun(op, replicas, states, acts) && AllKept(u, acts) ==> !Stale(op, states[|acts|])
  }

  // ---------------------------------------------------------------- building runs

  ghost predicate Trace(op: Op, u: set<Addr>, s: State, s': State, states: seq<State>, acts: seq<Action>) {
    && |states| == |acts| + 1 && states[0] == s && states[|acts|] == s' && AllKept(u, acts)
    && forall i :: 0 <= i < |acts| ==> Enabled(op, states[i], acts[i]) && states[i + 1] == Apply(op, states[i], acts[i])
  }

  ghost predicate Reaches(op: Op, u: set<Addr>, s: State, s': State) {
    exists states, acts :: Trace(op, u, s, s', states, acts)
  }

  lemma Stay(op: Op, u: set<Addr>, s: State)
    ensures Reaches(op, u, s, s)
  {
    assert Trace(op, u, s, s, [s], []);
  }

  lemma OneAction(op: Op, u: set<Addr>, s: State, a: Action)
    requires Enabled(op, s, a) && Kept(u, a)
    ensures Reaches(op, u, s, Apply(op, s, a))
  {
    assert Trace(op, u, s, Apply(op, s, a), [s, Apply(op, s, a)], [a]);
  }

  lemma Onward(op: Op, u: set<Addr>, s: State, t: State, v: State)
    requires Reaches(op, u, s, t) && Reaches(op, u, t, v)
    ensures Reaches(op, u, s, v)
  {
    var xs, before :| Trace(op, u, s, t, xs, before);
    var ys, after :| Trace(op, u, t, v, ys, after);
    assert Trace(op, u, s, v, xs + ys[1..], before + after) by {
      Joined(op, u, s, t, v, xs, before, ys, after);
    }
  }

  lemma Joined(op: Op, u: set<Addr>, s: State, t: State, v: State, xs: seq<State>, before: seq<Action>, ys: seq<State>, after: seq<Action>)
    requires Trace(op, u, s, t, xs, before) && Trace(op, u, t, v, ys, after)
    ensures Trace(op, u, s, v, xs + ys[1..], before + after)
  {
    var zs, acts := xs + ys[1..], before + after;
    forall i | |before| <= i <= |acts| ensures zs[i] == ys[i - |before|] {}
    forall i | 0 <= i < |acts| ensures Enabled(op, zs[i], acts[i]) && zs[i + 1] == Apply(op, zs[i], acts[i]) && Kept(u, acts[i]) {
      if i >= |before| {
        assert acts[i] == after[i - |before|];
      } else {
        assert acts[i] == before[i] && zs[i] == xs[i] && zs[i + 1] == xs[i + 1];
      }
    }
  }

  // ---------------------------------------------------------------- a write with faults

  /** Earlier metadata of all targets, the targets that acknowledge, and those of them that lose theirs. */
  datatype Plan = Plan(earlier: map<Addr, Stored>, ackers: set<Addr>, lost: set<Addr>)

  ghost predicate Feasible(op: Op, u: set<Addr>, p: Plan) {
    && p.earlier.Keys == op.targets && p.ackers <= op.targets && p.lost <= u
    && |p.ackers| == op.w > 0
  }

  function After(op: Op, p: Plan, done: set<Addr>): map<Addr, Stored> {
    map t | t in p.earlier :: if t in done && t !in p.lost then Stored(op.clock, 0) else p.earlier[t]
  }

  /** The state once the targets of `done` have acknowledged. */
  function WrittenTo(op: Op, p: Plan, done: set<Addr>): State {
    State(if |done| >= op.w then WriteOk else Writing, After(op, p, done), op.targets - done, map[], [], done, {}, map[], [], [], false)
  }

  lemma AfterOne(op: Op, p: Plan, done: set<Addr>, t: Addr)
    requires t in p.earlier && t !in done
    ensures After(op, p, done + {t})
      == if t in p.lost then After(op, p, done) else After(op, p, done)[t := Stored(op.clock, 0)]
  {
  }

  /** One target receives the write, acknowledges it and is counted. */
  lemma WriteOne(op: Op, u: set<Addr>, p: Plan, done: set<Addr>, t: Addr)
    requires Feasible(op, u, p) && |done| < op.w && t in op.targets - done
    ensures Reaches(op, u, WrittenTo(op, p, done), WrittenTo(op, p, done + {t}))
  {
    var s0 := WrittenTo(op, p, done);
    var a0 := DeliverWrite(t, true, t !in p.lost, 0);
    var s1 := Apply(op, s0, a0);
    AfterOne(op, p, done, t);
    assert s1 == s0.(writes := s0.writes - {t}, acks := map[t := true], replicas := After(op, p, done + {t}));
    var s2 := Apply(op, s1, DeliverAck(t));
    assert s2 == s1.(acks := map[], ackCh := [Ack(t, true)]);
    var s3 := Apply(op, s2, TakeAck);
    assert op.targets - done - {t} == op.targets - (done + {t});
    assert s3 == WrittenTo(op, p, done + {t});
    OneAction(op, u, s0, a0);
    OneAction(op, u, s1, DeliverAck(t));
    OneAction(op, u, s2, TakeAck);
    Onward(op, u, s0, s1, s2);
    Onward(op, u, s0, s2, s3);
  }

  lemma {:induction false} WriteAll(op: Op, u: set<Addr>, p: Plan, done: set<Addr>)
    requires Feasible(op, u, p) && done <= p.ackers
    ensures Reaches(op, u, WrittenTo(op, p, done), WrittenTo(op, p, p.ackers))
    decreases |p.ackers - done|
  {
    if done == p.ackers {
      Stay(op, u, WrittenTo(op, p, done));
    } else {
      assert p.ackers == done + (p.ackers - done);
      assert p.ackers - done != {};
      var t :| t in p.ackers - done;
      StrictSubsetSize(done, p.ackers, t);
      assert p.ackers - done == (p.ackers - (done + {t})) + {t};
      WriteOne(op, u, p, done, t);
      WriteAll(op, u, p, done + {t});
      Onward(op, u, WrittenTo(op, p, done), WrittenTo(op, p, done + {t}), WrittenTo(op, p, p.ackers));
    }
  }

  lemma StrictSubsetSize<T>(a: set<T>, b: set<T>, x: T)
    requires a <= b && x in b - a
    ensures |a| < |b|
  {
    SubsetSize(a + {x}, b);
  }

  // ---------------------------------------------------------------- a read in a chosen order

  function Answers(replicas: map<Addr, Stored>, order: seq<Addr>): (rs: seq<Response>)
    ensures |rs| == |order| && forall i :: 0 <= i < |rs| ==> rs[i] == Lookup(replicas, order[i])
  {
    seq(|order|, i requires 0 <= i < |order| => Lookup(replicas, order[i]))
  }

  /** The state once the first `i` targets of the order have answered and their answers are taken. */
  function ReadFrom(op: Op, p: Plan, order: seq<Addr>, i: nat): State
    requires i <= |order|
  {
    WrittenTo(op, p, p.ackers).(
      phase := if i >= op.r then ReadDone(true) else Reading,
      probes := op.targets - Elements(order[..i]),
      responses := Answers(After(op, p, p.ackers), order[..i]))
  }

  ghost predicate Readable(op: Op, order: seq<Addr>) {
    Distinct(order) && Elements(order) <= op.targets && |order| == op.r > 0
  }

  /** One target is asked, answers, and its answer is taken. */
  lemma ReadOne(op: Op, u: set<Addr>, p: Plan, order: seq<Addr>, i: nat)
    requires Feasible(op, u, p) && Readable(op, order) && i < |order|
    ensures Reaches(op, u, ReadFrom(op, p, order, i), ReadFrom(op, p, order, i + 1))
  {
    var t := order[i];
    var s0 := ReadFrom(op, p, order, i);
    NextInOrder(op, p, order, i);
    var answer := Lookup(s0.replicas, t);
    var s1 := Apply(op, s0, DeliverRead(t));
    assert s1 == s0.(probes := s0.probes - {t}, replies := map[t := answer]);
    var s2 := Apply(op, s1, DeliverReply(t));
    assert s2 == s1.(replies := map[], respCh := [answer]);
    var s3 := Apply(op, s2, TakeReply);
    assert s3 == ReadFrom(op, p, order, i + 1);
    OneAction(op, u, s0, DeliverRead(t));
    OneAction(op, u, s1, DeliverReply(t));
    OneAction(op, u, s2, TakeReply);
    Onward(op, u, s0, s1, s2);
    Onward(op, u, s0, s2, s3);
  }

  lemma NextInOrder(op: Op, p: Plan, order: seq<Addr>, i: nat)
    requires p.earlier.Keys == op.targets && Readable(op, order) && i < |order|
    ensures order[i] in op.targets && order[i] !in Elements(order[..i])
    ensures op.targets - Elements(order[..i]) - {order[i]} == op.targets - Elements(order[..i + 1])
    ensures var m := After(op, p, p.ackers);
      && Answers(m, order[..i + 1]) == Answers(m, order[..i]) + [Lookup(m, order[i])]
      && Lookup(m, order[i]).found
  {
    assert order[i] in Elements(order);
    assert order[..i + 1] == order[..i] + [order[i]];
  }

  lemma {:induction false} ReadAll(op: Op, u: set<Addr>, p: Plan, order: seq<Addr>, i: nat)
    requires Feasible(op, u, p) && Readable(op, order) && i <= |order|
    ensures Reaches(op, u, ReadFrom(op, p, order, 0), ReadFrom(op, p, order, i))
  {
    if i == 0 {
      Stay(op, u, ReadFrom(op, p, order, 0));
    } else {
      ReadAll(op, u, p, order, i - 1);
      ReadOne(op, u, p, order, i - 1);
      Onward(op, u, ReadFrom(op, p, order, 0), ReadFrom(op, p, order, i - 1), ReadFrom(op, p, order, i));
    }
  }

  /** Every feasible plan and order of answers is a run. */
  lemma PlanRuns(op: Op, u: set<Addr>, p: Plan, order: seq<Addr>) returns (states: seq<State>, acts: seq<Action>)
    requires Feasible(op, u, p) && Readable(op, order)
    ensures IsRun(op, p.earlier, states, acts) && AllKept(u, acts) && states[|acts|] == ReadFrom(op, p, order, |order|)
  {
    var start, written := Init(op, p.earlier), WrittenTo(op, p, p.ackers);
    var asked, end := ReadFrom(op, p, order, 0), ReadFrom(op, p, order, |order|);
    assert After(op, p, {}) == p.earlier;
    assert start == WrittenTo(op, p, {});
    WriteAll(op, u, p, {});
    assert order[..0] == [];
    assert Apply(op, written, StartRead) == asked;
    OneAction(op, u, written, StartRead);
    ReadAll(op, u, p, order, |order|);
    Onward(op, u, start, written, asked);
    Onward(op, u, start, asked, end);
    states, acts :| Trace(op, u, start, end, states, acts);
  }

  // ---------------------------------------------------------------- choosing targets

  lemma {:induction false} SubsetOfSize<T>(s: set<T>, k: nat) returns (t: set<T>)
    requires k <= |s|
    ensures t <= s && |t| == k
  {
    if k == |s| {
      t := s;
    } else {
      var x :| x in s;
      t := SubsetOfSize(s - {x}, k);
    }
  }

  lemma {:induction false} InSomeOrder<T>(s: set<T>) returns (order: seq<T>)
    ensures Distinct(order) && Elements(order) == s && |order| == |s|
  {
    if s == {} {
      order := [];
    } else {
      var x :| x in s;
      var rest := InSomeOrder(s - {x});
      order := [x] + rest;
      assert Elements(order) == {x} + Elements(rest);
      assert forall i :: 0 <= i < |rest| ==> rest[i] in Elements(rest);
    }
  }

  /** Acknowledging targets that include as many of `u` as possible. */
  lemma MostUnreliable(op: Op, u: set<Addr>) returns (ackers: set<Addr>)
    requires u <= op.targets && op.w <= |op.targets|
    ensures ackers <= op.targets && |ackers| == op.w
    ensures |ackers - u| == if |u| <= op.w then op.w - |u| else 0
    ensures |u| <= op.w ==> u <= ackers
  {
    if |u| <= op.w {
      assert |op.targets - u| == |op.targets| - |u|;
      var more := SubsetOfSize(op.targets - u, op.w - |u|);
      ackers := u + more;
      assert ackers - u == more;
    } else {
      ackers := SubsetOfSize(u, op.w);
      SubsetSize(ackers, op.targets);
      assert ackers - u == {};
    }
  }

  // ---------------------------------------------------------------- too few: everyone answers with old metadata

  lemma {:induction false} OneClockWins(vs: seq<Version>, c: Clock)
    requires vs != [] && forall i :: 0 <= i < |vs| ==> vs[i].clock == c
    ensures Winner(vs).clock == c
  {
    if |vs| > 1 {
      OneClockWins(vs[..|vs| - 1], c);
      CausalIsOrder(c, c, c);
    }
  }

  lemma TooFew(op: Op, u: set<Addr>) returns (replicas: map<Addr, Stored>, states: seq<State>, acts: seq<Action>)
    requires u <= op.targets && 0 < op.w <= |op.targets| && 0 < op.r <= |op.targets| && Causal(map[], op.clock) == Before
    requires op.w + op.r <= |op.targets| + |u|
    ensures IsRun(op, replicas, states, acts) && AllKept(u, acts) && Stale(op, states[|acts|])
  {
    var ackers := MostUnreliable(op, u);
    var older := op.targets - (ackers - u);
    assert |older| == |op.targets| - |ackers - u|;
    var readers := SubsetOfSize(older, op.r);
    var order := InSomeOrder(readers);
    replicas := map t | t in op.targets :: Stored(map[], 0);
    var p := Plan(replicas, ackers, ackers * u);
    states, acts := PlanRuns(op, u, p, order);
    var s := states[|acts|];
    assert order[..|order|] == order;
    var vs := Versions(s.responses);
    forall i | 0 <= i < |vs| ensures vs[i].clock == map[] {
      assert order[i] in Elements(order);
    }
    OneClockWins(vs, map[]);
  }

  /** The smallest case, with any earlier version: a lone target that acknowledges and loses its
      metadata answers with what it had. */
  lemma LostMetadataIsStale(op: Op, a: Addr, before: Stored) returns (states: seq<State>, acts: seq<Action>)
    requires op.targets == {a} && op.w == 1 && op.r == 1 && Causal(before.clock, op.clock) == Before
    ensures IsRun(op, map[a := before], states, acts) && Stale(op, states[|acts|])
  {
    var p := Plan(map[a := before], {a}, {a});
    assert Elements([a]) == {a};
    states, acts := PlanRuns(op, {a}, p, [a]);
    assert [a][..1] == [a];
    OneClockWins(Versions(states[|acts|].responses), before.clock);
  }

  // ---------------------------------------------------------------- enough for two answers, not for three

  /** Something other than nothing precedes the clock. */
  ghost predicate Layered(c: Clock) {
    exists low: Clock :: Precedes(low, c)
  }

  ghost predicate Precedes(low: Clock, c: Clock) {
    !Leq(low, map[]) && Causal(low, c) == Before
  }

  lemma {:induction false} LongerThanAll(addrs: set<Addr>) returns (n: nat)
    ensures forall a :: a in addrs ==> |a| < n
  {
    if addrs == {} {
      n := 0;
    } else {
      var a :| a in addrs;
      var m := LongerThanAll(addrs - {a});
      n := if m > |a| then m else |a| + 1;
      forall b | b in addrs ensures |b| < n {
        assert b == a || b in addrs - {a};
      }
    }
  }

  lemma NewAddress(addrs: set<Addr>) returns (a: Addr)
    ensures a !in addrs
  {
    var n := LongerThanAll(addrs);
    a := seq(n, _ => 'x');
  }

  /** A clock concurrent with a preceding one and with the clock itself. */
  lemma Aside(low: Clock, c: Clock) returns (mid: Clock)
    requires Precedes(low, c)
    ensures Causal(mid, low) == Concurrent && Causal(mid, c) == Concurrent
    ensures Causal(low, mid) == Concurrent && Causal(c, mid) == Concurrent
  {
    var a := NewAddress(low.Keys + c.Keys);
    mid := map[a := 1];
    var k :| Get(low, k) > 0;
    assert Get(mid, k) == 0 && Get(c, k) >= Get(low, k);
    assert Get(mid, a) == 1 && Get(low, a) == 0 && Get(c, a) == 0;
  }

  /** A concurrent version first, then `n` copies of the write, then older versions stamped later. */
  ghost predicate Misleading(vs: seq<Version>, n: nat, low: Clock, mid: Clock, c: Clock) {
    && n + 1 < |vs| && vs[0].clock == mid && vs[0].timestamp == 1
    && (forall i :: 1 <= i <= n ==> vs[i].clock == c && vs[i].timestamp == 0)
    && (forall i :: n < i < |vs| ==> vs[i].clock == low && vs[i].timestamp == 2)
  }

  lemma {:induction false} OlderVersionWins(vs: seq<Version>, n: nat, low: Clock, mid: Clock, c: Clock, k: nat)
    requires Misleading(vs, n, low, mid, c) && 0 < k <= |vs|
    requires Causal(mid, low) == Concurrent && Causal(mid, c) == Concurrent
    ensures k <= n + 1 ==> Winner(vs[..k]) == vs[0]
    ensures k > n + 1 ==> Winner(vs[..k]).clock == low
  {
    if k > 1 {
      OlderVersionWins(vs, n, low, mid, c, k - 1);
      assert vs[..k][..k - 1] == vs[..k - 1] && vs[..k][k - 1] == vs[k - 1];
      CausalIsOrder(low, low, low);
    }
  }

  /** The plan for a misleading read: `x` holds a concurrent version, every other target an older one. */
  function Deceit(op: Op, u: set<Addr>, ackers: set<Addr>, x: Addr, low: Clock, mid: Clock): Plan {
    Plan(map t | t in op.targets :: if t == x then Stored(mid, 1) else Stored(low, 2), ackers, u)
  }

  lemma DeceitMisleads(op: Op, u: set<Addr>, ackers: set<Addr>, x: Addr, fs: seq<Addr>, gs: seq<Addr>, low: Clock, mid: Clock)
    requires x in op.targets - (ackers - u) && gs != [] && fs != []
    requires forall i :: 0 <= i < |fs| ==> fs[i] in op.targets && fs[i] in ackers && fs[i] !in u
    requires forall i :: 0 <= i < |gs| ==> gs[i] in op.targets && gs[i] != x && (gs[i] !in ackers || gs[i] in u)
    ensures var m := After(op, Deceit(op, u, ackers, x, low, mid), ackers);
      Misleading(Versions(Answers(m, [x] + fs + gs)), |fs|, low, mid, op.clock)
  {
    var m := After(op, Deceit(op, u, ackers, x, low, mid), ackers);
    var order := [x] + fs + gs;
    var vs := Versions(Answers(m, order));
    forall i | 1 <= i <= |fs| ensures vs[i].clock == op.clock && vs[i].timestamp == 0 {
      assert order[i] == fs[i - 1];
    }
    forall i | |fs| < i < |vs| ensures vs[i].clock == low && vs[i].timestamp == 2 {
      assert order[i] == gs[i - 1 - |fs|];
    }
  }

  lemma ThreeParts(x: Addr, fs: seq<Addr>, gs: seq<Addr>)
    requires Distinct(fs) && Distinct(gs) && Elements(fs) !! Elements(gs) && x !in fs && x !in gs
    ensures Distinct([x] + fs + gs) && Elements([x] + fs + gs) == {x} + Elements(fs) + Elements(gs)
  {
    var s := [x] + fs + gs;
    forall i, j | 0 <= i < j < |s| ensures s[i] != s[j] {
      if 0 < i <= |fs| < j {
        assert s[i] in Elements(fs) && s[j] in Elements(gs);
      }
    }
  }

  /** Whoever can answer with older metadata, one of them first, and as many up-to-date targets as the
      quorum still needs. */
  ghost predicate Readers(op: Op, u: set<Addr>, ackers: set<Addr>, x: Addr, fs: seq<Addr>, gs: seq<Addr>) {
    && u <= ackers <= op.targets && |ackers| == op.w
    && x in op.targets - (ackers - u) && fs != [] && gs != []
    && (forall i :: 0 <= i < |fs| ==> fs[i] in op.targets && fs[i] in ackers && fs[i] !in u)
    && (forall i :: 0 <= i < |gs| ==> gs[i] in op.targets && gs[i] != x && (gs[i] !in ackers || gs[i] in u))
    && Distinct(fs) && Distinct(gs) && 1 + |fs| + |gs| == op.r
  }

  lemma ChooseReaders(op: Op, u: set<Addr>) returns (ackers: set<Addr>, x: Addr, fs: seq<Addr>, gs: seq<Addr>)
    requires u <= op.targets && 0 < op.w <= |op.targets| && op.r <= |op.targets|
    requires op.w + op.r > |op.targets| + |u| > op.w + 1
    ensures Readers(op, u, ackers, x, fs, gs)
  {
    ackers := MostUnreliable(op, u);
    var others := op.targets - (ackers - u);
    assert |others| == |op.targets| - |ackers - u|;
    x :| x in others;
    var recent := SubsetOfSize(ackers - u, op.r - |others|);
    fs := InSomeOrder(recent);
    gs := InSomeOrder(others - {x});
    forall i | 0 <= i < |fs| ensures fs[i] in recent { assert fs[i] in Elements(fs); }
    forall i | 0 <= i < |gs| ensures gs[i] in others - {x} { assert gs[i] in Elements(gs); }
  }

  lemma ReadersReadable(op: Op, u: set<Addr>, ackers: set<Addr>, x: Addr, fs: seq<Addr>, gs: seq<Addr>)
    requires Readers(op, u, ackers, x, fs, gs)
    ensures Readable(op, [x] + fs + gs)
  {
    forall a | a in Elements(fs) ensures a !in Elements(gs) {}
    ThreeParts(x, fs, gs);
  }

  lemma Misled(op: Op, u: set<Addr>) returns (replicas: map<Addr, Stored>, states: seq<State>, acts: seq<Action>)
    requires u <= op.targets && 0 < op.w <= |op.targets| && 2 < op.r <= |op.targets| && Layered(op.clock)
    requires op.w + op.r > |op.targets| + |u| > op.w + 1
    ensures IsRun(op, replicas, states, acts) && AllKept(u, acts) && Stale(op, states[|acts|])
  {
    var low: Clock :| Precedes(low, op.clock);
    var mid := Aside(low, op.clock);
    var ackers, x, fs, gs := ChooseReaders(op, u);
    replicas, states, acts := MisledBy(op, u, ackers, x, fs, gs, low, mid);
  }

  lemma MisledBy(op: Op, u: set<Addr>, ackers: set<Addr>, x: Addr, fs: seq<Addr>, gs: seq<Addr>, low: Clock, mid: Clock)
    returns (replicas: map<Addr, Stored>, states: seq<State>, acts: seq<Action>)
    requires Readers(op, u, ackers, x, fs, gs) && op.w > 0 && Causal(low, op.clock) == Before
    requires Causal(mid, low) == Concurrent && Causal(mid, op.clock) == Concurrent
    ensures IsRun(op, replicas, states, acts) && AllKept(u, acts) && Stale(op, states[|acts|])
  {
    var order := [x] + fs + gs;
    var p := Deceit(op, u, ackers, x, low, mid);
    ReadersReadable(op, u, ackers, x, fs, gs);
    states, acts := PlanRuns(op, u, p, order);
    replicas := p.earlier;
    DeceitMisleads(op, u, ackers, x, fs, gs, low, mid);
    assert order[..|order|] == order;
    var vs := Versions(states[|acts|].responses);
    OlderVersionWins(vs, |fs|, low, mid, op.clock, |vs|);
    assert vs[..|vs|] == vs;
  }

  // ---------------------------------------------------------------- enough

  lemma {:induction false} NothingNeverWins(vs: seq<Version>, i: nat)
    requires i < |vs| && !Leq(vs[i].clock, map[])
    ensures !Leq(Winner(vs).clock, map[])
  {
    var n := |vs| - 1;
    if n > 0 {
      var best := Winner(vs[..n]);
      if i < n {
        NothingNeverWins(vs[..n], i);
        NothingKeeps(best, vs[n]);
      } else {
        NothingYields(best, vs[n]);
      }
    }
  }

  lemma NothingKeeps(best: Version, next: Version)
    requires !Leq(best.clock, map[])
    ensures !Leq(Pick(best, next).clock, map[])
  {
    var k :| Get(best.clock, k) > 0;
    if Causal(best.clock, next.clock) == Before {
      assert Get(next.clock, k) > 0;
    } else if Leq(next.clock, map[]) {
      assert Leq(next.clock, best.clock);
    }
  }

  lemma NothingYields(best: Version, next: Version)
    requires !Leq(next.clock, map[])
    ensures !Leq(Pick(best, next).clock, map[])
  {
    if Leq(best.clock, map[]) {
      assert Leq(best.clock, next.clock);
    }
  }

  lemma TwoClocksNoTrap(vs: set<Version>, c: Clock, d: Clock)
    requires forall v :: v in vs ==> v.clock == c || v.clock == d
    ensures TrapFree(vs)
  {
    CausalIsOrder(c, c, c);
    CausalIsOrder(d, d, d);
  }

  /** When at most one target can answer with anything but the write, two clocks are all there are. */
  lemma OneOther(op: Op, u: set<Addr>, s: State) returns (d: Clock)
    requires Inv(op, u, s) && s.phase == ReadDone(true) && |op.targets| + |u| <= op.w + 1
    ensures forall v :: v in Candidates(s) ==> v.clock == op.clock || v.clock == d
  {
    var others := op.targets - (s.counted - u);
    FewOthers(op, u, s);
    d := op.clock;
    if i :| 0 <= i < |s.responses| && s.responses[i].from in others {
      d := s.responses[i].clock;
      forall j | 0 <= j < |s.responses| && s.responses[j].from in others ensures j == i {
        AtMostOne(others, s.responses[i].from, s.responses[j].from);
      }
    }
    forall j | 0 <= j < |s.responses| ensures s.responses[j].clock == op.clock || s.responses[j].clock == d {
      AnswerOutside(op, u, s, j);
    }
  }

  lemma FewOthers(op: Op, u: set<Addr>, s: State)
    requires s.counted <= op.targets && |s.counted| >= op.w && |op.targets| + |u| <= op.w + 1
    ensures |op.targets - (s.counted - u)| <= 1
  {
    assert s.counted == (s.counted - u) + s.counted * u;
    SubsetSize(s.counted * u, u);
    assert |op.targets - (s.counted - u)| == |op.targets| - |s.counted - u|;
  }

  lemma AnswerOutside(op: Op, u: set<Addr>, s: State, j: nat)
    requires OneReplyEach(op, s) && Told(op, u, s) && j < |s.responses|
    ensures s.responses[j].clock == op.clock || s.responses[j].from in op.targets - (s.counted - u)
  {
  }

  lemma AtMostOne<T>(s: set<T>, x: T, y: T)
    requires |s| <= 1 && x in s && y in s
    ensures x == y
  {
    SubsetSize({x, y}, s);
  }

  lemma EnoughIsSafe(op: Op, u: set<Addr>, replicas: map<Addr, Stored>, states: seq<State>, acts: seq<Action>)
    requires IsRun(op, replicas, states, acts) && AllKept(u, acts) && op.w > 0 && op.r > 0 && Causal(map[], op.clock) == Before
    requires Enough(op, u)
    ensures !Stale(op, states[|acts|])
  {
    var s := states[|acts|];
    RunInv(op, u, replicas, states, acts, |acts|);
    if op.r > 2 && s.phase == ReadDone(true) {
      if |op.targets| + |u| <= op.w + 1 {
        var d := OneOther(op, u, s);
        TwoClocksNoTrap(Candidates(s), op.clock, d);
      } else {
        var i := FullQuorumHearsWrite(op, u, s);
        NothingNeverWins(Versions(s.responses), i);
        assert !Precedes(Returned(s), op.clock);
      }
    }
    if Stale(op, s) && (op.r <= 2 || |op.targets| + |u| <= op.w + 1) {
      ReadYourWrite(op, u, replicas, states, acts);
    }
  }

  /** The condition on a configuration, known before any operation: W + R exceeds N by more than the
      number of targets that may lose metadata, and the resolver cannot be misled, because two answers
      suffice, or at most one target can answer with anything older, or nothing but the empty clock
      precedes the one written. */
  ghost predicate Enough(op: Op, u: set<Addr>) {
    && op.w + op.r > |op.targets| + |u|
    && (op.r <= 2 || |op.targets| + |u| <= op.w + 1 || !Layered(op.clock))
  }

  /** A configuration always reads its writes, in every run over any earlier metadata with any delays,
      losses and orders of answers, exactly when it is enough. */
  lemma AlwaysReadsWriteIff(op: Op, u: set<Addr>)
    requires u <= op.targets && 0 < op.w <= |op.targets| && 0 < op.r <= |op.targets| && Causal(map[], op.clock) == Before
    ensures AlwaysReadsWrite(op, u) <==> Enough(op, u)
  {
    if Enough(op, u) {
      forall replicas: map<Addr, Stored>, states: seq<State>, acts: seq<Action> | IsRun(op, replicas, states, acts) && AllKept(u, acts)
        ensures !Stale(op, states[|acts|])
      {
        EnoughIsSafe(op, u, replicas, states, acts);
      }
    } else if op.w + op.r <= |op.targets| + |u| {
      var replicas, states, acts := TooFew(op, u);
    } else {
      var replicas, states, acts := Misled(op, u);
    }
  }

  /** With the defaults, three replicas and quorums of two, no metadata may be lost: one replica that
      can lose its metadata already breaks the guarantee. */
  lemma DefaultsTolerateNoLoss(op: Op, u: set<Addr>)
    requires u <= op.targets && |op.targets| == 3 && op.w == 2 && op.r == 2 && Causal(map[], op.clock) == Before
    ensures AlwaysReadsWrite(op, u) <==> u == {}
  {
    AlwaysReadsWriteIff(op, u);
  }
}
