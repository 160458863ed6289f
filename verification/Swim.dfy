/** N nodes gossiping over a network that loses, duplicates and reorders messages, with one strictly
    increasing clock: generations are stamps, and a node that bumps its own refutes its death. */
module Swim {
  import opened Common
  import opened Membership
  import opened Gossip

  datatype Msg = Digest(ds: seq<GossipDigest>) | Reply(resp: Response)

  /** `sent` only grows: a message may be handled never, once or often, in any order. `hist` records
      which state each clock stamp was issued with. */
  datatype Net = Net(now: nat, tables: map<Addr, Table>, sent: set<Msg>, hist: map<(Addr, nat), NodeState>)

  datatype Action =
    | Start(n: Addr, now: nat)                                  // New, also after a restart
    | Add(n: Addr, a: Addr, meta: Metadata)                     // AddNode
    | Remove(n: Addr, a: Addr)                                  // RemoveNode
    | SetMeta(n: Addr, a: Addr, meta: Metadata)                 // SetMetadata
    | Force(n: Addr, a: Addr, state: NodeState, now: nat)       // ForceLocalState
    | Bump(n: Addr, now: nat)                                   // BumpSelfGeneration
    | Round(n: Addr, ds: seq<GossipDigest>)                     // DoGossipRound
    | OnDigest(n: Addr, ds: seq<GossipDigest>, dialling: bool, connected: set<Addr>, resp: Response)
    | OnResponse(n: Addr, msg: Response)

  const INIT := Net(1, map[], {}, map[])

  ghost predicate Changed(t: Table, t': Table, f: (Addr, Entry) -> Entry) {
    forall a :: Lookup(t', a) == f(a, Lookup(t, a))
  }

  /** Only node `n`'s table changes. */
  ghost predicate Local(s: Net, s': Net, n: Addr, f: (Addr, Entry) -> Entry) {
    && n in s.tables && s'.tables.Keys == s.tables.Keys
    && (forall m :: m in s.tables && m != n ==> s'.tables[m] == s.tables[m])
    && Changed(s.tables[n], s'.tables[n], f)
  }

  ghost predicate Step(fp: Addr -> string, s: Net, act: Action, s': Net) {
    match act
    case Start(n, now) =>
      && now > s.now
      && s' == Net(now, s.tables[n := map[n := NodeInfo(Alive, if now < 2 then 2 else now, map[])]], s.sent, s.hist[(n, now) := Alive])
    case Add(n, a, meta) =>
      && Local(s, s', n, (b, e) => if b == a then AddEntry(e, meta) else e)
      && s'.now == s.now && s'.sent == s.sent && s'.hist == s.hist
    case Remove(n, a) =>
      && a != n && Local(s, s', n, (b, e) => if b == a then None else e)
      && s'.now == s.now && s'.sent == s.sent && s'.hist == s.hist
    case SetMeta(n, a, meta) =>
      && Local(s, s', n, (b, e) => if b == a then MetaEntry(e, meta) else e)
      && s'.now == s.now && s'.sent == s.sent && s'.hist == s.hist
    case Force(n, a, state, now) =>
      && a != n && now > s.now && Local(s, s', n, (b, e) => if b == a then ForceEntry(e, state, now) else e)
      && s'.now == now && s'.sent == s.sent
      && s'.hist == (if a in s.tables[n] then s.hist[(a, NextStamp(now, s.tables[n][a].generation)) := state] else s.hist)
    case Bump(n, now) =>
      && now > s.now && Local(s, s', n, (b, e) => if b == n then BumpEntry(e, now) else e)
      && s'.now == now && s'.sent == s.sent
      && s'.hist == (if n in s.tables[n] then s.hist[(n, NextStamp(now, s.tables[n][n].generation)) := s.tables[n][n].state] else s.hist)
    case Round(n, ds) =>
      && n in s.tables && s' == s.(sent := s.sent + {Digest(ds)})
      && forall i :: 0 <= i < |ds| ==> ds[i].addr in s.tables[n] && Rec(ds[i].generation, ds[i].state) == RecOf(s.tables[n][ds[i].addr])
    case OnDigest(n, ds, dialling, connected, resp) =>
      && Digest(ds) in s.sent
      && Local(s, s', n, (b, e) => DigestEntry(n, dialling, connected, b, e, ds))
      && DigestOf(s'.tables[n], resp.myDigest)
      && (forall k :: 0 <= k < |resp.full| ==> Lookup(s'.tables[n], resp.full[k].0) == Some(resp.full[k].1))
      && s'.now == s.now && s'.sent == s.sent + {Reply(resp)} && s'.hist == s.hist
    case OnResponse(n, msg) =>
      && Reply(msg) in s.sent
      && n in s.tables && s'.tables.Keys == s.tables.Keys
      && (forall m :: m in s.tables && m != n ==> s'.tables[m] == s.tables[m])
      && (forall b :: Lookup(s'.tables[n], b) == ResponseEntry(n, fp(n), b, Lookup(s.tables[n], b), msg))
      && s'.now == s.now && s'.sent == s.sent && s'.hist == s.hist
  }

  // ---------------------------------------------------------------- properties of all records

  type RecProp = (Addr, Rec) -> bool

  predicate EntryHas(good: RecProp, a: Addr, e: Entry) {
    e.Some? ==> good(a, RecOf(e.value))
  }

  ghost predicate TableHas(good: RecProp, t: Table) {
    forall a :: EntryHas(good, a, Lookup(t, a))
  }

  ghost predicate DigestHas(good: RecProp, ds: seq<GossipDigest>) {
    forall i :: 0 <= i < |ds| ==> good(ds[i].addr, Rec(ds[i].generation, ds[i].state))
  }

  ghost predicate MsgHas(good: RecProp, m: Msg) {
    match m
    case Digest(ds) => DigestHas(good, ds)
    case Reply(resp) => DigestHas(good, resp.myDigest) && forall k :: 0 <= k < |resp.full| ==> good(resp.full[k].0, RecOf(resp.full[k].1))
  }

  /** Every record in every table and every message ever sent has the property. */
  ghost predicate Everywhere(good: RecProp, s: Net) {
    && (forall n :: n in s.tables ==> TableHas(good, s.tables[n]))
    && (forall m :: m in s.sent ==> MsgHas(good, m))
  }

  lemma {:induction false} MergeOrigin(good: RecProp, a: Addr, e: Entry, ds: seq<GossipDigest>)
    requires EntryHas(good, a, e) && DigestHas(good, ds)
    ensures EntryHas(good, a, MergeAll(a, e, ds))
  {
    if ds != [] {
      MergeOrigin(good, a, e, ds[..|ds| - 1]);
    }
  }

  lemma {:induction false} RegisterOrigin(good: RecProp, a: Addr, e: Entry, ds: seq<GossipDigest>)
    requires EntryHas(good, a, e) && DigestHas(good, ds) && good(a, Rec(1, Alive))
    ensures EntryHas(good, a, RegisterAll(a, e, ds))
  {
    if ds != [] {
      RegisterOrigin(good, a, e, ds[..|ds| - 1]);
    }
  }

  lemma {:induction false} FullOrigin(good: RecProp, self: Addr, fp: string, a: Addr, e: Entry, full: seq<(Addr, NodeInfo)>)
    requires EntryHas(good, a, e) && forall k :: 0 <= k < |full| ==> good(full[k].0, RecOf(full[k].1))
    ensures EntryHas(good, a, FullEntry(self, fp, a, e, full))
  {
    if full != [] {
      FullOrigin(good, self, fp, a, e, full[..|full| - 1]);
    }
  }

  lemma ResponseOrigin(good: RecProp, self: Addr, fp: string, a: Addr, e: Entry, msg: Response)
    requires EntryHas(good, a, e) && MsgHas(good, Reply(msg))
    ensures EntryHas(good, a, ResponseEntry(self, fp, a, e, msg))
  {
    FullOrigin(good, self, fp, a, e, msg.full);
    MergeOrigin(good, a, FullEntry(self, fp, a, e, msg.full), msg.myDigest);
    LastDigestFound(msg.myDigest, a);
  }

  predicate ReadsClock(act: Action) {
    act.Start? || act.Force? || act.Bump?
  }

  /** A step that does not read the clock only copies records, or adds a first one at generation 1. */
  lemma CopyStep(good: RecProp, fp: Addr -> string, s: Net, act: Action, s': Net)
    requires Step(fp, s, act, s') && !ReadsClock(act) && Everywhere(good, s) && forall a :: good(a, Rec(1, Alive))
    ensures Everywhere(good, s')
  {
    match act
    case OnDigest(n, ds, dialling, connected, resp) =>
      forall a ensures EntryHas(good, a, Lookup(s'.tables[n], a)) {
        var e := Lookup(s.tables[n], a);
        assert EntryHas(good, a, e);
        assert MsgHas(good, Digest(ds));
        MergeOrigin(good, a, e, ds);
        RegisterOrigin(good, a, MergeAll(a, e, ds), ds);
      }
      forall i | 0 <= i < |resp.myDigest| ensures good(resp.myDigest[i].addr, Rec(resp.myDigest[i].generation, resp.myDigest[i].state)) {
        assert EntryHas(good, resp.myDigest[i].addr, Lookup(s'.tables[n], resp.myDigest[i].addr));
      }
      forall k | 0 <= k < |resp.full| ensures good(resp.full[k].0, RecOf(resp.full[k].1)) {
        assert EntryHas(good, resp.full[k].0, Lookup(s'.tables[n], resp.full[k].0));
      }
    case OnResponse(n, msg) =>
      forall a ensures EntryHas(good, a, Lookup(s'.tables[n], a)) {
        assert EntryHas(good, a, Lookup(s.tables[n], a));
        ResponseOrigin(good, n, fp(n), a, Lookup(s.tables[n], a), msg);
      }
    case Round(n, ds) =>
      forall i | 0 <= i < |ds| ensures good(ds[i].addr, Rec(ds[i].generation, ds[i].state)) {
        assert EntryHas(good, ds[i].addr, Lookup(s.tables[n], ds[i].addr));
      }
    case Add(n, a, _) => AssertEntries(good, s.tables[n]);
    case Remove(n, a) => AssertEntries(good, s.tables[n]);
    case SetMeta(n, a, _) => AssertEntries(good, s.tables[n]);
  }

  lemma AssertEntries(good: RecProp, t: Table)
    requires TableHas(good, t)
    ensures forall a :: EntryHas(good, a, Lookup(t, a))
  {
  }

  // ---------------------------------------------------------------- generations are stamps

  /** A record is either a first sighting (Alive at generation 1) or carries a stamp issued with
      exactly its state, no later than now. */
  function Genuine(now: nat, hist: map<(Addr, nat), NodeState>): RecProp {
    (a: Addr, r: Rec) =>
      if r.generation <= 1 then r == Rec(1, Alive)
      else r.generation <= now && (a, r.generation) in hist && hist[(a, r.generation)] == r.state
  }

  ghost predicate Stamped(s: Net) {
    && s.now >= 1
    && (forall a, g :: (a, g) in s.hist ==> 1 < g <= s.now)
    && Everywhere(Genuine(s.now, s.hist), s)
  }

  /** Every running node considers itself alive, at a stamp of its own. */
  ghost predicate SelfAlive(s: Net) {
    forall n :: n in s.tables ==> n in s.tables[n] && s.tables[n][n].state == Alive && s.tables[n][n].generation > 1
  }

  ghost predicate Replies(s: Net) {
    forall m :: m in s.sent && m.Reply? ==> WellFormed(m.resp)
  }

  ghost predicate Inv(s: Net) {
    Stamped(s) && SelfAlive(s) && Replies(s)
  }

  lemma StampGrows(s: Net, now: nat, hist: map<(Addr, nat), NodeState>)
    requires Stamped(s) && now >= s.now && forall k :: k in s.hist ==> k in hist && hist[k] == s.hist[k]
    ensures Everywhere(Genuine(now, hist), s)
  {
    var old', new' := Genuine(s.now, s.hist), Genuine(now, hist);
    assert forall a, r :: old'(a, r) ==> new'(a, r);
    forall n | n in s.tables ensures TableHas(new', s.tables[n]) {
      AssertEntries(old', s.tables[n]);
    }
    forall m | m in s.sent ensures MsgHas(new', m) {
      assert MsgHas(old', m);
    }
  }

  lemma StartStep(fp: Addr -> string, s: Net, act: Action, s': Net)
    requires Stamped(s) && SelfAlive(s) && Step(fp, s, act, s') && act.Start?
    ensures Stamped(s') && SelfAlive(s')
  {
    StampGrows(s, s'.now, s'.hist);
    assert TableHas(Genuine(s'.now, s'.hist), s'.tables[act.n]);
  }

  /** A forced or bumped entry gets the fresh stamp `now`; all other entries stay. */
  lemma StampOne(s: Net, n: Addr, t': Table, a: Addr, state: NodeState, now: nat)
    requires Stamped(s) && n in s.tables && now > s.now
    requires forall b :: b != a ==> Lookup(t', b) == Lookup(s.tables[n], b)
    requires a in s.tables[n] ==> a in t' && RecOf(t'[a]) == Rec(NextStamp(now, s.tables[n][a].generation), state)
    requires a !in s.tables[n] ==> a !in t'
    ensures a in s.tables[n] ==> NextStamp(now, s.tables[n][a].generation) == now
    ensures TableHas(Genuine(now, if a in s.tables[n] then s.hist[(a, now) := state] else s.hist), t')
  {
    var hist := if a in s.tables[n] then s.hist[(a, now) := state] else s.hist;
    AssertEntries(Genuine(s.now, s.hist), s.tables[n]);
    assert EntryHas(Genuine(s.now, s.hist), a, Lookup(s.tables[n], a));
    forall b ensures EntryHas(Genuine(now, hist), b, Lookup(t', b)) {
      assert EntryHas(Genuine(s.now, s.hist), b, Lookup(s.tables[n], b));
    }
  }

  lemma ForceStep(fp: Addr -> string, s: Net, act: Action, s': Net)
    requires Stamped(s) && SelfAlive(s) && Step(fp, s, act, s') && act.Force?
    ensures Stamped(s') && SelfAlive(s')
  {
    var n, a := act.n, act.a;
    var e, e' := Lookup(s.tables[n], a), Lookup(s'.tables[n], a);
    assert e' == ForceEntry(e, act.state, act.now);
    StampOne(s, n, s'.tables[n], a, act.state, act.now);
    StampGrows(s, s'.now, s'.hist);
    assert Lookup(s'.tables[n], n) == Lookup(s.tables[n], n);
  }

  lemma BumpStep(fp: Addr -> string, s: Net, act: Action, s': Net)
    requires Stamped(s) && SelfAlive(s) && Step(fp, s, act, s') && act.Bump?
    ensures Stamped(s') && SelfAlive(s')
  {
    var n := act.n;
    var e, e' := Lookup(s.tables[n], n), Lookup(s'.tables[n], n);
    assert e' == BumpEntry(e, act.now);
    StampOne(s, n, s'.tables[n], n, e.value.state, act.now);
    StampGrows(s, s'.now, s'.hist);
  }

  /** No message can raise a node's suspicion of itself: at its own generation all records agree. */
  lemma {:induction false} MergeLeavesSelf(good: RecProp, a: Addr, e: Entry, ds: seq<GossipDigest>)
    requires EntryHas(good, a, e) && DigestHas(good, ds) && e.Some?
    requires forall x, y :: good(a, x) && good(a, y) && x.generation == y.generation ==> x == y
    ensures MergeAll(a, e, ds) == e
  {
    if ds != [] {
      MergeLeavesSelf(good, a, e, ds[..|ds| - 1]);
    }
  }

  lemma {:induction false} FullSkipsSelf(self: Addr, fp: string, e: Entry, full: seq<(Addr, NodeInfo)>)
    ensures FullEntry(self, fp, self, e, full) == e
  {
    if full != [] {
      FullSkipsSelf(self, fp, e, full[..|full| - 1]);
    }
  }

  /** A message handled at `n` leaves its record of itself. */
  lemma MessageLeavesSelf(fp: Addr -> string, s: Net, act: Action, s': Net, n: Addr)
    requires Inv(s) && Step(fp, s, act, s') && (act.OnDigest? || act.OnResponse?) && act.n == n
    ensures Lookup(s'.tables[n], n) == Lookup(s.tables[n], n)
  {
    var good := Genuine(s.now, s.hist);
    var e := Lookup(s.tables[n], n);
    assert EntryHas(good, n, e);
    match act
    case OnDigest(_, ds, _, _, _) =>
      assert MsgHas(good, Digest(ds));
      MergeLeavesSelf(good, n, e, ds);
    case OnResponse(_, msg) =>
      assert MsgHas(good, Reply(msg));
      FullSkipsSelf(n, fp(n), e, msg.full);
      MergeLeavesSelf(good, n, e, msg.myDigest);
  }

  /** A step that does not stamp `n` leaves its record of itself. */
  lemma OwnRecordKept(fp: Addr -> string, s: Net, act: Action, s': Net, n: Addr)
    requires Inv(s) && Step(fp, s, act, s') && Quiet(act, n) && n in s.tables
    ensures n in s'.tables && View(Lookup(s'.tables[n], n)) == View(Lookup(s.tables[n], n))
  {
    match act
    case OnDigest(m, _, _, _, _) =>
      if m == n {
        MessageLeavesSelf(fp, s, act, s', n);
      }
    case OnResponse(m, _) =>
      if m == n {
        MessageLeavesSelf(fp, s, act, s', n);
      }
    case Add(m, a, meta) =>
      assert n in s.tables[n];
      assert m == n ==> Lookup(s'.tables[n], n) == if n == a then AddEntry(Lookup(s.tables[n], n), meta) else Lookup(s.tables[n], n);
    case SetMeta(m, a, meta) =>
      assert m == n ==> Lookup(s'.tables[n], n) == if n == a then MetaEntry(Lookup(s.tables[n], n), meta) else Lookup(s.tables[n], n);
    case Remove(m, a) => assert m == n ==> Lookup(s'.tables[n], n) == Lookup(s.tables[n], n);
    case Force(m, a, _, _) => assert m == n ==> Lookup(s'.tables[n], n) == Lookup(s.tables[n], n);
    case _ =>
  }

  lemma SelfStays(fp: Addr -> string, s: Net, act: Action, s': Net)
    requires Inv(s) && Step(fp, s, act, s') && !ReadsClock(act)
    ensures SelfAlive(s')
  {
    forall n | n in s'.tables ensures n in s'.tables[n] && s'.tables[n][n].state == Alive && s'.tables[n][n].generation > 1 {
      OwnRecordKept(fp, s, act, s', n);
    }
  }

  lemma StepInv(fp: Addr -> string, s: Net, act: Action, s': Net)
    requires Inv(s) && Step(fp, s, act, s')
    ensures Inv(s')
  {
    if act.Start? {
      StartStep(fp, s, act, s');
    } else if act.Force? {
      ForceStep(fp, s, act, s');
    } else if act.Bump? {
      BumpStep(fp, s, act, s');
    } else {
      CopyStep(Genuine(s.now, s.hist), fp, s, act, s');
      SelfStays(fp, s, act, s');
    }
    if act.OnDigest? {
      ReplyWellFormed(s'.tables[act.n], act.resp);
    }
  }

  // ---------------------------------------------------------------- whole runs

  ghost predicate IsRun(fp: Addr -> string, states: seq<Net>, acts: seq<Action>) {
    && |states| == |acts| + 1 && states[0] == INIT
    && forall i :: 0 <= i < |acts| ==> Step(fp, states[i], acts[i], states[i + 1])
  }

  lemma {:induction false} RunInv(fp: Addr -> string, states: seq<Net>, acts: seq<Action>, i: nat)
    requires IsRun(fp, states, acts) && i <= |acts|
    ensures Inv(states[i])
  {
    if i > 0 {
      RunInv(fp, states, acts, i - 1);
      StepInv(fp, states[i - 1], acts[i - 1], states[i]);
    }
  }

  /** A record of `a` found somewhere: in a table or in a message. */
  ghost predicate Found(s: Net, a: Addr, r: Rec) {
    || (exists n :: n in s.tables && a in s.tables[n] && RecOf(s.tables[n][a]) == r)
    || (exists m, i :: m in s.sent && m.Digest? && 0 <= i < |m.ds| && m.ds[i] == GossipDigest(a, r.state, r.generation))
    || (exists m, i ::
          m in s.sent && m.Reply? && 0 <= i < |m.resp.myDigest| && m.resp.myDigest[i] == GossipDigest(a, r.state, r.generation))
    || (exists m, i :: m in s.sent && m.Reply? && 0 <= i < |m.resp.full| && m.resp.full[i].0 == a && RecOf(m.resp.full[i].1) == r)
  }

  lemma FoundHas(good: RecProp, s: Net, a: Addr, r: Rec)
    requires Everywhere(good, s) && Found(s, a, r)
    ensures good(a, r)
  {
    if n :| n in s.tables && a in s.tables[n] && RecOf(s.tables[n][a]) == r {
      assert EntryHas(good, a, Lookup(s.tables[n], a));
    } else if m, i :| m in s.sent && m.Digest? && 0 <= i < |m.ds| && m.ds[i] == GossipDigest(a, r.state, r.generation) {
      assert MsgHas(good, m);
    } else if m, i :|
        m in s.sent && m.Reply? && 0 <= i < |m.resp.myDigest| && m.resp.myDigest[i] == GossipDigest(a, r.state, r.generation)
    {
      assert MsgHas(good, m);
    } else {
      var m, i :| m in s.sent && m.Reply? && 0 <= i < |m.resp.full| && m.resp.full[i].0 == a && RecOf(m.resp.full[i].1) == r;
      assert MsgHas(good, m);
    }
  }

  /** In every reachable state: no generation is ahead of the clock, two records of one address at
      one generation agree on its state, and every running node believes itself alive. */
  lemma GenerationsAreStamps(fp: Addr -> string, states: seq<Net>, acts: seq<Action>, i: nat, a: Addr, x: Rec, y: Rec)
    requires IsRun(fp, states, acts) && i <= |acts| && Found(states[i], a, x) && Found(states[i], a, y)
    ensures x.generation <= states[i].now
    ensures x.generation == y.generation ==> x.state == y.state
    ensures a in states[i].tables ==> a in states[i].tables[a] && states[i].tables[a][a].state == Alive
  {
    RunInv(fp, states, acts, i);
    FoundHas(Genuine(states[i].now, states[i].hist), states[i], a, x);
    FoundHas(Genuine(states[i].now, states[i].hist), states[i], a, y);
  }

  // ---------------------------------------------------------------- refutation

  /** Any record of `n` is older than generation `g`, or is the Alive record at `g`. */
  function Ceiling(n: Addr, g: nat): RecProp {
    (a: Addr, r: Rec) => a == n ==> r.generation < g || r == Rec(g, Alive)
  }

  /** Right after a bump, the node's own record is strictly newer than every other record of it. */
  lemma BumpOutranksEverything(fp: Addr -> string, s: Net, n: Addr, now: nat, s': Net)
    requires Inv(s) && Step(fp, s, Bump(n, now), s')
    ensures Lookup(s'.tables[n], n).Some? && RecOf(s'.tables[n][n]) == Rec(now, Alive)
    ensures forall r :: Found(s, n, r) ==> r.generation < now
    ensures forall m :: m in s'.tables && m != n && n in s'.tables[m] ==> s'.tables[m][n].generation < now
    ensures Everywhere(Ceiling(n, now), s')
  {
    var good := Genuine(s.now, s.hist);
    assert EntryHas(good, n, Lookup(s.tables[n], n));
    assert Lookup(s'.tables[n], n) == BumpEntry(Lookup(s.tables[n], n), now);
    forall r | Found(s, n, r) ensures r.generation < now {
      FoundHas(good, s, n, r);
    }
    forall m, a | m in s'.tables ensures EntryHas(Ceiling(n, now), a, Lookup(s'.tables[m], a)) {
      assert EntryHas(good, a, Lookup(s.tables[m], a));
    }
    forall m | m in s'.tables && m != n && n in s'.tables[m] ensures s'.tables[m][n].generation < now {
      assert EntryHas(good, n, Lookup(s.tables[m], n));
    }
    forall m | m in s'.sent ensures MsgHas(Ceiling(n, now), m) {
      assert MsgHas(good, m);
    }
  }

  /** Nobody stamps `n`: no node declares it anything, and it neither restarts nor bumps again. */
  predicate Quiet(act: Action, n: Addr) {
    match act
    case Start(m, _) => m != n
    case Force(_, a, _, _) => a != n
    case Bump(m, _) => m != n
    case _ => true
  }

  lemma QuietStep(fp: Addr -> string, s: Net, act: Action, s': Net, n: Addr, g: nat)
    requires Step(fp, s, act, s') && Quiet(act, n) && g > 1 && Everywhere(Ceiling(n, g), s)
    ensures Everywhere(Ceiling(n, g), s')
  {
    var good := Ceiling(n, g);
    match act
    case Start(m, now) =>
      assert TableHas(good, s'.tables[m]);
    case Force(m, a, _, _) =>
      AssertEntries(good, s.tables[m]);
    case Bump(m, _) =>
      AssertEntries(good, s.tables[m]);
    case _ => CopyStep(good, fp, s, act, s');
  }

  lemma {:induction false} CeilingHolds(fp: Addr -> string, states: seq<Net>, acts: seq<Action>, n: Addr, b: nat, i: nat)
    requires IsRun(fp, states, acts) && b < i <= |acts| && acts[b].Bump? && acts[b].n == n
    requires forall k :: b < k < i ==> Quiet(acts[k], n)
    ensures acts[b].now > 1 && Everywhere(Ceiling(n, acts[b].now), states[i])
  {
    RunInv(fp, states, acts, b);
    if i == b + 1 {
      assert Step(fp, states[b], acts[b], states[b + 1]);
      BumpOutranksEverything(fp, states[b], n, acts[b].now, states[i]);
    } else {
      CeilingHolds(fp, states, acts, n, b, i - 1);
      QuietStep(fp, states[i - 1], acts[i - 1], states[i], n, acts[b].now);
    }
  }

  /** One step at a peer: its record of `n` never goes down unless the peer restarts or drops it. */
  lemma NeverLowered(fp: Addr -> string, s: Net, act: Action, s': Net, p: Addr, n: Addr)
    requires Step(fp, s, act, s') && p in s.tables && p != n
    requires !(act.Start? && act.n == p) && !(act.Remove? && act.n == p && act.a == n)
    ensures p in s'.tables && Le(View(Lookup(s.tables[p], n)), View(Lookup(s'.tables[p], n)))
  {
    match act
    case OnDigest(m, ds, dialling, connected, _) =>
      DigestNeverLowers(m, dialling, connected, n, Lookup(s.tables[p], n), ds);
      assert m == p ==> Lookup(s'.tables[p], n) == DigestEntry(m, dialling, connected, n, Lookup(s.tables[p], n), ds);
    case OnResponse(m, msg) =>
      ResponseNeverLowers(m, fp(m), n, Lookup(s.tables[p], n), msg);
    case Add(m, a, meta) =>
      assert m == p ==> Lookup(s'.tables[p], n) == if n == a then AddEntry(Lookup(s.tables[p], n), meta) else Lookup(s.tables[p], n);
    case Remove(m, a) =>
      assert m == p ==> Lookup(s'.tables[p], n) == if n == a then None else Lookup(s.tables[p], n);
    case SetMeta(m, a, meta) =>
      assert m == p ==> Lookup(s'.tables[p], n) == if n == a then MetaEntry(Lookup(s.tables[p], n), meta) else Lookup(s.tables[p], n);
    case Force(m, a, state, now) =>
      assert m == p ==>
        Lookup(s'.tables[p], n) == if n == a then ForceEntry(Lookup(s.tables[p], n), state, now) else Lookup(s.tables[p], n);
    case Bump(m, now) =>
      assert m == p ==> Lookup(s'.tables[p], n) == Lookup(s.tables[p], n);
    case _ =>
  }

  /** Over any run without restarts and removals, a table entry only climbs; so a dead or departed
      node is recorded Alive again only at a strictly greater generation. */
  lemma {:induction false} EntriesOnlyClimb(fp: Addr -> string, states: seq<Net>, acts: seq<Action>, p: Addr, n: Addr, i: nat, j: nat)
    requires IsRun(fp, states, acts) && i <= j <= |acts| && p in states[i].tables && p != n
    requires forall k :: i <= k < j ==> !(acts[k].Start? && acts[k].n == p) && !(acts[k].Remove? && acts[k].n == p && acts[k].a == n)
    ensures p in states[j].tables
    ensures Le(View(Lookup(states[i].tables[p], n)), View(Lookup(states[j].tables[p], n)))
    ensures n in states[i].tables[p] && n in states[j].tables[p]
      && states[i].tables[p][n].state != Alive && states[j].tables[p][n].state == Alive
      ==> states[j].tables[p][n].generation > states[i].tables[p][n].generation
  {
    if i < j {
      EntriesOnlyClimb(fp, states, acts, p, n, i, j - 1);
      NeverLowered(fp, states[j - 1], acts[j - 1], states[j], p, n);
      LeIsTotalOrder(View(Lookup(states[i].tables[p], n)), View(Lookup(states[j - 1].tables[p], n)), View(Lookup(states[j].tables[p], n)));
    }
  }

  /** Refutation. Once `n` has bumped its generation and nobody stamps it anew, a peer that handles
      any response telling of that bump (as `n`'s own next responses do) records `n` Alive, and
      keeps doing so, however old messages are lost, repeated or reordered meanwhile. */
  lemma RefutationWins(fp: Addr -> string, states: seq<Net>, acts: seq<Action>, n: Addr, b: nat, p: Addr, i: nat, msg: Response, j: nat)
    requires IsRun(fp, states, acts) && b < i < j <= |acts| && p != n
    requires acts[b].Bump? && acts[b].n == n && forall k :: b < k < j ==> Quiet(acts[k], n)
    requires acts[i] == OnResponse(p, msg) && Told(msg, n) == Some(Rec(acts[b].now, Alive))
    requires p in states[i].tables && Foreign(p, fp(p), n, Lookup(states[i].tables[p], n), msg)
    requires forall k :: i < k < j ==> !(acts[k].Start? && acts[k].n == p) && !(acts[k].Remove? && acts[k].n == p && acts[k].a == n)
    ensures p in states[j].tables && View(Lookup(states[j].tables[p], n)) == Some(Rec(acts[b].now, Alive))
  {
    var g := acts[b].now;
    RunInv(fp, states, acts, i);
    CeilingHolds(fp, states, acts, n, b, i);
    assert Step(fp, states[i], acts[i], states[i + 1]);
    var e := Lookup(states[i].tables[p], n);
    assert EntryHas(Ceiling(n, g), n, e);
    assert WellFormed(Reply(msg).resp);
    ResponseIsJoin(p, fp(p), n, e, msg);
    assert View(Lookup(states[i + 1].tables[p], n)) == Some(Rec(g, Alive));
    EntriesOnlyClimb(fp, states, acts, p, n, i + 1, j);
    CeilingHolds(fp, states, acts, n, b, j);
    assert EntryHas(Ceiling(n, g), n, Lookup(states[j].tables[p], n));
  }

  /** The bumped node's own responses do tell of the bump. */
  lemma OwnResponsesTell(fp: Addr -> string, s: Net, n: Addr, ds: seq<GossipDigest>, dialling: bool, connected: set<Addr>,
                         resp: Response, s': Net)
    requires Inv(s) && Step(fp, s, OnDigest(n, ds, dialling, connected, resp), s')
    ensures Told(resp, n) == View(Lookup(s.tables[n], n)) && Told(resp, n).Some? && Told(resp, n).value.state == Alive
  {
    ReplyWellFormed(s'.tables[n], resp);
    MessageLeavesSelf(fp, s, OnDigest(n, ds, dialling, connected, resp), s', n);
  }

  /** Until somebody stamps it anew, a bumped node holds the record of its bump. */
  lemma {:induction false} OwnRecordStays(fp: Addr -> string, states: seq<Net>, acts: seq<Action>, n: Addr, b: nat, i: nat)
    requires IsRun(fp, states, acts) && b < i <= |acts| && acts[b].Bump? && acts[b].n == n
    requires forall k :: b < k < i ==> Quiet(acts[k], n)
    ensures n in states[i].tables && View(Lookup(states[i].tables[n], n)) == Some(Rec(acts[b].now, Alive))
  {
    RunInv(fp, states, acts, i - 1);
    assert Step(fp, states[i - 1], acts[i - 1], states[i]);
    if i == b + 1 {
      BumpOutranksEverything(fp, states[b], n, acts[b].now, states[i]);
    } else {
      OwnRecordStays(fp, states, acts, n, b, i - 1);
      OwnRecordKept(fp, states[i - 1], acts[i - 1], states[i], n);
    }
  }

  /** The whole refutation, with nothing assumed about message contents: after `n` bumps, any reply of
      its own (to any digest, at step `m`) that reaches `p` (at step `i`) makes `p` record it Alive at
      the bump's generation, from then on. */
  lemma RefutationCompletes(fp: Addr -> string, states: seq<Net>, acts: seq<Action>, n: Addr, b: nat, m: nat, p: Addr, i: nat, j: nat)
    requires IsRun(fp, states, acts) && b < m < i < j <= |acts| && p != n
    requires acts[b].Bump? && acts[b].n == n && forall k :: b < k < j ==> Quiet(acts[k], n)
    requires acts[m].OnDigest? && acts[m].n == n && acts[i] == OnResponse(p, acts[m].resp)
    requires p in states[i].tables && Foreign(p, fp(p), n, Lookup(states[i].tables[p], n), acts[m].resp)
    requires forall k :: i < k < j ==> !(acts[k].Start? && acts[k].n == p) && !(acts[k].Remove? && acts[k].n == p && acts[k].a == n)
    ensures p in states[j].tables && View(Lookup(states[j].tables[p], n)) == Some(Rec(acts[b].now, Alive))
  {
    RunInv(fp, states, acts, m);
    assert Step(fp, states[m], acts[m], states[m + 1]);
    OwnRecordStays(fp, states, acts, n, b, m);
    OwnResponsesTell(fp, states[m], n, acts[m].ds, acts[m].dialling, acts[m].connected, acts[m].resp, states[m + 1]);
    RefutationWins(fp, states, acts, n, b, p, i, acts[m].resp, j);
  }
}
