/** A quorum write followed by a quorum read of one key (Cluster/quorum/quorum.go and the replica
    handlers in Server/server.go) over a network that delays, drops and reorders messages. */
module Quorum {
  import opened Indices
  import opened Sequences
  import opened VectorClock
  import opened Conflict

  /** The operation: its targets, the quorums and the clock being written. */
  datatype Op = Op(targets: set<Addr>, w: nat, r: nat, clock: Clock)

  datatype Stored = Stored(clock: Clock, timestamp: int)

  datatype Ack = Ack(from: Addr, success: bool)

  datatype Response = Response(from: Addr, found: bool, clock: Clock, timestamp: int)

  /** What a target's metadata lookup yields. */
  function Lookup(replicas: map<Addr, Stored>, t: Addr): Response {
    if t in replicas then Response(t, true, replicas[t].clock, replicas[t].timestamp) else Response(t, false, map[], 0)
  }

  datatype Phase = Writing | WriteOk | WriteFailed | Reading | ReadDone(full: bool) | ReadFailed

  datatype State = State(
    phase: Phase,
    replicas: map<Addr, Stored>,      // absent: no metadata for the key
    writes: set<Addr>,                // write requests not yet delivered or lost
    acks: map<Addr, bool>,            // write acknowledgements in transit: success or failure
    ackCh: seq<Ack>,
    counted: set<Addr>,               // targets whose success was counted
    probes: set<Addr>,                // read probes not yet delivered or lost
    replies: map<Addr, Response>,     // read responses in transit
    respCh: seq<Response>,
    responses: seq<Response>,
    dropped: bool)                    // a reply found its channel full

  datatype Action =
    | DeliverWrite(a: Addr, ok: bool, stored: bool, timestamp: int)   // data written; metadata written
    | LoseWrite(a: Addr)
    | DeliverAck(a: Addr)
    | TakeAck
    | WriteTimeout
    | StartRead
    | DeliverRead(a: Addr)
    | LoseRead(a: Addr)
    | DeliverReply(a: Addr)
    | TakeReply
    | ReadTimeout

  function Init(op: Op, replicas: map<Addr, Stored>): State {
    State(Writing, replicas, op.targets, map[], [], {}, {}, map[], [], [], false)
  }

  /** Channels have one slot more than there are targets. */
  function Room(op: Op): nat {
    |op.targets| + 1
  }

  function Versions(responses: seq<Response>): (vs: seq<Version>)
    ensures |vs| == |responses|
    ensures forall i :: 0 <= i < |vs| ==> vs[i] == Version(responses[i].from, responses[i].clock, responses[i].timestamp)
  {
    seq(|responses|, i requires 0 <= i < |responses| => Version(responses[i].from, responses[i].clock, responses[i].timestamp))
  }

  method ResolveRead(responses: seq<Response>) returns (clock: Clock)
    requires responses != []
    ensures clock == Winner(Versions(responses)).clock
  {
    var versions: seq<Version> := [];
    for i := 0 to |responses|
      invariant versions == Versions(responses)[..i]
    {
      versions := versions + [Version(responses[i].from, responses[i].clock, responses[i].timestamp)];
    }
    assert versions == Versions(responses);
    var winner := Resolve(versions);
    clock := winner.clock;
  }

  predicate Enabled(op: Op, s: State, a: Action) {
    match a
    case DeliverWrite(t, ok, stored, ts) => t in s.writes
    case LoseWrite(t) => t in s.writes
    case DeliverAck(t) => t in s.acks
    case TakeAck => s.phase.Writing? && s.ackCh != []
    case WriteTimeout => s.phase.Writing?
    case StartRead => s.phase.WriteOk?
    case DeliverRead(t) => t in s.probes
    case LoseRead(t) => t in s.probes
    case DeliverReply(t) => t in s.replies
    case TakeReply => s.phase.Reading? && s.respCh != []
    case ReadTimeout => s.phase.Reading?
  }

  ghost function Apply(op: Op, s: State, a: Action): State
    requires Enabled(op, s, a)
  {
    match a
    case DeliverWrite(t, ok, stored, ts) =>
      var s1 := s.(writes := s.writes - {t}, acks := s.acks[t := ok]);
      if !ok then s1
      else if stored then s1.(replicas := s.replicas[t := Stored(op.clock, ts)])
      else if t in s.replicas then s1
      else s1.(replicas := s.replicas[t := Stored(map[], 0)])   // the data's path was set before
    case LoseWrite(t) => s.(writes := s.writes - {t})
    case DeliverAck(t) =>
      var s1 := s.(acks := s.acks - {t});
      if !s.phase.Writing? then s1
      else if |s.ackCh| < Room(op) then s1.(ackCh := s.ackCh + [Ack(t, s.acks[t])])
      else s1.(dropped := true)
    case TakeAck =>
      var ack := s.ackCh[0];
      var s1 := s.(ackCh := s.ackCh[1..]);
      if !ack.success then s1
      else
        var counted := s.counted + {ack.from};
        s1.(counted := counted, phase := if |counted| >= op.w then WriteOk else Writing)
    case WriteTimeout => s.(phase := WriteFailed)
    case StartRead => s.(phase := Reading, probes := op.targets)
    case DeliverRead(t) =>
      s.(probes := s.probes - {t}, replies := s.replies[t := Lookup(s.replicas, t)])
    case LoseRead(t) => s.(probes := s.probes - {t})
    case DeliverReply(t) =>
      var s1 := s.(replies := s.replies - {t});
      if !s.phase.Reading? then s1
      else if |s.respCh| < Room(op) then s1.(respCh := s.respCh + [s.replies[t]])
      else s1.(dropped := true)
    case TakeReply =>
      var resp := s.respCh[0];
      var s1 := s.(respCh := s.respCh[1..]);
      var responses := if resp.found then s.responses + [resp] else s.responses;
      if |responses| >= op.r && responses != []
      then s1.(responses := responses, phase := ReadDone(true))
      else s1.(responses := responses)
    case ReadTimeout =>
      if s.responses == [] then s.(phase := ReadFailed)
      else s.(phase := ReadDone(false))
  }

  /** Outside `u`, a target that acknowledges has written its metadata too. The handler discards the
      error of that write, so `u` names the targets where it may fail. */
  predicate Kept(u: set<Addr>, a: Action) {
    a.DeliverWrite? && a.ok && a.a !in u ==> a.stored
  }

  /** The clock a finished read returns: the resolver's choice among the responses collected. */
  ghost function Returned(s: State): Clock
    requires s.phase.ReadDone? && s.responses != []
  {
    Winner(Versions(s.responses)).clock
  }

  // ---------------------------------------------------------------- one message per target

  /** A target's acknowledgement is in one place only. */
  ghost predicate OneEach(op: Op, s: State) {
    && s.writes <= op.targets && s.counted <= op.targets && s.acks.Keys <= op.targets
    && s.writes !! s.counted && s.writes !! s.acks.Keys && s.counted !! s.acks.Keys
    && (forall i, j :: 0 <= i < j < |s.ackCh| ==> s.ackCh[i].from != s.ackCh[j].from)
    && (forall i :: 0 <= i < |s.ackCh| ==>
          s.ackCh[i].from in op.targets && s.ackCh[i].from !in s.writes && s.ackCh[i].from !in s.counted && s.ackCh[i].from !in s.acks)
  }

  /** So is its reply to the read. */
  ghost predicate OneReplyEach(op: Op, s: State) {
    ReplyPlaces(op, s) && ReplySenders(s)
  }

  ghost predicate ReplyPlaces(op: Op, s: State) {
    && s.probes <= op.targets && s.replies.Keys <= op.targets && s.probes !! s.replies.Keys
    && (forall t :: t in s.replies ==> s.replies[t].from == t)
    && (forall i :: 0 <= i < |s.respCh| ==>
          s.respCh[i].from in op.targets && s.respCh[i].from !in s.probes && s.respCh[i].from !in s.replies)
    && (forall i :: 0 <= i < |s.responses| ==>
          s.responses[i].from in op.targets && s.responses[i].from !in s.probes && s.responses[i].from !in s.replies)
  }

  ghost predicate ReplySenders(s: State) {
    Separate(s.respCh, s.responses)
  }

  ghost predicate Separate(ch: seq<Response>, rs: seq<Response>) {
    && (forall i, j :: 0 <= i < j < |ch| ==> ch[i].from != ch[j].from)
    && (forall i, j :: 0 <= i < j < |rs| ==> rs[i].from != rs[j].from)
    && (forall i, j :: 0 <= i < |ch| && 0 <= j < |rs| ==> ch[i].from != rs[j].from)
  }

  lemma MoveHead(ch: seq<Response>, rs: seq<Response>)
    requires Separate(ch, rs) && ch != []
    ensures Separate(ch[1..], rs) && Separate(ch[1..], rs + [ch[0]])
  {
  }

  ghost predicate Holds(op: Op, s: State, a: Addr) {
    a in s.replicas && s.replicas[a].clock == op.clock
  }

  /** Whoever acknowledged, outside `u`, stores the written clock. */
  ghost predicate Acknowledged(op: Op, u: set<Addr>, s: State) {
    && (forall a :: a in s.acks && s.acks[a] && a !in u ==> Holds(op, s, a))
    && (forall i :: 0 <= i < |s.ackCh| && s.ackCh[i].success && s.ackCh[i].from !in u ==> Holds(op, s, s.ackCh[i].from))
    && (forall a :: a in s.counted && a !in u ==> Holds(op, s, a))
  }

  /** And tells it when asked. */
  ghost predicate Told(op: Op, u: set<Addr>, s: State) {
    && (forall a :: a in s.replies && a in s.counted && a !in u ==> s.replies[a].found && s.replies[a].clock == op.clock)
    && (forall i :: 0 <= i < |s.respCh| && s.respCh[i].from in s.counted && s.respCh[i].from !in u ==>
          s.respCh[i].found && s.respCh[i].clock == op.clock)
    && (forall i :: 0 <= i < |s.responses| ==> s.responses[i].found)
    && (forall i :: 0 <= i < |s.responses| && s.responses[i].from in s.counted && s.responses[i].from !in u ==>
          s.responses[i].clock == op.clock)
  }

  ghost predicate Phases(op: Op, s: State) {
    && !s.dropped
    && (s.phase.Writing? || s.phase.WriteOk? || s.phase.WriteFailed? ==>
          s.probes == {} && s.replies == map[] && s.respCh == [] && s.responses == [])
    && (!s.phase.Writing? && !s.phase.WriteFailed? ==> |s.counted| >= op.w)
    && (s.phase.Reading? ==> |s.responses| < op.r)
    && (s.phase.ReadDone? ==> s.responses != [])
    && (s.phase.ReadDone? && s.phase.full ==> |s.responses| == op.r)
  }

  ghost predicate Inv(op: Op, u: set<Addr>, s: State) {
    OneEach(op, s) && OneReplyEach(op, s) && Acknowledged(op, u, s) && Told(op, u, s) && Phases(op, s)
  }

  lemma FewerThanTargets(froms: seq<Addr>, targets: set<Addr>)
    requires Distinct(froms) && forall i :: 0 <= i < |froms| ==> froms[i] in targets
    ensures |froms| <= |targets|
  {
    DistinctCounts(froms);
    assert Elements(froms) <= targets;
    assert targets == Elements(froms) + (targets - Elements(froms));
  }

  function AckSenders(ch: seq<Ack>): (r: seq<Addr>)
    ensures |r| == |ch| && forall i :: 0 <= i < |r| ==> r[i] == ch[i].from
  {
    seq(|ch|, i requires 0 <= i < |ch| => ch[i].from)
  }

  function Senders(ch: seq<Response>): (r: seq<Addr>)
    ensures |r| == |ch| && forall i :: 0 <= i < |r| ==> r[i] == ch[i].from
  {
    seq(|ch|, i requires 0 <= i < |ch| => ch[i].from)
  }

  /** A channel always has room for a reply that arrives while its operation waits. */
  lemma ChannelsHaveRoom(op: Op, s: State)
    requires OneEach(op, s) && OneReplyEach(op, s)
    ensures |s.ackCh| < Room(op) && |s.respCh| < Room(op)
  {
    FewerThanTargets(AckSenders(s.ackCh), op.targets);
    FewerThanTargets(Senders(s.respCh), op.targets);
  }

  predicate ReadSide(a: Action) {
    a.StartRead? || a.DeliverRead? || a.LoseRead? || a.DeliverReply? || a.TakeReply? || a.ReadTimeout?
  }

  ghost predicate SameWrites(s: State, s': State) {
    s'.writes == s.writes && s'.acks == s.acks && s'.ackCh == s.ackCh && s'.counted == s.counted && s'.replicas == s.replicas
  }

  lemma DeliverReplyFrame(op: Op, s: State, t: Addr)
    requires Enabled(op, s, DeliverReply(t))
    ensures SameWrites(s, Apply(op, s, DeliverReply(t)))
  {
  }

  lemma TakeReplyFrame(op: Op, s: State)
    requires Enabled(op, s, TakeReply)
    ensures SameWrites(s, Apply(op, s, TakeReply))
  {
  }

  lemma ReadSideFrame(op: Op, s: State, a: Action)
    requires Enabled(op, s, a) && (ReadSide(a) || a.WriteTimeout?)
    ensures SameWrites(s, Apply(op, s, a))
  {
    match a
    case DeliverReply(t) => DeliverReplyFrame(op, s, t);
    case TakeReply => TakeReplyFrame(op, s);
    case _ =>
  }

  ghost predicate SameReads(s: State, s': State) {
    s'.probes == s.probes && s'.replies == s.replies && s'.respCh == s.respCh && s'.responses == s.responses
  }

  lemma DeliverAckFrame(op: Op, s: State, t: Addr)
    requires Enabled(op, s, DeliverAck(t))
    ensures SameReads(s, Apply(op, s, DeliverAck(t)))
  {
  }

  lemma TakeAckFrame(op: Op, s: State)
    requires Enabled(op, s, TakeAck)
    ensures SameReads(s, Apply(op, s, TakeAck))
  {
  }

  lemma WriteSideFrame(op: Op, s: State, a: Action)
    requires Enabled(op, s, a) && (!ReadSide(a) || a.ReadTimeout?)
    ensures SameReads(s, Apply(op, s, a))
  {
    match a
    case DeliverAck(t) => DeliverAckFrame(op, s, t);
    case TakeAck => TakeAckFrame(op, s);
    case _ =>
  }

  lemma WriteDelivered(op: Op, s: State, t: Addr, ok: bool, stored: bool, ts: int)
    requires OneEach(op, s) && Enabled(op, s, DeliverWrite(t, ok, stored, ts))
    ensures OneEach(op, Apply(op, s, DeliverWrite(t, ok, stored, ts)))
  {
  }

  lemma WriteLost(op: Op, s: State, t: Addr)
    requires OneEach(op, s) && Enabled(op, s, LoseWrite(t))
    ensures OneEach(op, Apply(op, s, LoseWrite(t)))
  {
  }

  lemma AckDelivered(op: Op, s: State, t: Addr)
    requires OneEach(op, s) && Enabled(op, s, DeliverAck(t))
    ensures OneEach(op, Apply(op, s, DeliverAck(t)))
  {
  }

  lemma AckTaken(op: Op, s: State)
    requires OneEach(op, s) && Enabled(op, s, TakeAck)
    ensures OneEach(op, Apply(op, s, TakeAck))
  {
  }

  lemma SameWriteSide(op: Op, s: State, s': State)
    requires OneEach(op, s) && s'.writes == s.writes && s'.acks == s.acks && s'.ackCh == s.ackCh && s'.counted == s.counted
    ensures OneEach(op, s')
  {
  }

  lemma StepOneEach(op: Op, s: State, a: Action)
    requires OneEach(op, s) && Enabled(op, s, a)
    ensures OneEach(op, Apply(op, s, a))
  {
    match a
    case DeliverWrite(t, ok, stored, ts) => WriteDelivered(op, s, t, ok, stored, ts);
    case LoseWrite(t) => WriteLost(op, s, t);
    case DeliverAck(t) => AckDelivered(op, s, t);
    case TakeAck => AckTaken(op, s);
    case _ =>
      ReadSideFrame(op, s, a);
      SameWriteSide(op, s, Apply(op, s, a));
  }

  lemma ReadStarted(op: Op, s: State)
    requires OneReplyEach(op, s) && Phases(op, s) && Enabled(op, s, StartRead)
    ensures OneReplyEach(op, Apply(op, s, StartRead))
  {
  }

  lemma ReadDelivered(op: Op, s: State, t: Addr)
    requires OneReplyEach(op, s) && Phases(op, s) && Enabled(op, s, DeliverRead(t))
    ensures OneReplyEach(op, Apply(op, s, DeliverRead(t)))
  {
  }

  lemma ReadLost(op: Op, s: State, t: Addr)
    requires OneReplyEach(op, s) && Phases(op, s) && Enabled(op, s, LoseRead(t))
    ensures OneReplyEach(op, Apply(op, s, LoseRead(t)))
  {
  }

  lemma ReplyDelivered(op: Op, s: State, t: Addr)
    requires OneReplyEach(op, s) && Enabled(op, s, DeliverReply(t))
    ensures OneReplyEach(op, Apply(op, s, DeliverReply(t)))
  {
    DeliveredPlaces(op, s, t);
    DeliveredSenders(op, s, t);
  }

  lemma DeliveredPlaces(op: Op, s: State, t: Addr)
    requires ReplyPlaces(op, s) && Enabled(op, s, DeliverReply(t))
    ensures ReplyPlaces(op, Apply(op, s, DeliverReply(t)))
  {
  }

  lemma DeliveredSenders(op: Op, s: State, t: Addr)
    requires OneReplyEach(op, s) && Enabled(op, s, DeliverReply(t))
    ensures ReplySenders(Apply(op, s, DeliverReply(t)))
  {
  }

  lemma ReplyTaken(op: Op, s: State)
    requires OneReplyEach(op, s) && Enabled(op, s, TakeReply)
    ensures OneReplyEach(op, Apply(op, s, TakeReply))
  {
    TakenPlaces(op, s);
    TakenSenders(op, s);
  }

  lemma TakenPlaces(op: Op, s: State)
    requires ReplyPlaces(op, s) && Enabled(op, s, TakeReply)
    ensures ReplyPlaces(op, Apply(op, s, TakeReply))
  {
  }

  lemma TakenSenders(op: Op, s: State)
    requires ReplySenders(s) && Enabled(op, s, TakeReply)
    ensures ReplySenders(Apply(op, s, TakeReply))
  {
    MoveHead(s.respCh, s.responses);
  }

  lemma SameReadSide(op: Op, s: State, s': State)
    requires OneReplyEach(op, s) && s'.probes == s.probes && s'.replies == s.replies && s'.respCh == s.respCh && s'.responses == s.responses
    ensures OneReplyEach(op, s')
  {
  }

  lemma StepOneReplyEach(op: Op, s: State, a: Action)
    requires OneReplyEach(op, s) && Phases(op, s) && Enabled(op, s, a)
    ensures OneReplyEach(op, Apply(op, s, a))
  {
    match a
    case StartRead => ReadStarted(op, s);
    case DeliverRead(t) => ReadDelivered(op, s, t);
    case LoseRead(t) => ReadLost(op, s, t);
    case DeliverReply(t) => ReplyDelivered(op, s, t);
    case TakeReply => ReplyTaken(op, s);
    case _ =>
      WriteSideFrame(op, s, a);
      SameReadSide(op, s, Apply(op, s, a));
  }

  lemma WriteStored(op: Op, u: set<Addr>, s: State, t: Addr, ok: bool, stored: bool, ts: int)
    requires OneEach(op, s) && Acknowledged(op, u, s)
    requires Enabled(op, s, DeliverWrite(t, ok, stored, ts)) && Kept(u, DeliverWrite(t, ok, stored, ts))
    ensures Acknowledged(op, u, Apply(op, s, DeliverWrite(t, ok, stored, ts)))
  {
  }

  lemma AckKept(op: Op, u: set<Addr>, s: State, t: Addr)
    requires OneEach(op, s) && Acknowledged(op, u, s) && Enabled(op, s, DeliverAck(t))
    ensures Acknowledged(op, u, Apply(op, s, DeliverAck(t)))
  {
  }

  lemma AckCounted(op: Op, u: set<Addr>, s: State)
    requires OneEach(op, s) && Acknowledged(op, u, s) && Enabled(op, s, TakeAck)
    ensures Acknowledged(op, u, Apply(op, s, TakeAck))
  {
  }

  lemma SameAcks(op: Op, u: set<Addr>, s: State, s': State)
    requires Acknowledged(op, u, s) && s'.replicas == s.replicas && s'.acks == s.acks && s'.ackCh == s.ackCh && s'.counted == s.counted
    ensures Acknowledged(op, u, s')
  {
  }

  lemma StepAcknowledged(op: Op, u: set<Addr>, s: State, a: Action)
    requires OneEach(op, s) && Acknowledged(op, u, s) && Enabled(op, s, a) && Kept(u, a)
    ensures Acknowledged(op, u, Apply(op, s, a))
  {
    match a
    case DeliverWrite(t, ok, stored, ts) => WriteStored(op, u, s, t, ok, stored, ts);
    case DeliverAck(t) => AckKept(op, u, s, t);
    case TakeAck => AckCounted(op, u, s);
    case LoseWrite(t) => SameAcks(op, u, s, Apply(op, s, a));
    case _ =>
      ReadSideFrame(op, s, a);
      SameAcks(op, u, s, Apply(op, s, a));
  }

  lemma ReadAnswered(op: Op, u: set<Addr>, s: State, t: Addr)
    requires OneReplyEach(op, s) && Acknowledged(op, u, s) && Told(op, u, s) && Phases(op, s) && Enabled(op, s, DeliverRead(t))
    ensures Told(op, u, Apply(op, s, DeliverRead(t)))
  {
  }

  lemma ReplyKept(op: Op, u: set<Addr>, s: State, t: Addr)
    requires OneReplyEach(op, s) && Acknowledged(op, u, s) && Told(op, u, s) && Phases(op, s) && Enabled(op, s, DeliverReply(t))
    ensures Told(op, u, Apply(op, s, DeliverReply(t)))
  {
  }

  lemma ReplyCollected(op: Op, u: set<Addr>, s: State)
    requires OneReplyEach(op, s) && Acknowledged(op, u, s) && Told(op, u, s) && Phases(op, s) && Enabled(op, s, TakeReply)
    ensures Told(op, u, Apply(op, s, TakeReply))
  {
  }

  lemma SameTold(op: Op, u: set<Addr>, s: State, s': State)
    requires Told(op, u, s) && s'.counted == s.counted && s'.replies == s.replies && s'.respCh == s.respCh && s'.responses == s.responses
    ensures Told(op, u, s')
  {
  }

  lemma StepTold(op: Op, u: set<Addr>, s: State, a: Action)
    requires OneReplyEach(op, s) && Acknowledged(op, u, s) && Told(op, u, s) && Phases(op, s) && Enabled(op, s, a)
    ensures Told(op, u, Apply(op, s, a))
  {
    match a
    case DeliverRead(t) => ReadAnswered(op, u, s, t);
    case DeliverReply(t) => ReplyKept(op, u, s, t);
    case TakeReply => ReplyCollected(op, u, s);
    case TakeAck => assert s.respCh == [] && s.responses == [] && s.replies == map[];
    case StartRead => SameTold(op, u, s, Apply(op, s, a));
    case LoseRead(t) => SameTold(op, u, s, Apply(op, s, a));
    case _ =>
      WriteSideFrame(op, s, a);
      SameTold(op, u, s, Apply(op, s, a));
  }

  lemma StepPhases(op: Op, s: State, a: Action)
    requires Phases(op, s) && Enabled(op, s, a) && op.r > 0 && |s.ackCh| < Room(op) && |s.respCh| < Room(op)
    ensures Phases(op, Apply(op, s, a))
  {
    match a
    case TakeReply => ReplyPhases(op, s);
    case DeliverReply(t) => DeliveredPhases(op, s, t);
    case _ =>
  }

  lemma ReplyPhases(op: Op, s: State)
    requires Phases(op, s) && Enabled(op, s, TakeReply) && op.r > 0
    ensures Phases(op, Apply(op, s, TakeReply))
  {
  }

  lemma DeliveredPhases(op: Op, s: State, t: Addr)
    requires Phases(op, s) && Enabled(op, s, DeliverReply(t)) && |s.respCh| < Room(op)
    ensures Phases(op, Apply(op, s, DeliverReply(t)))
  {
  }

  lemma StepInv(op: Op, u: set<Addr>, s: State, a: Action)
    requires Inv(op, u, s) && Enabled(op, s, a) && Kept(u, a) && op.r > 0
    ensures Inv(op, u, Apply(op, s, a))
  {
    StepOneEach(op, s, a);
    StepOneReplyEach(op, s, a);
    StepAcknowledged(op, u, s, a);
    StepTold(op, u, s, a);
    ChannelsHaveRoom(op, s);
    StepPhases(op, s, a);
  }

  ghost predicate IsRun(op: Op, replicas: map<Addr, Stored>, states: seq<State>, acts: seq<Action>) {
    && |states| == |acts| + 1 && states[0] == Init(op, replicas)
    && forall i :: 0 <= i < |acts| ==> Enabled(op, states[i], acts[i]) && states[i + 1] == Apply(op, states[i], acts[i])
  }

  lemma {:induction false} RunInv(op: Op, u: set<Addr>, replicas: map<Addr, Stored>, states: seq<State>, acts: seq<Action>, i: nat)
    requires IsRun(op, replicas, states, acts) && i <= |acts| && op.r > 0 && op.w > 0
    requires forall k :: 0 <= k < |acts| ==> Kept(u, acts[k])
    ensures Inv(op, u, states[i])
  {
    if i > 0 {
      RunInv(op, u, replicas, states, acts, i - 1);
      StepInv(op, u, states[i - 1], acts[i - 1]);
    }
  }

  /** Write and read quorums of the same targets share a member when W + R > N. */
  lemma QuorumsMeet(targets: set<Addr>, ws: set<Addr>, rs: set<Addr>) returns (a: Addr)
    requires ws <= targets && rs <= targets && |ws| + |rs| > |targets|
    ensures a in ws && a in rs
  {
    assert |ws| + |rs| == |ws + rs| + |ws * rs|;
    SubsetSize(ws + rs, targets);
    a :| a in ws * rs;
  }

  lemma PairHasNoTrap(vs: set<Version>)
    requires |vs| <= 2
    ensures TrapFree(vs)
  {
    forall low, mid, top ensures !Trap(vs, low, mid, top) {
      if Trap(vs, low, mid, top) {
        CausalIsOrder(low.clock, low.clock, low.clock);
        CausalIsOrder(top.clock, top.clock, top.clock);
        assert {low, mid, top} <= vs && |{low, mid, top}| == 3;
        SubsetSize({low, mid, top}, vs);
      }
    }
    forall low, top, prior, later ensures !TiedTrap(vs, low, top, prior, later) {
      if TiedTrap(vs, low, top, prior, later) {
        CausalIsOrder(low.clock, low.clock, low.clock);
        CausalIsOrder(top.clock, top.clock, top.clock);
        assert {low, prior, top} <= vs && |{low, prior, top}| == 3;
        SubsetSize({low, prior, top}, vs);
      }
    }
  }

  function Candidates(s: State): set<Version> {
    set v | v in Versions(s.responses)
  }

  lemma CandidatesBound(s: State)
    ensures |Candidates(s)| <= |s.responses|
  {
    ElementsBound(Versions(s.responses));
    assert Candidates(s) == Elements(Versions(s.responses));
  }

  /** A full quorum of replies includes one from a target that stored the write. */
  lemma FullQuorumHearsWrite(op: Op, u: set<Addr>, s: State) returns (i: nat)
    requires Inv(op, u, s) && s.phase.ReadDone? && s.phase.full && op.w + op.r > |op.targets| + |u|
    ensures i < |s.responses| && s.responses[i].clock == op.clock
  {
    var froms := Senders(s.responses);
    DistinctCounts(froms);
    assert Elements(froms) <= op.targets;
    assert s.counted == (s.counted - u) + s.counted * u;
    SubsetSize(s.counted * u, u);
    var a := QuorumsMeet(op.targets, s.counted - u, Elements(froms));
    i :| 0 <= i < |froms| && froms[i] == a;
  }

  /** No run drops a reply for lack of channel room, whatever metadata is lost. */
  lemma NoReplyDropped(op: Op, replicas: map<Addr, Stored>, states: seq<State>, acts: seq<Action>)
    requires IsRun(op, replicas, states, acts) && op.w > 0 && op.r > 0
    ensures !states[|acts|].dropped
  {
    AnyRunInv(op, replicas, states, acts, |acts|);
  }

  /** The parts of the invariant that do not depend on which metadata writes fail. */
  lemma AnyRunInv(op: Op, replicas: map<Addr, Stored>, states: seq<State>, acts: seq<Action>, i: nat)
    requires IsRun(op, replicas, states, acts) && op.w > 0 && op.r > 0 && i <= |acts|
    ensures OneEach(op, states[i]) && OneReplyEach(op, states[i]) && Phases(op, states[i])
  {
    var u := set k | 0 <= k < |acts| && acts[k].DeliverWrite? :: acts[k].a;
    RunInv(op, u, replicas, states, acts, i);
  }

  /** A finished full-quorum read returns a clock causally before the written one. */
  ghost predicate Stale(op: Op, s: State) {
    s.phase == ReadDone(true) && s.responses != [] && Causal(Returned(s), op.clock) == Before
  }

  /** Read your write: whatever the network loses, delays or reorders, and whichever targets of `u`
      lose their metadata, a full-quorum read after a successful write is not stale when W + R exceeds
      N + |u|, unless the resolver can be misled by the versions collected. With a read quorum of one
      or two it cannot. */
  lemma ReadYourWrite(op: Op, u: set<Addr>, replicas: map<Addr, Stored>, states: seq<State>, acts: seq<Action>)
    requires IsRun(op, replicas, states, acts) && op.w > 0 && op.r > 0 && op.w + op.r > |op.targets| + |u|
    requires forall k :: 0 <= k < |acts| ==> Kept(u, acts[k])
    ensures op.r <= 2 || TrapFree(Candidates(states[|acts|])) ==> !Stale(op, states[|acts|])
  {
    RunInv(op, u, replicas, states, acts, |acts|);
    var s := states[|acts|];
    if s.phase == ReadDone(true) && (op.r <= 2 || TrapFree(Candidates(s))) {
      CandidatesBound(s);
      if op.r <= 2 {
        PairHasNoTrap(Candidates(s));
      }
      var i := FullQuorumHearsWrite(op, u, s);
      var vs := Versions(s.responses);
      assert vs[i] in vs;
      TrapFreeWinner(vs, Candidates(s));
    }
  }

  // ---------------------------------------------------------------- what the operations return

  /** Whose success the write has taken from its channel during the first `i` steps. */
  ghost function TakenAcks(states: seq<State>, acts: seq<Action>, i: nat): set<Addr>
    requires i <= |acts| && |states| == |acts| + 1
  {
    if i == 0 then {} else TakenAcks(states, acts, i - 1) + TakenAck(states[i - 1], acts[i - 1])
  }

  ghost function TakenAck(s: State, a: Action): set<Addr> {
    if a.TakeAck? && s.ackCh != [] && s.ackCh[0].success then {s.ackCh[0].from} else {}
  }

  /** The replies with metadata that the read has taken from its channel during the first `i` steps. */
  ghost function TakenReplies(states: seq<State>, acts: seq<Action>, i: nat): seq<Response>
    requires i <= |acts| && |states| == |acts| + 1
  {
    if i == 0 then [] else TakenReplies(states, acts, i - 1) + TakenReply(states[i - 1], acts[i - 1])
  }

  ghost function TakenReply(s: State, a: Action): seq<Response> {
    if a.TakeReply? && s.respCh != [] && s.respCh[0].found then [s.respCh[0]] else []
  }

  ghost predicate Outcome(op: Op, s: State, acks: set<Addr>, replies: seq<Response>) {
    && s.counted == acks && s.responses == replies
    && (s.phase.Writing? || s.phase.WriteFailed? <==> |acks| < op.w)
    && (s.phase.Writing? || s.phase.WriteFailed? || s.phase.WriteOk? || s.phase.ReadFailed? ==> replies == [])
    && (s.phase.Reading? ==> |replies| < op.r)
    && (s.phase.ReadDone? ==> replies != [] && (s.phase.full <==> |replies| >= op.r))
  }

  lemma AckOutcome(op: Op, s: State, acks: set<Addr>, replies: seq<Response>)
    requires Outcome(op, s, acks, replies) && Enabled(op, s, TakeAck)
    ensures Outcome(op, Apply(op, s, TakeAck), acks + TakenAck(s, TakeAck), replies)
  {
  }

  lemma ReplyOutcome(op: Op, s: State, acks: set<Addr>, replies: seq<Response>)
    requires op.r > 0 && Outcome(op, s, acks, replies) && Enabled(op, s, TakeReply)
    ensures Outcome(op, Apply(op, s, TakeReply), acks, replies + TakenReply(s, TakeReply))
  {
  }

  lemma OtherOutcome(op: Op, s: State, a: Action, acks: set<Addr>, replies: seq<Response>)
    requires op.r > 0 && Outcome(op, s, acks, replies) && Enabled(op, s, a) && !a.TakeAck? && !a.TakeReply?
    ensures Outcome(op, Apply(op, s, a), acks, replies)
  {
  }

  lemma StepOutcome(op: Op, s: State, a: Action, acks: set<Addr>, replies: seq<Response>)
    requires op.r > 0 && Outcome(op, s, acks, replies) && Enabled(op, s, a)
    ensures Outcome(op, Apply(op, s, a), acks + TakenAck(s, a), replies + TakenReply(s, a))
  {
    assert acks + {} == acks && replies + [] == replies;
    match a
    case TakeAck => AckOutcome(op, s, acks, replies);
    case TakeReply => ReplyOutcome(op, s, acks, replies);
    case _ => OtherOutcome(op, s, a, acks, replies);
  }

  /** The write succeeds exactly when W targets' successes were taken before its deadline; the read fails
      exactly when its deadline passes without a reply that has metadata, returns what it has at the
      deadline, and is full exactly with R replies. */
  lemma {:induction false} Outcomes(op: Op, replicas: map<Addr, Stored>, states: seq<State>, acts: seq<Action>, i: nat)
    requires IsRun(op, replicas, states, acts) && i <= |acts| && op.w > 0 && op.r > 0
    ensures Outcome(op, states[i], TakenAcks(states, acts, i), TakenReplies(states, acts, i))
  {
    if i > 0 {
      Outcomes(op, replicas, states, acts, i - 1);
      StepOutcome(op, states[i - 1], acts[i - 1], TakenAcks(states, acts, i - 1), TakenReplies(states, acts, i - 1));
    }
  }

  // ---------------------------------------------------------------- an acknowledgement means an entry

  /** Whoever acknowledged has metadata for the key, its own write of it failed or not, and finds it when asked. */
  ghost predicate Entries(s: State) {
    && (forall a :: a in s.acks && s.acks[a] ==> a in s.replicas)
    && (forall i :: 0 <= i < |s.ackCh| && s.ackCh[i].success ==> s.ackCh[i].from in s.replicas)
    && s.counted <= s.replicas.Keys
    && (forall a :: a in s.replies && a in s.counted ==> s.replies[a].found)
    && (forall i :: 0 <= i < |s.respCh| && s.respCh[i].from in s.counted ==> s.respCh[i].found)
    && (s.phase.Writing? || s.phase.WriteOk? || s.phase.WriteFailed? ==> s.probes == {} && s.replies == map[] && s.respCh == [])
  }

  lemma WriteEntries(op: Op, s: State, t: Addr, ok: bool, stored: bool, ts: int)
    requires Entries(s) && Enabled(op, s, DeliverWrite(t, ok, stored, ts))
    ensures Entries(Apply(op, s, DeliverWrite(t, ok, stored, ts)))
  {
    assert s.replicas.Keys <= Apply(op, s, DeliverWrite(t, ok, stored, ts)).replicas.Keys;
  }

  lemma WriteSideEntries(op: Op, s: State, a: Action)
    requires Entries(s) && Enabled(op, s, a) && !ReadSide(a) && !a.DeliverWrite?
    ensures Entries(Apply(op, s, a))
  {
  }

  lemma DeliverReplyEntries(op: Op, s: State, t: Addr)
    requires Entries(s) && OneReplyEach(op, s) && Enabled(op, s, DeliverReply(t))
    ensures Entries(Apply(op, s, DeliverReply(t)))
  {
  }

  lemma TakeReplyEntries(op: Op, s: State)
    requires Entries(s) && Enabled(op, s, TakeReply)
    ensures Entries(Apply(op, s, TakeReply))
  {
  }

  lemma ReadSideEntries(op: Op, s: State, a: Action)
    requires Entries(s) && Enabled(op, s, a) && ReadSide(a) && !a.DeliverReply? && !a.TakeReply?
    ensures Entries(Apply(op, s, a))
  {
  }

  lemma StepEntries(op: Op, s: State, a: Action)
    requires Entries(s) && OneReplyEach(op, s) && Enabled(op, s, a)
    ensures Entries(Apply(op, s, a))
  {
    if a.DeliverReply? {
      DeliverReplyEntries(op, s, a.a);
    } else if a.TakeReply? {
      TakeReplyEntries(op, s);
    } else if ReadSide(a) {
      ReadSideEntries(op, s, a);
    } else if a.DeliverWrite? {
      WriteEntries(op, s, a.a, a.ok, a.stored, a.timestamp);
    } else {
      WriteSideEntries(op, s, a);
    }
  }

  /** In every run a target whose acknowledgement was counted has an entry and answers the read with it. */
  lemma {:induction false} AcknowledgedAnswer(op: Op, replicas: map<Addr, Stored>, states: seq<State>, acts: seq<Action>, i: nat)
    requires IsRun(op, replicas, states, acts) && i <= |acts| && op.w > 0 && op.r > 0
    ensures Entries(states[i])
  {
    if i > 0 {
      AcknowledgedAnswer(op, replicas, states, acts, i - 1);
      AnyRunInv(op, replicas, states, acts, i - 1);
      StepEntries(op, states[i - 1], acts[i - 1]);
    }
  }
}
