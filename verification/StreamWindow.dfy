/** The sliding-window ordered stream (Server/downloader/downloader.go, DownloadToStream) as a
    transition system: one main goroutine, one worker goroutine per dispatched chunk, the bounded
    `results` channel and the `sem` semaphore. Every step is chosen by an arbitrary scheduler. */
module StreamWindow {
  import opened Common
  import opened Indices
  import opened Sha256
  import opened Chunker
  import opened ChunkFetch

  /** One call: the manifest's chunks, its root, and cfg.MaxParallel. */
  datatype Job = Job(infos: seq<ChunkInfo>, root: Digest, windowSize: nat)

  datatype Phase =
    | Fetching
    | Sending(outcome: Outcome)   // fetch finished, about to send on results
    | Releasing                   // result sent, deferred semaphore release pending
    | Exited

  datatype Worker = Worker(index: nat, phase: Phase)

  datatype Item = Item(index: nat, outcome: Outcome)

  datatype Main =
    | Dispatching                 // at the dispatch loop's test
    | Acquiring(idx: nat)         // index taken, waiting for a semaphore slot
    | Receiving                   // at the receive
    | Flushing                    // at the flush loop's test
    | Returned(ok: bool)

  datatype State = State(
    nextDispatch: nat,
    nextExpected: nat,
    workers: seq<Worker>,
    slots: nat,
    results: seq<Item>,
    window: map<nat, Bytes>,
    output: Bytes,
    main: Main)

  /** How a call to dst.Write ends: all bytes, or an error after `count` of them. */
  datatype WriteResult = WriteOk | WriteErr(count: nat)

  datatype Action =
    | TakeIndex
    | Spawn
    | EndDispatch
    | FetchDone(worker: nat, outcome: Outcome)
    | Send(worker: nat)
    | Release(worker: nat)
    | Receive(write: WriteResult)
    | Flush(write: WriteResult)
    | Finish

  function Init(job: Job): State {
    State(0, 0, [], 0, [], map[], [], if job.infos == [] then Returned(true) else Dispatching)
  }

  predicate WindowOpen(job: Job, s: State) {
    s.nextDispatch < |job.infos| && s.nextDispatch < s.nextExpected + job.windowSize
  }

  predicate WriteFits(write: WriteResult, data: Bytes) {
    write.WriteErr? ==> write.count <= |data|
  }

  ghost predicate Enabled(job: Job, s: State, a: Action) {
    match a
    case TakeIndex => s.main == Dispatching && WindowOpen(job, s)
    case Spawn => s.main.Acquiring? && s.slots < job.windowSize
    case EndDispatch => s.main == Dispatching && !WindowOpen(job, s)
    case FetchDone(k, o) =>
      k < |s.workers| && s.workers[k].phase == Fetching
      && s.workers[k].index < |job.infos| && Verified(job.infos[s.workers[k].index], o)
    case Send(k) => k < |s.workers| && s.workers[k].phase.Sending? && |s.results| < job.windowSize
    case Release(k) => k < |s.workers| && s.workers[k].phase == Releasing && s.slots > 0
    case Receive(write) =>
      s.main == Receiving && s.nextExpected < |job.infos| && |s.results| > 0
      && (s.results[0].outcome.Plain? ==> WriteFits(write, s.results[0].outcome.data))
    case Flush(write) =>
      s.main == Flushing && (s.nextExpected in s.window ==> WriteFits(write, s.window[s.nextExpected]))
    case Finish => s.main == Receiving && s.nextExpected >= |job.infos|
  }

  function Written(s: State, data: Bytes, write: WriteResult): State
    requires WriteFits(write, data)
  {
    match write
    case WriteOk => s.(output := s.output + data, nextExpected := s.nextExpected + 1, main := Flushing)
    case WriteErr(count) => s.(output := s.output + data[..count], main := Returned(false))
  }

  ghost function Apply(job: Job, s: State, a: Action): State
    requires Enabled(job, s, a)
  {
    match a
    case TakeIndex => s.(main := Acquiring(s.nextDispatch), nextDispatch := s.nextDispatch + 1)
    case Spawn => s.(slots := s.slots + 1, workers := s.workers + [Worker(s.main.idx, Fetching)], main := Dispatching)
    case EndDispatch => s.(main := Receiving)
    case FetchDone(k, o) => s.(workers := s.workers[k := s.workers[k].(phase := Sending(o))])
    case Send(k) =>
      s.(results := s.results + [Item(s.workers[k].index, s.workers[k].phase.outcome)],
         workers := s.workers[k := s.workers[k].(phase := Releasing)])
    case Release(k) => s.(workers := s.workers[k := s.workers[k].(phase := Exited)], slots := s.slots - 1)
    case Receive(write) =>
      var r := s.results[0];
      var s1 := s.(results := s.results[1..]);
      if r.outcome.Failed? then s1.(main := Returned(false))
      else if r.index == s.nextExpected then Written(s1, r.outcome.data, write)
      else s1.(window := s.window[r.index := r.outcome.data])
    case Flush(write) =>
      if s.nextExpected !in s.window then s.(main := Dispatching)
      else
        var data := s.window[s.nextExpected];
        if write.WriteOk? then Written(s.(window := s.window - {s.nextExpected}), data, write)
        else Written(s, data, write)
    case Finish => s.(main := Returned(job.root == Root(Leaves(job.infos))))
  }

  // ---------------------------------------------------------------- where the indices are

  function InFlight(s: State): set<nat> {
    set k: nat | k < |s.workers| && (s.workers[k].phase.Fetching? || s.workers[k].phase.Sending?)
  }

  function Queued(results: seq<Item>): set<nat> {
    set r | r in results :: r.index
  }

  function Held(s: State): set<nat> {
    if s.main.Acquiring? then {s.main.idx} else {}
  }

  predicate Disjoint4(a: set<nat>, b: set<nat>, c: set<nat>, d: set<nat>) {
    a !! b && a !! c && a !! d && b !! c && b !! d && c !! d
  }

  /** Every index of the window is in flight, queued, buffered or held by the dispatcher, and in
      only one of them. After an error return an index may be gone, but none is in two places. */
  ghost predicate Partition(s: State) {
    && Disjoint4(InFlight(s), Queued(s.results), s.window.Keys, Held(s))
    && InFlight(s) + Queued(s.results) + s.window.Keys + Held(s) <= Range(s.nextExpected, s.nextDispatch)
    && (!s.main.Returned? ==>
          InFlight(s) + Queued(s.results) + s.window.Keys + Held(s) == Range(s.nextExpected, s.nextDispatch))
    && (forall i, j :: 0 <= i < j < |s.results| ==> s.results[i].index != s.results[j].index)
  }

  ghost predicate Counters(job: Job, s: State) {
    && s.nextExpected <= s.nextDispatch <= |job.infos|
    && s.nextDispatch <= s.nextExpected + job.windowSize
    && |s.workers| == (if s.main.Acquiring? then s.nextDispatch - 1 else s.nextDispatch)
    && (s.main.Acquiring? ==> s.main.idx == s.nextDispatch - 1)
    && (forall k :: 0 <= k < |s.workers| ==> s.workers[k].index == k)
    && s.slots == Live(s.workers) <= job.windowSize
  }

  ghost predicate MainPoint(job: Job, s: State) {
    && (s.main.Dispatching? || s.main.Acquiring? || s.main.Receiving? ==> s.nextExpected !in s.window)
    && (s.main.Receiving? ==> !WindowOpen(job, s))
    && (s.main == Returned(true) ==> s.nextExpected == |job.infos|)
  }

  /** `parts` are contents with the manifest's hashes. */
  ghost predicate Matches(job: Job, parts: seq<Bytes>) {
    |parts| == |job.infos| && forall i :: 0 <= i < |parts| ==> Hex(Sum256(parts[i])) == job.infos[i].hash
  }

  ghost predicate Contents(job: Job, parts: seq<Bytes>, s: State)
    requires Matches(job, parts) && Counters(job, s)
  {
    && (forall k :: 0 <= k < |s.workers| && s.workers[k].phase.Sending? ==> Verified(job.infos[k], s.workers[k].phase.outcome))
    && (forall j :: 0 <= j < |s.results| ==>
          s.results[j].index < |parts| && Verified(job.infos[s.results[j].index], s.results[j].outcome))
    && (forall i :: i in s.window ==> i < |parts| && s.window[i] == parts[i])
    && s.output <= Flatten(parts)
    && (!s.main.Returned? || s.main.ok ==> s.output == Flatten(parts[..s.nextExpected]))
  }

  /** What holds whatever the manifest's hashes are, even ones no content has. */
  ghost predicate Shape(job: Job, s: State) {
    Partition(s) && Counters(job, s) && MainPoint(job, s)
  }

  ghost predicate Inv(job: Job, parts: seq<Bytes>, s: State) {
    Matches(job, parts) && Shape(job, s) && Contents(job, parts, s)
  }

  // ---------------------------------------------------------------- counting

  /** Workers that have not yet released their semaphore slot. */
  function Live(ws: seq<Worker>): nat {
    if ws == [] then 0 else Live(ws[..|ws| - 1]) + (if ws[|ws| - 1].phase.Exited? then 0 else 1)
  }

  function PhaseRank(p: Phase): nat {
    match p case Fetching => 6 case Sending(_) => 5 case Releasing => 1 case Exited => 0
  }

  function WorkerRank(ws: seq<Worker>): nat {
    if ws == [] then 0 else WorkerRank(ws[..|ws| - 1]) + PhaseRank(ws[|ws| - 1].phase)
  }

  lemma {:induction false} UpdateWorker(ws: seq<Worker>, k: nat, w: Worker)
    requires k < |ws|
    ensures WorkerRank(ws[k := w]) == WorkerRank(ws) - PhaseRank(ws[k].phase) + PhaseRank(w.phase)
    ensures Live(ws[k := w]) == Live(ws) - (if ws[k].phase.Exited? then 0 else 1) + (if w.phase.Exited? then 0 else 1)
    ensures !ws[k].phase.Exited? ==> Live(ws) > 0
  {
    var n := |ws| - 1;
    if k == n {
      assert ws[k := w][..n] == ws[..n];
    } else {
      UpdateWorker(ws[..n], k, w);
      assert ws[k := w][..n] == ws[..n][k := w];
    }
  }

  lemma AppendWorker(ws: seq<Worker>, w: Worker)
    ensures WorkerRank(ws + [w]) == WorkerRank(ws) + PhaseRank(w.phase)
    ensures Live(ws + [w]) == Live(ws) + (if w.phase.Exited? then 0 else 1)
  {
    assert (ws + [w])[..|ws|] == ws;
  }

  function Running(ws: seq<Worker>): set<nat> {
    set k: nat | k < |ws| && !ws[k].phase.Exited?
  }

  lemma RunningStep(ws: seq<Worker>)
    requires ws != []
    ensures |ws| - 1 !in Running(ws[..|ws| - 1])
    ensures ws[|ws| - 1].phase.Exited? ==> Running(ws) == Running(ws[..|ws| - 1])
    ensures !ws[|ws| - 1].phase.Exited? ==> Running(ws) == Running(ws[..|ws| - 1]) + {|ws| - 1}
  {
    var n := |ws| - 1;
    assert forall k :: 0 <= k < n ==> ws[..n][k] == ws[k];
  }

  lemma {:induction false} LiveSplit(ws: seq<Worker>)
    ensures Live(ws) == |Running(ws)|
  {
    if ws != [] {
      LiveSplit(ws[..|ws| - 1]);
      RunningStep(ws);
    } else {
      assert Running(ws) == {};
    }
  }

  lemma {:induction false} QueuedSize(results: seq<Item>)
    requires forall i, j :: 0 <= i < j < |results| ==> results[i].index != results[j].index
    ensures |Queued(results)| == |results|
  {
    if results != [] {
      QueuedSize(results[1..]);
      QueuedHead(results);
      forall r | r in results[1..] ensures r.index != results[0].index {
        var j :| 0 <= j < |results[1..]| && results[1..][j] == r;
        assert results[j + 1] == r;
      }
    }
  }

  lemma QueuedHead(results: seq<Item>)
    requires results != []
    ensures Queued(results) == {results[0].index} + Queued(results[1..])
  {
    assert results == [results[0]] + results[1..];
  }

  lemma QueuedAppend(results: seq<Item>, r: Item)
    ensures Queued(results + [r]) == Queued(results) + {r.index}
  {
    assert r in results + [r];
    forall x | x in results ensures x in results + [r] {}
  }

  /** The window bounds memory: in-flight fetches, queued results, buffered chunks and the held
      index together never exceed MaxParallel. */
  lemma WindowBound(job: Job, s: State)
    requires Shape(job, s)
    ensures |InFlight(s)| + |s.results| + |s.window| + |Held(s)| <= s.nextDispatch - s.nextExpected <= job.windowSize
  {
    QueuedSize(s.results);
    RangeSize(s.nextExpected, s.nextDispatch);
    var all := InFlight(s) + Queued(s.results) + s.window.Keys + Held(s);
    assert |all| == |InFlight(s)| + |Queued(s.results)| + |s.window.Keys| + |Held(s)|;
    SubsetSize(all, Range(s.nextExpected, s.nextDispatch));
  }

  /** When the main goroutine waits for a result the window is full: as many chunks as MaxParallel and the
      manifest allow are under way. */
  lemma WindowIsFull(job: Job, s: State)
    requires Shape(job, s) && s.main.Receiving?
    ensures s.nextDispatch == Min(|job.infos|, s.nextExpected + job.windowSize)
    ensures |InFlight(s)| + |s.results| + |s.window| == s.nextDispatch - s.nextExpected
  {
    QueuedSize(s.results);
    RangeSize(s.nextExpected, s.nextDispatch);
    var all := InFlight(s) + Queued(s.results) + s.window.Keys;
    assert all == Range(s.nextExpected, s.nextDispatch);
    assert |all| == |InFlight(s)| + |Queued(s.results)| + |s.window.Keys|;
  }

  // ---------------------------------------------------------------- every step keeps the invariant

  lemma InitShape(job: Job)
    ensures Shape(job, Init(job))
  {
    var s := Init(job);
    assert InFlight(s) == {} && Queued(s.results) == {} && Range(0, 0) == {};
  }

  lemma InitInv(job: Job, parts: seq<Bytes>)
    requires Matches(job, parts)
    ensures Inv(job, parts, Init(job))
  {
    InitShape(job);
    assert parts[..0] == [];
  }

  lemma SendPartition(job: Job, s: State, k: nat)
    requires Partition(s) && Counters(job, s) && Enabled(job, s, Send(k))
    ensures Partition(Apply(job, s, Send(k)))
  {
    var s' := Apply(job, s, Send(k));
    assert InFlight(s') == InFlight(s) - {k};
    assert k in InFlight(s);
    QueuedAppend(s.results, Item(k, s.workers[k].phase.outcome));
    forall j | 0 <= j < |s.results| ensures s.results[j].index != k {
      assert s.results[j] in s.results;
      assert s.results[j].index in Queued(s.results);
    }
  }

  lemma RangeHead(lo: nat, hi: nat)
    requires lo < hi
    ensures Range(lo, hi) == {lo} + Range(lo + 1, hi)
  {
  }

  /** The oldest queued index leaves the channel. */
  lemma PopQueued(results: seq<Item>)
    requires results != []
    requires forall i, j :: 0 <= i < j < |results| ==> results[i].index != results[j].index
    ensures Queued(results) == {results[0].index} + Queued(results[1..])
    ensures results[0].index !in Queued(results[1..])
    ensures forall i, j :: 0 <= i < j < |results[1..]| ==> results[1..][i].index != results[1..][j].index
  {
    QueuedHead(results);
    forall x | x in results[1..] ensures x.index != results[0].index {
      var j :| 0 <= j < |results[1..]| && results[1..][j] == x;
      assert results[j + 1] == x;
    }
  }

  lemma ReceivePartition(job: Job, s: State, write: WriteResult)
    requires Partition(s) && Counters(job, s) && Enabled(job, s, Receive(write))
    ensures Partition(Apply(job, s, Receive(write)))
  {
    var s' := Apply(job, s, Receive(write));
    assert InFlight(s') == InFlight(s);
    PopQueued(s.results);
    var r := s.results[0];
    assert r.index in Range(s.nextExpected, s.nextDispatch);
    RangeHead(s.nextExpected, s.nextDispatch);
    if r.outcome.Plain? && r.index != s.nextExpected {
      assert s'.window.Keys == s.window.Keys + {r.index};
    }
  }

  lemma FlushPartition(job: Job, s: State, write: WriteResult)
    requires Partition(s) && Counters(job, s) && Enabled(job, s, Flush(write))
    ensures Partition(Apply(job, s, Flush(write)))
  {
    var s' := Apply(job, s, Flush(write));
    assert InFlight(s') == InFlight(s);
    if s.nextExpected in s.window {
      assert s.nextExpected in Range(s.nextExpected, s.nextDispatch);
      RangeHead(s.nextExpected, s.nextDispatch);
      if write.WriteOk? {
        assert s'.window.Keys == s.window.Keys - {s.nextExpected};
      }
    }
  }

  lemma StepPartition(job: Job, s: State, a: Action)
    requires Partition(s) && Counters(job, s) && Enabled(job, s, a)
    ensures Partition(Apply(job, s, a))
  {
    match a
    case TakeIndex =>
      assert InFlight(Apply(job, s, a)) == InFlight(s);
      assert Range(s.nextExpected, s.nextDispatch + 1) == Range(s.nextExpected, s.nextDispatch) + {s.nextDispatch};
    case Spawn => assert InFlight(Apply(job, s, a)) == InFlight(s) + {s.main.idx};
    case Send(k) => SendPartition(job, s, k);
    case Receive(write) => ReceivePartition(job, s, write);
    case Flush(write) => FlushPartition(job, s, write);
    case _ => assert InFlight(Apply(job, s, a)) == InFlight(s);
  }

  lemma WorkerCounters(job: Job, s: State, k: nat, phase: Phase)
    requires Counters(job, s) && k < |s.workers|
    ensures var ws := s.workers[k := s.workers[k].(phase := phase)];
      && (forall i :: 0 <= i < |ws| ==> ws[i].index == i)
      && Live(ws) == s.slots - (if s.workers[k].phase.Exited? then 0 else 1) + (if phase.Exited? then 0 else 1)
  {
    UpdateWorker(s.workers, k, s.workers[k].(phase := phase));
  }

  lemma ReceiveCounters(job: Job, s: State, write: WriteResult)
    requires Partition(s) && Counters(job, s) && MainPoint(job, s) && Enabled(job, s, Receive(write))
    ensures Counters(job, Apply(job, s, Receive(write))) && MainPoint(job, Apply(job, s, Receive(write)))
  {
    PopQueued(s.results);
    assert s.results[0].index in Range(s.nextExpected, s.nextDispatch);
  }

  lemma FlushCounters(job: Job, s: State, write: WriteResult)
    requires Partition(s) && Counters(job, s) && MainPoint(job, s) && Enabled(job, s, Flush(write))
    ensures Counters(job, Apply(job, s, Flush(write))) && MainPoint(job, Apply(job, s, Flush(write)))
  {
    if s.nextExpected in s.window {
      assert s.nextExpected in Range(s.nextExpected, s.nextDispatch);
    }
  }

  lemma SpawnCounters(job: Job, s: State)
    requires Counters(job, s) && MainPoint(job, s) && Enabled(job, s, Spawn)
    ensures Counters(job, Apply(job, s, Spawn)) && MainPoint(job, Apply(job, s, Spawn))
  {
    AppendWorker(s.workers, Worker(s.main.idx, Fetching));
  }

  lemma StepCounters(job: Job, s: State, a: Action)
    requires Partition(s) && Counters(job, s) && MainPoint(job, s) && Enabled(job, s, a)
    ensures Counters(job, Apply(job, s, a)) && MainPoint(job, Apply(job, s, a))
  {
    match a
    case TakeIndex =>
    case Spawn => SpawnCounters(job, s);
    case EndDispatch =>
    case FetchDone(k, o) => WorkerCounters(job, s, k, Sending(o));
    case Send(k) => WorkerCounters(job, s, k, Releasing);
    case Release(k) => WorkerCounters(job, s, k, Exited);
    case Receive(write) => ReceiveCounters(job, s, write);
    case Flush(write) => FlushCounters(job, s, write);
    case Finish =>
  }

  lemma WriteKeepsPrefix(parts: seq<Bytes>, k: nat, count: nat)
    requires k < |parts| && count <= |parts[k]|
    ensures Flatten(parts[..k]) + parts[k] == Flatten(parts[..k + 1])
    ensures Flatten(parts[..k]) + parts[k] <= Flatten(parts)
    ensures Flatten(parts[..k]) + parts[k][..count] <= Flatten(parts)
  {
    FlattenTake(parts, k);
    FlattenPrefix(parts, k + 1);
    var before, whole := Flatten(parts[..k]), Flatten(parts[..k + 1]);
    assert before + parts[k][..count] == whole[..|before| + count];
  }

  lemma WrittenContents(job: Job, parts: seq<Bytes>, s: State, write: WriteResult)
    requires Matches(job, parts) && Counters(job, s) && s.nextExpected < |parts|
    requires Contents(job, parts, s) && !s.main.Returned?
    requires WriteFits(write, parts[s.nextExpected])
    requires Counters(job, Written(s, parts[s.nextExpected], write))
    ensures Contents(job, parts, Written(s, parts[s.nextExpected], write))
  {
    WriteKeepsPrefix(parts, s.nextExpected, if write.WriteErr? then write.count else 0);
  }

  lemma ReceiveContents(job: Job, parts: seq<Bytes>, s: State, write: WriteResult)
    requires Matches(job, parts) && Counters(job, s) && Contents(job, parts, s)
    requires Enabled(job, s, Receive(write)) && Counters(job, Apply(job, s, Receive(write)))
    ensures Contents(job, parts, Apply(job, s, Receive(write)))
  {
    var r := s.results[0];
    assert Verified(job.infos[r.index], r.outcome);
    if r.outcome.Plain? && r.index == s.nextExpected {
      WrittenContents(job, parts, s.(results := s.results[1..]), write);
    }
  }

  lemma FlushContents(job: Job, parts: seq<Bytes>, s: State, write: WriteResult)
    requires Matches(job, parts) && Counters(job, s) && Contents(job, parts, s)
    requires Enabled(job, s, Flush(write)) && Counters(job, Apply(job, s, Flush(write)))
    ensures Contents(job, parts, Apply(job, s, Flush(write)))
  {
    if s.nextExpected in s.window {
      var s1 := if write.WriteOk? then s.(window := s.window - {s.nextExpected}) else s;
      assert Contents(job, parts, s1);
      WrittenContents(job, parts, s1, write);
    }
  }

  lemma SendContents(job: Job, parts: seq<Bytes>, s: State, k: nat)
    requires Matches(job, parts) && Counters(job, s) && Contents(job, parts, s)
    requires Enabled(job, s, Send(k)) && Counters(job, Apply(job, s, Send(k)))
    ensures Contents(job, parts, Apply(job, s, Send(k)))
  {
    assert s.workers[k].index == k;
  }

  lemma MainContents(job: Job, parts: seq<Bytes>, s: State, a: Action)
    requires Matches(job, parts) && Counters(job, s) && Contents(job, parts, s) && MainPoint(job, s)
    requires a.TakeIndex? || a.Spawn? || a.EndDispatch? || a.Finish?
    requires Enabled(job, s, a) && Counters(job, Apply(job, s, a))
    ensures Contents(job, parts, Apply(job, s, a))
  {
  }

  lemma StepContents(job: Job, parts: seq<Bytes>, s: State, a: Action)
    requires Matches(job, parts) && Counters(job, s) && Contents(job, parts, s) && MainPoint(job, s)
    requires Enabled(job, s, a) && Counters(job, Apply(job, s, a))
    ensures Contents(job, parts, Apply(job, s, a))
  {
    match a
    case FetchDone(k, o) =>
    case Release(k) =>
    case Send(k) => SendContents(job, parts, s, k);
    case Receive(write) => ReceiveContents(job, parts, s, write);
    case Flush(write) => FlushContents(job, parts, s, write);
    case _ => MainContents(job, parts, s, a);
  }

  lemma StepShape(job: Job, s: State, a: Action)
    requires Shape(job, s) && Enabled(job, s, a)
    ensures Shape(job, Apply(job, s, a))
  {
    StepPartition(job, s, a);
    StepCounters(job, s, a);
  }

  lemma StepInv(job: Job, parts: seq<Bytes>, s: State, a: Action)
    requires Inv(job, parts, s) && Enabled(job, s, a)
    ensures Inv(job, parts, Apply(job, s, a))
  {
    StepShape(job, s, a);
    StepContents(job, parts, s, a);
  }

  // ---------------------------------------------------------------- nobody waits forever

  /** A worker that has a result to send always finds room, even after an early error return. */
  lemma SendNeverBlocks(job: Job, s: State, k: nat)
    requires Shape(job, s) && k < |s.workers| && s.workers[k].phase.Sending?
    ensures Enabled(job, s, Send(k))
  {
    WindowBound(job, s);
    assert k in InFlight(s);
    SubsetSize({k}, InFlight(s));
  }

  /** Whenever the main goroutine waits on an empty channel, a worker is on its way with the very
      chunk it needs next. */
  lemma ReceiveSatisfiable(job: Job, s: State)
    requires Shape(job, s) && job.windowSize > 0
    requires s.main.Receiving? && s.nextExpected < |job.infos| && s.results == []
    ensures s.nextExpected in InFlight(s)
  {
    assert s.nextExpected in Range(s.nextExpected, s.nextDispatch);
  }

  /** When the dispatcher waits for a semaphore slot, a worker is about to release one. */
  lemma AcquireSatisfiable(job: Job, s: State) returns (k: nat)
    requires Shape(job, s) && s.main.Acquiring? && s.slots >= job.windowSize
    ensures k < |s.workers| && Enabled(job, s, Release(k))
  {
    WindowBound(job, s);
    LiveSplit(s.workers);
    var live := Running(s.workers);
    assert |Held(s)| == 1;
    if live <= InFlight(s) {
      SubsetSize(live, InFlight(s));
      assert false;
    }
    k :| k in live && k !in InFlight(s);
  }

  /** A step that some goroutine can take now. */
  lemma Progress(job: Job, s: State) returns (a: Action)
    requires Shape(job, s) && job.windowSize > 0
    requires !s.main.Returned? || exists k :: 0 <= k < |s.workers| && s.workers[k].phase != Exited
    ensures Enabled(job, s, a)
  {
    if k :| 0 <= k < |s.workers| && s.workers[k].phase != Exited {
      match s.workers[k].phase
      case Fetching => a := FetchDone(k, Failed);
      case Sending(_) => SendNeverBlocks(job, s, k); a := Send(k);
      case Releasing => UpdateWorker(s.workers, k, s.workers[k].(phase := Exited)); a := Release(k);
    } else {
      match s.main
      case Dispatching => a := if WindowOpen(job, s) then TakeIndex else EndDispatch;
      case Acquiring(_) =>
        if s.slots >= job.windowSize {
          var k := AcquireSatisfiable(job, s);
          a := Release(k);
        } else {
          a := Spawn;
        }
      case Receiving =>
        if s.nextExpected >= |job.infos| {
          a := Finish;
        } else {
          if s.results == [] {
            ReceiveSatisfiable(job, s);
            assert false;
          }
          a := Receive(WriteOk);
        }
      case Flushing => a := Flush(WriteOk);
    }
  }

  function MainRank(m: Main): nat {
    match m case Dispatching => 2 case Acquiring(_) => 9 case Receiving => 1 case Flushing => 3 case Returned(_) => 0
  }

  /** What is left to do; every step of every goroutine lowers it. */
  function Rank(job: Job, s: State): nat
    requires s.nextDispatch <= |job.infos|
  {
    8 * (|job.infos| - s.nextDispatch) + WorkerRank(s.workers) + 3 * |s.results| + |s.window| + MainRank(s.main)
  }

  lemma WorkerRankStep(job: Job, s: State, k: nat, phase: Phase)
    requires s.nextDispatch <= |job.infos| && k < |s.workers| && PhaseRank(phase) < PhaseRank(s.workers[k].phase)
    ensures Rank(job, s.(workers := s.workers[k := s.workers[k].(phase := phase)]))
      == Rank(job, s) - PhaseRank(s.workers[k].phase) + PhaseRank(phase)
  {
    UpdateWorker(s.workers, k, s.workers[k].(phase := phase));
  }

  lemma BufferedRank(window: map<nat, Bytes>, i: nat, data: Bytes)
    ensures |window[i := data]| <= |window| + 1
  {
    assert window[i := data].Keys == window.Keys + {i};
  }

  lemma ReceiveRank(job: Job, s: State, write: WriteResult)
    requires s.nextDispatch <= |job.infos| && Enabled(job, s, Receive(write))
    ensures Rank(job, Apply(job, s, Receive(write))) < Rank(job, s)
  {
    var r := s.results[0];
    if r.outcome.Plain? {
      BufferedRank(s.window, r.index, r.outcome.data);
    }
  }

  lemma FlushRank(job: Job, s: State, write: WriteResult)
    requires s.nextDispatch <= |job.infos| && Enabled(job, s, Flush(write))
    ensures Rank(job, Apply(job, s, Flush(write))) < Rank(job, s)
  {
    if s.nextExpected in s.window {
      assert (s.window - {s.nextExpected}).Keys == s.window.Keys - {s.nextExpected};
    }
  }

  lemma StepRank(job: Job, s: State, a: Action)
    requires s.nextDispatch <= |job.infos| && Enabled(job, s, a)
    ensures Apply(job, s, a).nextDispatch <= |job.infos|
    ensures Rank(job, Apply(job, s, a)) < Rank(job, s)
  {
    match a
    case TakeIndex =>
    case Spawn => AppendWorker(s.workers, Worker(s.main.idx, Fetching));
    case EndDispatch =>
    case FetchDone(k, o) => WorkerRankStep(job, s, k, Sending(o));
    case Send(k) => WorkerRankStep(job, s, k, Releasing);
    case Release(k) => WorkerRankStep(job, s, k, Exited);
    case Receive(write) => ReceiveRank(job, s, write);
    case Flush(write) => FlushRank(job, s, write);
    case Finish =>
  }

  // ---------------------------------------------------------------- whole runs

  ghost predicate IsRun(job: Job, states: seq<State>, acts: seq<Action>) {
    && |states| == |acts| + 1
    && states[0] == Init(job)
    && forall i :: 0 <= i < |acts| ==> Enabled(job, states[i], acts[i]) && states[i + 1] == Apply(job, states[i], acts[i])
  }

  lemma {:induction false} RunShape(job: Job, states: seq<State>, acts: seq<Action>, i: nat)
    requires IsRun(job, states, acts) && i <= |acts|
    ensures Shape(job, states[i])
    ensures i + Rank(job, states[i]) <= 8 * |job.infos| + 2
  {
    if i == 0 {
      InitShape(job);
    } else {
      RunShape(job, states, acts, i - 1);
      StepShape(job, states[i - 1], acts[i - 1]);
      StepRank(job, states[i - 1], acts[i - 1]);
    }
  }

  lemma {:induction false} RunInv(job: Job, parts: seq<Bytes>, states: seq<State>, acts: seq<Action>, i: nat)
    requires IsRun(job, states, acts) && Matches(job, parts) && i <= |acts|
    ensures Inv(job, parts, states[i])
  {
    if i == 0 {
      InitInv(job, parts);
    } else {
      RunInv(job, parts, states, acts, i - 1);
      StepInv(job, parts, states[i - 1], acts[i - 1]);
    }
  }

  /** For any manifest, whatever its hashes: every schedule ends within 8n + 2 steps, and one that can
      go no further has returned and left no worker behind. */
  lemma EveryRunReturns(job: Job, states: seq<State>, acts: seq<Action>)
    requires IsRun(job, states, acts) && job.windowSize > 0
    ensures |acts| <= 8 * |job.infos| + 2
    ensures var last := states[|acts|];
      (forall a :: !Enabled(job, last, a)) ==>
        last.main.Returned? && last.slots == 0 && forall k :: 0 <= k < |last.workers| ==> last.workers[k].phase == Exited
  {
    var last := states[|acts|];
    RunShape(job, states, acts, |acts|);
    if forall a :: !Enabled(job, last, a) {
      if !last.main.Returned? || exists k :: 0 <= k < |last.workers| && last.workers[k].phase != Exited {
        var a := Progress(job, last);
        assert false;
      }
      LiveSplit(last.workers);
      assert Running(last.workers) == {};
    }
  }

  /** A fetch comes back with an error, or a write to the output does. */
  ghost predicate Fails(s: State, a: Action) {
    match a
    case FetchDone(_, o) => o.Failed?
    case Receive(w) => w.WriteErr? && s.results != [] && s.results[0].outcome.Plain? && s.results[0].index == s.nextExpected
    case Flush(w) => w.WriteErr? && s.nextExpected in s.window
    case _ => false
  }

  /** Some fetch or write failed during the first `i` steps. */
  ghost predicate FailedBy(states: seq<State>, acts: seq<Action>, i: nat)
    requires i <= |acts| && |states| == |acts| + 1
  {
    i > 0 && (FailedBy(states, acts, i - 1) || Fails(states[i - 1], acts[i - 1]))
  }

  ghost predicate NoFailure(job: Job, s: State) {
    && (forall k :: 0 <= k < |s.workers| && s.workers[k].phase.Sending? ==> s.workers[k].phase.outcome.Plain?)
    && (forall j :: 0 <= j < |s.results| ==> s.results[j].outcome.Plain?)
    && (s.main == Returned(false) ==> job.root != Root(Leaves(job.infos)))
  }

  /** The trace of a failure: a worker or the channel carries it, or the call has returned it. */
  ghost predicate Tainted(s: State) {
    || (exists k :: 0 <= k < |s.workers| && s.workers[k].phase == Sending(Failed))
    || (exists j :: 0 <= j < |s.results| && s.results[j].outcome == Failed)
    || s.main == Returned(false)
  }

  ghost predicate RootChecked(job: Job, s: State) {
    && (s.main == Returned(true) && job.infos != [] ==> job.root == Root(Leaves(job.infos)))
    && (job.infos == [] ==> s.main == Returned(true) && s.workers == [])
  }

  lemma StepRootChecked(job: Job, s: State, a: Action)
    requires RootChecked(job, s) && Enabled(job, s, a)
    ensures RootChecked(job, Apply(job, s, a))
  {
  }

  lemma StepNoFailure(job: Job, s: State, a: Action)
    requires NoFailure(job, s) && Enabled(job, s, a) && !Fails(s, a)
    ensures NoFailure(job, Apply(job, s, a))
  {
  }

  lemma ReceiveTaint(job: Job, s: State, write: WriteResult)
    requires Enabled(job, s, Receive(write)) && (Tainted(s) || Fails(s, Receive(write)))
    ensures Tainted(Apply(job, s, Receive(write)))
  {
    var s' := Apply(job, s, Receive(write));
    if j :| 0 <= j < |s.results| && s.results[j].outcome == Failed {
      if j > 0 {
        assert s'.results[j - 1] == s.results[j];
      }
    } else if k :| 0 <= k < |s.workers| && s.workers[k].phase == Sending(Failed) {
      assert s'.workers[k].phase == Sending(Failed);
    }
  }

  lemma WorkerTaint(job: Job, s: State, a: Action)
    requires (a.FetchDone? || a.Send? || a.Release?) && Enabled(job, s, a) && (Tainted(s) || Fails(s, a))
    ensures Tainted(Apply(job, s, a))
  {
    var s' := Apply(job, s, a);
    if a.FetchDone? && a.outcome.Failed? {
      assert s'.workers[a.worker].phase == Sending(Failed);
    } else if k :| 0 <= k < |s.workers| && s.workers[k].phase == Sending(Failed) {
      if a == Send(k) {
        assert s'.results[|s.results|].outcome == Failed;
      } else {
        assert s'.workers[k].phase == Sending(Failed);
      }
    } else if j :| 0 <= j < |s.results| && s.results[j].outcome == Failed {
      assert s'.results[j].outcome == Failed;
    }
  }

  lemma MainTaint(job: Job, s: State, a: Action)
    requires !a.FetchDone? && !a.Send? && !a.Release? && !a.Receive? && Enabled(job, s, a) && Shape(job, s)
    requires Tainted(s) || Fails(s, a)
    ensures Tainted(Apply(job, s, a))
  {
    var s' := Apply(job, s, a);
    if k :| 0 <= k < |s.workers| && s.workers[k].phase == Sending(Failed) {
      assert k in InFlight(s);
      assert k in Range(s.nextExpected, s.nextDispatch);
      assert s'.workers[k].phase == Sending(Failed);
    } else if j :| 0 <= j < |s.results| && s.results[j].outcome == Failed {
      assert s'.results[j].outcome == Failed;
    }
  }

  lemma StepTaint(job: Job, s: State, a: Action)
    requires Shape(job, s) && Enabled(job, s, a)
    ensures Tainted(s) || Fails(s, a) ==> Tainted(Apply(job, s, a))
  {
    if Tainted(s) || Fails(s, a) {
      match a
      case Receive(write) => ReceiveTaint(job, s, write);
      case FetchDone(_, _) => WorkerTaint(job, s, a);
      case Send(_) => WorkerTaint(job, s, a);
      case Release(_) => WorkerTaint(job, s, a);
      case _ => MainTaint(job, s, a);
    }
  }

  lemma StepRunFailures(job: Job, s: State, a: Action, failed: bool)
    requires Shape(job, s) && RootChecked(job, s) && Enabled(job, s, a) && if failed then Tainted(s) else NoFailure(job, s)
    ensures RootChecked(job, Apply(job, s, a))
    ensures if failed || Fails(s, a) then Tainted(Apply(job, s, a)) else NoFailure(job, Apply(job, s, a))
  {
    StepRootChecked(job, s, a);
    StepTaint(job, s, a);
    if !failed && !Fails(s, a) {
      StepNoFailure(job, s, a);
    }
  }

  lemma {:induction false} RunFailures(job: Job, states: seq<State>, acts: seq<Action>, i: nat)
    requires IsRun(job, states, acts) && i <= |acts|
    ensures RootChecked(job, states[i])
    ensures if FailedBy(states, acts, i) then Tainted(states[i]) else NoFailure(job, states[i])
  {
    if i > 0 {
      RunFailures(job, states, acts, i - 1);
      RunShape(job, states, acts, i - 1);
      StepRunFailures(job, states[i - 1], acts[i - 1], FailedBy(states, acts, i - 1));
    }
  }

  /** A call that returned nil has nothing on its way any more. */
  lemma NothingLeft(job: Job, s: State)
    requires Shape(job, s) && s.main == Returned(true)
    ensures !Tainted(s)
  {
    assert Range(s.nextExpected, s.nextDispatch) == {};
    assert InFlight(s) == {} && Queued(s.results) == {};
    forall k | 0 <= k < |s.workers| ensures s.workers[k].phase.Sending? ==> k in InFlight(s) {}
    forall j | 0 <= j < |s.results| ensures s.results[j].index in Queued(s.results) {}
  }

  /** Under every schedule and for any manifest with chunks, the call returns nil exactly when no fetch and no
      write failed and the manifest's root is that of its chunk list. */
  lemma NilIff(job: Job, states: seq<State>, acts: seq<Action>)
    requires IsRun(job, states, acts) && states[|acts|].main.Returned?
    ensures states[|acts|].main.ok <==>
            job.infos == [] || (!FailedBy(states, acts, |acts|) && job.root == Root(Leaves(job.infos)))
  {
    RunShape(job, states, acts, |acts|);
    RunFailures(job, states, acts, |acts|);
    if states[|acts|].main.ok {
      NothingLeft(job, states[|acts|]);
    }
  }

  /** Under every schedule: a nil return means the whole file was written in order, an error return leaves
      a prefix of it, and without failures a genuine manifest returns nil. */
  lemma StreamRuns(job: Job, parts: seq<Bytes>, states: seq<State>, acts: seq<Action>)
    requires IsRun(job, states, acts) && Matches(job, parts)
    ensures var last := states[|acts|];
      && last.output <= Flatten(parts)
      && (last.main == Returned(true) ==> last.output == Flatten(parts))
      && (!FailedBy(states, acts, |acts|) && job.root == Root(Leaves(job.infos)) ==> last.main != Returned(false))
  {
    RunInv(job, parts, states, acts, |acts|);
    RunFailures(job, states, acts, |acts|);
    if states[|acts|].main == Returned(true) {
      assert parts[..|parts|] == parts;
    }
  }

  /** For the manifest of a real file the stream is that file. */
  lemma StreamDeliversFile(job: Job, data: Bytes, cs: nat, states: seq<State>, acts: seq<Action>)
    requires cs > 0 && Describes(job.infos, data, cs)
    requires IsRun(job, states, acts) && states[|acts|].main == Returned(true)
    ensures states[|acts|].output == data
  {
    StreamRuns(job, Split(data, cs), states, acts);
    FlattenSplit(data, cs);
  }
}
