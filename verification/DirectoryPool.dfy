/** Directory download: one global pool of chunk tasks, drained by concurrent workers in rounds, with
    failed chunks retried in the next round (Server/downloader/downloader.go, DownloadDirectory). */
module DirectoryPool {
  import opened Common
  import opened Indices
  import opened Sha256
  import opened Chunker
  import opened ChunkFetch

  /** One file's context: its manifest's chunks and root, and the chunks already verified on disk. */
  datatype FileSpec = FileSpec(infos: seq<ChunkInfo>, root: Digest, skip: set<nat>)

  datatype Job = Job(files: seq<FileSpec>, workers: nat, maxRetries: nat)

  datatype Task = Task(file: nat, chunk: nat)

  datatype Phase =
    | Idle                               // at `range queue`
    | Holding(task: Task)                // received, before the ctx check
    | Fetching(task: Task)
    | Fetched(task: Task, data: Bytes)   // before WriteAt
    | Landed(task: Task)                 // written, before Remaining.Add(-1)
    | Last(file: nat)                    // saw Remaining reach 0, before FinalizeOnce
    | Exited

  datatype Main = Between | Running | Collected

  datatype Event = Wrote(task: Task) | Finalized(file: nat)

  datatype State = State(
    main: Main,
    round: nat,
    cancelled: bool,
    taskList: seq<Task>,
    queue: seq<Task>,
    workers: seq<Phase>,
    failed: seq<Task>,
    abandoned: seq<Task>,       // held or queued when the workers gave up
    counted: set<Task>,         // written and subtracted from Remaining
    disk: map<Task, Bytes>,
    remaining: seq<int>,
    finalizes: seq<nat>,        // how often OnFinalize ran
    finalizeErr: seq<bool>,
    log: seq<Event>)

  datatype Action =
    | Cancel
    | BeginRound
    | EndRound
    | Take(w: nat)
    | Drain(w: nat)
    | Check(w: nat)
    | Abandon(w: nat)
    | FetchDone(w: nat, outcome: Outcome)
    | Write(w: nat, ok: bool, torn: Bytes)   // a failed write leaves anything in its place
    | Count(w: nat)
    | Finalize(w: nat, renamed: bool)

  predicate IsTask(job: Job, t: Task) {
    t.file < |job.files| && t.chunk < |job.files[t.file].infos| && t.chunk !in job.files[t.file].skip
  }

  function FileTasks(job: Job, f: nat): set<Task>
    requires f < |job.files|
  {
    set i: nat | i < |job.files[f].infos| && i !in job.files[f].skip :: Task(f, i)
  }

  function TaskSet(job: Job): set<Task> {
    set f: nat, t | f < |job.files| && t in FileTasks(job, f) :: t
  }

  lemma TaskSetMembers(job: Job)
    ensures forall t :: t in TaskSet(job) <==> IsTask(job, t)
  {
    forall t | IsTask(job, t) ensures t in TaskSet(job) {
      assert t == Task(t.file, t.chunk);
      assert t in FileTasks(job, t.file);
    }
  }

  predicate Before(t: Task, u: Task) {
    t.file < u.file || (t.file == u.file && t.chunk < u.chunk)
  }

  /** The first task list: all chunks not in the skip sets, file by file and in the manifests' order. */
  method BuildTaskList(job: Job) returns (taskList: seq<Task>)
    ensures multiset(taskList) == multiset(TaskSet(job))
    ensures forall i, j :: 0 <= i < j < |taskList| ==> Before(taskList[i], taskList[j])
  {
    taskList := [];
    ghost var listed: set<Task> := {};
    for f := 0 to |job.files|
      invariant multiset(taskList) == multiset(listed)
      invariant forall t :: t in listed <==> IsTask(job, t) && t.file < f
      invariant forall t :: t in taskList ==> t.file < f
      invariant forall i, j :: 0 <= i < j < |taskList| ==> Before(taskList[i], taskList[j])
    {
      for i := 0 to |job.files[f].infos|
        invariant multiset(taskList) == multiset(listed)
        invariant forall t :: t in listed <==> IsTask(job, t) && (t.file < f || (t.file == f && t.chunk < i))
        invariant forall t :: t in taskList ==> Before(t, Task(f, i))
        invariant forall i, j :: 0 <= i < j < |taskList| ==> Before(taskList[i], taskList[j])
      {
        if i in job.files[f].skip {
          continue;
        }
        taskList := taskList + [Task(f, i)];
        listed := listed + {Task(f, i)};
      }
    }
    TaskSetMembers(job);
    assert TaskSet(job) == listed;
  }

  /** The server stores len(Chunks) - len(SkipSet) as the file's Remaining. */
  ghost predicate IsInit(job: Job, s: State) {
    && s.main == Between && s.round == 0 && s.queue == [] && s.workers == [] && s.failed == [] && s.abandoned == []
    && multiset(s.taskList) == multiset(TaskSet(job))
    && s.counted == {} && s.disk == map[] && s.log == []
    && |s.remaining| == |s.finalizes| == |s.finalizeErr| == |job.files|
    && (forall f :: 0 <= f < |job.files| ==>
         s.remaining[f] == |job.files[f].infos| - |job.files[f].skip| && s.finalizes[f] == 0 && !s.finalizeErr[f])
  }

  predicate AllExited(ws: seq<Phase>) {
    forall k :: 0 <= k < |ws| ==> ws[k] == Exited
  }

  predicate AnotherRound(job: Job, s: State) {
    s.round <= job.maxRetries && s.taskList != [] && !s.cancelled
  }

  ghost predicate Enabled(job: Job, s: State, a: Action) {
    match a
    case Cancel => !s.cancelled
    case BeginRound => s.main == Between
    case EndRound => s.main == Running && AllExited(s.workers)
    case Take(w) => w < |s.workers| && s.workers[w] == Idle && s.queue != []
    case Drain(w) => w < |s.workers| && s.workers[w] == Idle && s.queue == []
    case Check(w) => w < |s.workers| && s.workers[w].Holding? && !s.cancelled
    case Abandon(w) => w < |s.workers| && s.workers[w].Holding? && s.cancelled
    case FetchDone(w, o) =>
      w < |s.workers| && s.workers[w].Fetching? && IsTask(job, s.workers[w].task)
      && Verified(job.files[s.workers[w].task.file].infos[s.workers[w].task.chunk], o)
    case Write(w, ok, torn) => w < |s.workers| && s.workers[w].Fetched?
    case Count(w) => w < |s.workers| && s.workers[w].Landed? && s.workers[w].task.file < |s.remaining|
    case Finalize(w, renamed) =>
      w < |s.workers| && s.workers[w].Last? && s.workers[w].file < |job.files| == |s.finalizes| == |s.finalizeErr|
  }

  ghost function Apply(job: Job, s: State, a: Action): State
    requires Enabled(job, s, a)
  {
    match a
    case Cancel => s.(cancelled := true)
    case BeginRound =>
      if AnotherRound(job, s)
      then s.(main := Running, queue := s.taskList, taskList := [], failed := [], workers := seq(job.workers, _ => Idle))
      else s.(main := Collected)
    case EndRound =>
      s.(main := Between, round := s.round + 1, taskList := s.failed, failed := [], abandoned := s.abandoned + s.queue, queue := [])
    case Take(w) => s.(queue := s.queue[1..], workers := s.workers[w := Holding(s.queue[0])])
    case Drain(w) => s.(workers := s.workers[w := Exited])
    case Check(w) => s.(workers := s.workers[w := Fetching(s.workers[w].task)])
    case Abandon(w) => s.(workers := s.workers[w := Exited], abandoned := s.abandoned + [s.workers[w].task])
    case FetchDone(w, o) =>
      if o.Failed? then s.(failed := s.failed + [s.workers[w].task], workers := s.workers[w := Idle])
      else s.(workers := s.workers[w := Fetched(s.workers[w].task, o.data)])
    case Write(w, ok, torn) =>
      var t := s.workers[w].task;
      if ok
      then s.(disk := s.disk[t := s.workers[w].data], log := s.log + [Wrote(t)], workers := s.workers[w := Landed(t)])
      else s.(disk := s.disk[t := torn], failed := s.failed + [t], log := s.log + [Wrote(t)], workers := s.workers[w := Idle])
    case Count(w) =>
      var t := s.workers[w].task;
      var left := s.remaining[t.file] - 1;
      s.(remaining := s.remaining[t.file := left], counted := s.counted + {t},
         workers := s.workers[w := if left == 0 then Last(t.file) else Idle])
    case Finalize(w, renamed) =>
      var f := s.workers[w].file;
      if s.finalizes[f] > 0 then s.(workers := s.workers[w := Idle])
      else
        var err := !(job.files[f].root == Root(Leaves(job.files[f].infos)) && renamed);
        s.(finalizes := s.finalizes[f := 1], finalizeErr := s.finalizeErr[f := err], log := s.log + [Finalized(f)],
           workers := s.workers[w := Idle])
  }

  // ---------------------------------------------------------------- conservation of tasks

  function Holds(p: Phase, t: Task): nat {
    if (p.Holding? || p.Fetching? || p.Fetched? || p.Landed?) && p.task == t then 1 else 0
  }

  /** How many workers have `t` in hand: held, or written and not yet counted. */
  function Carried(ws: seq<Phase>, t: Task): nat {
    if ws == [] then 0 else Carried(ws[..|ws| - 1], t) + Holds(ws[|ws| - 1], t)
  }

  function Times(ts: seq<Task>, t: Task): nat {
    if ts == [] then 0 else Times(ts[..|ts| - 1], t) + (if ts[|ts| - 1] == t then 1 else 0)
  }

  function LastOf(p: Phase, f: nat): nat {
    if p == Last(f) then 1 else 0
  }

  function Lasts(ws: seq<Phase>, f: nat): nat {
    if ws == [] then 0 else Lasts(ws[..|ws| - 1], f) + LastOf(ws[|ws| - 1], f)
  }

  /** In how many places a task is: listed, queued, held, failed, abandoned or written. */
  function Places(s: State, t: Task): nat {
    Times(s.taskList, t) + Times(s.queue, t) + Carried(s.workers, t) + Times(s.failed, t) + Times(s.abandoned, t)
    + (if t in s.counted then 1 else 0)
  }

  lemma {:induction false} SwapCarried(ws: seq<Phase>, w: nat, p: Phase, t: Task)
    requires w < |ws|
    ensures Holds(ws[w], t) <= Carried(ws, t)
    ensures Carried(ws[w := p], t) == Carried(ws, t) - Holds(ws[w], t) + Holds(p, t)
  {
    var n := |ws| - 1;
    if w == n {
      assert ws[w := p][..n] == ws[..n];
    } else {
      SwapCarried(ws[..n], w, p, t);
      assert ws[w := p][..n] == ws[..n][w := p];
    }
  }

  lemma TimesAppend(ts: seq<Task>, x: Task, t: Task)
    ensures Times(ts + [x], t) == Times(ts, t) + (if x == t then 1 else 0)
  {
    assert (ts + [x])[..|ts|] == ts;
  }

  lemma {:induction false} TimesConcat(ts: seq<Task>, us: seq<Task>, t: Task)
    ensures Times(ts + us, t) == Times(ts, t) + Times(us, t)
  {
    if us == [] {
      assert ts + us == ts;
    } else {
      var n := |us| - 1;
      TimesConcat(ts, us[..n], t);
      TimesAppend(ts + us[..n], us[n], t);
      assert ts + us == ts + us[..n] + [us[n]];
    }
  }

  lemma TimesHead(ts: seq<Task>, t: Task)
    requires ts != []
    ensures Times(ts, t) == Times(ts[1..], t) + (if ts[0] == t then 1 else 0)
  {
    assert ts == [ts[0]] + ts[1..];
    TimesConcat([ts[0]], ts[1..], t);
    assert Times([ts[0]], t) == if ts[0] == t then 1 else 0 by {
      TimesAppend([], ts[0], t);
      assert [] + [ts[0]] == [ts[0]];
    }
  }

  lemma {:induction false} TimesIsMultiplicity(ts: seq<Task>, t: Task)
    ensures Times(ts, t) == multiset(ts)[t]
  {
    if ts != [] {
      TimesIsMultiplicity(ts[..|ts| - 1], t);
      assert ts == ts[..|ts| - 1] + [ts[|ts| - 1]];
    }
  }

  lemma {:induction false} SwapLasts(ws: seq<Phase>, w: nat, p: Phase, f: nat)
    requires w < |ws|
    ensures LastOf(ws[w], f) <= Lasts(ws, f)
    ensures Lasts(ws[w := p], f) == Lasts(ws, f) - LastOf(ws[w], f) + LastOf(p, f)
  {
    var n := |ws| - 1;
    if w == n {
      assert ws[w := p][..n] == ws[..n];
    } else {
      SwapLasts(ws[..n], w, p, f);
      assert ws[w := p][..n] == ws[..n][w := p];
    }
  }

  lemma {:induction false} IdleWorkers(ws: seq<Phase>)
    requires forall k :: 0 <= k < |ws| ==> ws[k] == Idle || ws[k] == Exited
    ensures forall t :: Carried(ws, t) == 0
    ensures forall f :: Lasts(ws, f) == 0
  {
    if ws != [] {
      IdleWorkers(ws[..|ws| - 1]);
    }
  }

  ghost predicate Phases(s: State) {
    && (s.main.Running? || AllExited(s.workers))
    && (!s.main.Running? ==> s.queue == [] && s.failed == [])
    && (s.main.Running? ==> s.taskList == [])
  }

  /** Each unskipped chunk is in exactly one place, and nothing else is anywhere. */
  ghost predicate Conserved(job: Job, s: State) {
    && (forall t :: Places(s, t) == if IsTask(job, t) then 1 else 0)
    && Phases(s)
  }

  lemma InitConserved(job: Job, s: State)
    requires IsInit(job, s)
    ensures Conserved(job, s)
  {
    TaskSetMembers(job);
    forall t ensures Places(s, t) == if IsTask(job, t) then 1 else 0 {
      TimesIsMultiplicity(s.taskList, t);
      assert multiset(TaskSet(job))[t] == if t in TaskSet(job) then 1 else 0;
    }
  }

  /** A task in a worker's hands is a real one, not yet counted. */
  lemma CarriedOnce(job: Job, s: State, w: nat, t: Task)
    requires Conserved(job, s) && w < |s.workers| && Holds(s.workers[w], t) == 1
    ensures t !in s.counted && IsTask(job, t)
  {
    SwapCarried(s.workers, w, Idle, t);
    assert Places(s, t) >= 1;
  }

  lemma TakeMove(job: Job, s: State, w: nat, t: Task)
    requires Enabled(job, s, Take(w))
    ensures Places(Apply(job, s, Take(w)), t) == Places(s, t)
  {
    SwapCarried(s.workers, w, Holding(s.queue[0]), t);
    TimesHead(s.queue, t);
  }

  lemma AbandonMove(job: Job, s: State, w: nat, t: Task)
    requires Enabled(job, s, Abandon(w))
    ensures Places(Apply(job, s, Abandon(w)), t) == Places(s, t)
  {
    SwapCarried(s.workers, w, Exited, t);
    TimesAppend(s.abandoned, s.workers[w].task, t);
  }

  lemma FetchMove(job: Job, s: State, w: nat, o: Outcome, t: Task)
    requires Enabled(job, s, FetchDone(w, o))
    ensures Places(Apply(job, s, FetchDone(w, o)), t) == Places(s, t)
  {
    if o.Failed? {
      SwapCarried(s.workers, w, Idle, t);
      TimesAppend(s.failed, s.workers[w].task, t);
    } else {
      SwapCarried(s.workers, w, Fetched(s.workers[w].task, o.data), t);
    }
  }

  lemma WriteMove(job: Job, s: State, w: nat, ok: bool, torn: Bytes, t: Task)
    requires Enabled(job, s, Write(w, ok, torn))
    ensures Places(Apply(job, s, Write(w, ok, torn)), t) == Places(s, t)
  {
    if ok {
      SwapCarried(s.workers, w, Landed(s.workers[w].task), t);
    } else {
      SwapCarried(s.workers, w, Idle, t);
      TimesAppend(s.failed, s.workers[w].task, t);
    }
  }

  lemma CountMove(job: Job, s: State, w: nat, t: Task)
    requires Conserved(job, s) && Enabled(job, s, Count(w))
    ensures Places(Apply(job, s, Count(w)), t) == Places(s, t)
  {
    CarriedOnce(job, s, w, s.workers[w].task);
    SwapCarried(s.workers, w, Apply(job, s, Count(w)).workers[w], t);
  }

  lemma WorkerMove(job: Job, s: State, a: Action, t: Task)
    requires Conserved(job, s) && Enabled(job, s, a)
    requires !a.Cancel? && !a.BeginRound? && !a.EndRound?
    ensures Places(Apply(job, s, a), t) == Places(s, t)
  {
    match a
    case Take(w) => TakeMove(job, s, w, t);
    case Drain(w) => SwapCarried(s.workers, w, Exited, t);
    case Check(w) => SwapCarried(s.workers, w, Fetching(s.workers[w].task), t);
    case Abandon(w) => AbandonMove(job, s, w, t);
    case FetchDone(w, o) => FetchMove(job, s, w, o, t);
    case Write(w, ok, torn) => WriteMove(job, s, w, ok, torn, t);
    case Count(w) => CountMove(job, s, w, t);
    case Finalize(w, renamed) => SwapCarried(s.workers, w, Idle, t);
  }

  lemma RoundMove(job: Job, s: State, a: Action, t: Task)
    requires Conserved(job, s) && Enabled(job, s, a)
    requires a.Cancel? || a.BeginRound? || a.EndRound?
    ensures Places(Apply(job, s, a), t) == Places(s, t)
  {
    if a.BeginRound? {
      IdleWorkers(s.workers);
      IdleWorkers(seq(job.workers, _ => Idle));
    } else if a.EndRound? {
      TimesConcat(s.abandoned, s.queue, t);
    }
  }

  lemma StepPlaces(job: Job, s: State, a: Action)
    requires Conserved(job, s) && Enabled(job, s, a)
    ensures forall t :: Places(Apply(job, s, a), t) == Places(s, t)
  {
    forall t ensures Places(Apply(job, s, a), t) == Places(s, t) {
      if a.Cancel? || a.BeginRound? || a.EndRound? {
        RoundMove(job, s, a, t);
      } else {
        WorkerMove(job, s, a, t);
      }
    }
  }

  lemma StepPhases(job: Job, s: State, a: Action)
    requires Phases(s) && Enabled(job, s, a)
    ensures Phases(Apply(job, s, a))
  {
  }

  lemma StepConserved(job: Job, s: State, a: Action)
    requires Conserved(job, s) && Enabled(job, s, a)
    ensures Conserved(job, Apply(job, s, a))
  {
    StepPlaces(job, s, a);
    StepPhases(job, s, a);
  }

  // ---------------------------------------------------------------- per-file accounting

  function Uncounted(job: Job, s: State, f: nat): set<Task>
    requires f < |job.files|
  {
    FileTasks(job, f) - s.counted
  }

  predicate Genuine(spec: FileSpec) {
    spec.root == Root(Leaves(spec.infos))
  }

  /** Remaining is the number of chunks not yet counted; exactly one worker is told that it was the
      last one, and OnFinalize runs at most once. */
  ghost predicate Accounts(job: Job, s: State) {
    && |s.remaining| == |s.finalizes| == |s.finalizeErr| == |job.files|
    && (forall f :: 0 <= f < |job.files| ==> s.remaining[f] == |Uncounted(job, s, f)|)
    && (forall f :: 0 <= f < |job.files| ==>
          Lasts(s.workers, f) + s.finalizes[f] == if Uncounted(job, s, f) == {} && FileTasks(job, f) != {} then 1 else 0)
    && (forall f :: 0 <= f < |job.files| && s.finalizes[f] == 1 && !s.finalizeErr[f] ==> Genuine(job.files[f]))
    && (forall f :: 0 <= f < |job.files| && s.finalizes[f] == 0 ==> !s.finalizeErr[f])
    && (forall f :: f >= |job.files| ==> Lasts(s.workers, f) == 0)
  }

  ghost predicate OnDisk(job: Job, s: State, t: Task) {
    && t in s.disk && IsTask(job, t) && Hex(Sum256(s.disk[t])) == job.files[t.file].infos[t.chunk].hash
    && Wrote(t) in s.log
  }

  ghost predicate Written(job: Job, s: State) {
    && (forall t :: t in s.counted ==> OnDisk(job, s, t))
    && (forall w :: 0 <= w < |s.workers| && s.workers[w].Landed? ==> OnDisk(job, s, s.workers[w].task))
    && (forall w :: 0 <= w < |s.workers| && s.workers[w].Fetched? && IsTask(job, s.workers[w].task) ==>
          Hex(Sum256(s.workers[w].data)) == job.files[s.workers[w].task.file].infos[s.workers[w].task.chunk].hash)
  }

  /** After a file was finalized nothing happens to it any more. */
  ghost predicate Ordered(log: seq<Event>) {
    forall i, j :: 0 <= i < j < |log| && log[i].Finalized? ==>
      log[j] != log[i] && !(log[j].Wrote? && log[j].task.file == log[i].file)
  }

  ghost predicate Logged(job: Job, s: State)
    requires |s.finalizes| == |job.files|
  {
    && Ordered(s.log)
    && forall f: nat :: Finalized(f) in s.log ==> f < |job.files| && s.finalizes[f] == 1
  }

  ghost predicate WellFormedJob(job: Job) {
    job.workers > 0 && forall f, i :: 0 <= f < |job.files| && i in job.files[f].skip ==> i < |job.files[f].infos|
  }

  ghost predicate Inv(job: Job, s: State) {
    Conserved(job, s) && Accounts(job, s) && Written(job, s) && Logged(job, s)
  }

  lemma {:induction false} TasksOfIndices(f: nat, idx: set<nat>)
    ensures |set i | i in idx :: Task(f, i)| == |idx|
  {
    if idx != {} {
      var x :| x in idx;
      TasksOfIndices(f, idx - {x});
      assert (set i | i in idx :: Task(f, i)) == (set i | i in idx - {x} :: Task(f, i)) + {Task(f, x)};
    }
  }

  lemma FileTasksSize(job: Job, f: nat)
    requires f < |job.files| && forall i :: i in job.files[f].skip ==> i < |job.files[f].infos|
    ensures |FileTasks(job, f)| == |job.files[f].infos| - |job.files[f].skip|
  {
    var n, skip := |job.files[f].infos|, job.files[f].skip;
    var all := Range(0, n);
    RangeSize(0, n);
    assert skip <= all && |all - skip| == |all| - |skip|;
    TasksOfIndices(f, all - skip);
    assert FileTasks(job, f) == set i | i in all - skip :: Task(f, i);
  }

  lemma InitInv(job: Job, s: State)
    requires WellFormedJob(job) && IsInit(job, s)
    ensures Inv(job, s)
  {
    InitConserved(job, s);
    forall f | 0 <= f < |job.files| ensures s.remaining[f] == |Uncounted(job, s, f)| {
      FileTasksSize(job, f);
      assert Uncounted(job, s, f) == FileTasks(job, f);
    }
  }

  /** Steps that touch neither counters nor files. */
  lemma QuietAccounts(job: Job, s: State, s': State)
    requires Accounts(job, s)
    requires s'.counted == s.counted && s'.remaining == s.remaining && s'.finalizes == s.finalizes && s'.finalizeErr == s.finalizeErr
    requires forall f :: Lasts(s'.workers, f) == Lasts(s.workers, f)
    ensures Accounts(job, s')
  {
    forall f | 0 <= f < |job.files| ensures Uncounted(job, s', f) == Uncounted(job, s, f) {}
  }

  lemma SameLasts(ws: seq<Phase>, w: nat, p: Phase)
    requires w < |ws| && !ws[w].Last? && !p.Last?
    ensures forall f :: Lasts(ws[w := p], f) == Lasts(ws, f)
  {
    forall f ensures Lasts(ws[w := p], f) == Lasts(ws, f) {
      SwapLasts(ws, w, p, f);
    }
  }

  lemma CountUncounted(job: Job, s: State, w: nat)
    requires Conserved(job, s) && Accounts(job, s) && Enabled(job, s, Count(w))
    ensures var s' := Apply(job, s, Count(w));
      var t := s.workers[w].task;
      && t.file < |job.files|
      && Uncounted(job, s', t.file) == Uncounted(job, s, t.file) - {t}
      && t in Uncounted(job, s, t.file)
      && forall f :: 0 <= f < |job.files| && f != t.file ==> Uncounted(job, s', f) == Uncounted(job, s, f)
  {
    var t := s.workers[w].task;
    CarriedOnce(job, s, w, t);
    assert t == Task(t.file, t.chunk) && t in FileTasks(job, t.file);
    forall f | 0 <= f < |job.files| && f != t.file ensures t !in FileTasks(job, f) {}
  }

  lemma CountAccounts(job: Job, s: State, w: nat)
    requires Conserved(job, s) && Accounts(job, s) && Enabled(job, s, Count(w))
    ensures Accounts(job, Apply(job, s, Count(w)))
  {
    var s' := Apply(job, s, Count(w));
    CountUncounted(job, s, w);
    forall f ensures Lasts(s'.workers, f) == Lasts(s.workers, f) + LastOf(s'.workers[w], f) {
      SwapLasts(s.workers, w, s'.workers[w], f);
    }
  }

  lemma FinalizeAccounts(job: Job, s: State, w: nat, renamed: bool)
    requires Accounts(job, s) && Enabled(job, s, Finalize(w, renamed))
    ensures s.finalizes[s.workers[w].file] == 0 && Uncounted(job, s, s.workers[w].file) == {}
    ensures Accounts(job, Apply(job, s, Finalize(w, renamed)))
  {
    var s' := Apply(job, s, Finalize(w, renamed));
    var g := s.workers[w].file;
    SwapLasts(s.workers, w, Idle, g);
    forall f ensures Lasts(s'.workers, f) == Lasts(s.workers, f) - LastOf(s.workers[w], f) {
      SwapLasts(s.workers, w, Idle, f);
    }
    forall f | 0 <= f < |job.files| ensures Uncounted(job, s', f) == Uncounted(job, s, f) {}
  }

  lemma StepAccounts(job: Job, s: State, a: Action)
    requires Conserved(job, s) && Accounts(job, s) && Enabled(job, s, a)
    ensures Accounts(job, Apply(job, s, a))
  {
    match a
    case Count(w) => CountAccounts(job, s, w);
    case Finalize(w, renamed) => FinalizeAccounts(job, s, w, renamed);
    case Cancel => QuietAccounts(job, s, Apply(job, s, a));
    case EndRound => QuietAccounts(job, s, Apply(job, s, a));
    case BeginRound =>
      IdleWorkers(s.workers);
      IdleWorkers(seq(job.workers, _ => Idle));
      QuietAccounts(job, s, Apply(job, s, a));
    case _ =>
      SameLasts(s.workers, a.w, Apply(job, s, a).workers[a.w]);
      QuietAccounts(job, s, Apply(job, s, a));
  }

  /** Nothing verified on disk is lost when the disk and the log only grow. */
  lemma StaysWritten(job: Job, s: State, s': State)
    requires Written(job, s) && s'.counted <= s.counted
    requires forall t :: OnDisk(job, s, t) ==> OnDisk(job, s', t)
    requires forall w :: 0 <= w < |s'.workers| ==>
      match s'.workers[w]
      case Landed(t) => OnDisk(job, s', t)
      case Fetched(t, data) => IsTask(job, t) ==> Hex(Sum256(data)) == job.files[t.file].infos[t.chunk].hash
      case _ => true
    ensures Written(job, s')
  {
  }

  lemma WriteWritten(job: Job, s: State, w: nat, ok: bool, torn: Bytes)
    requires Conserved(job, s) && Written(job, s) && Enabled(job, s, Write(w, ok, torn))
    ensures Written(job, Apply(job, s, Write(w, ok, torn)))
  {
    var s' := Apply(job, s, Write(w, ok, torn));
    var t := s.workers[w].task;
    CarriedOnce(job, s, w, t);
    assert s'.log[|s.log|] == Wrote(t);
    forall u | u in s.log ensures u in s'.log {}
    forall u | u != t && OnDisk(job, s, u) ensures OnDisk(job, s', u) {}
    forall v | 0 <= v < |s.workers| && v != w && s.workers[v].Landed? ensures s.workers[v].task != t {
      HeldOnce(job, s, v, w, t);
    }
  }

  /** No task is in two workers' hands. */
  lemma HeldOnce(job: Job, s: State, v: nat, w: nat, t: Task)
    requires Conserved(job, s) && v < |s.workers| && w < |s.workers| && v != w && Holds(s.workers[w], t) == 1
    ensures Holds(s.workers[v], t) == 0
  {
    SwapCarried(s.workers, w, Idle, t);
    SwapCarried(s.workers[w := Idle], v, Idle, t);
    assert Places(s, t) >= Carried(s.workers, t);
  }

  lemma CountWritten(job: Job, s: State, w: nat)
    requires Written(job, s) && Enabled(job, s, Count(w))
    ensures Written(job, Apply(job, s, Count(w)))
  {
    var s' := Apply(job, s, Count(w));
    assert OnDisk(job, s, s.workers[w].task);
    forall t | OnDisk(job, s, t) ensures OnDisk(job, s', t) {}
  }

  lemma StepWritten(job: Job, s: State, a: Action)
    requires Conserved(job, s) && Written(job, s) && Enabled(job, s, a)
    ensures Written(job, Apply(job, s, a))
  {
    match a
    case Write(w, ok, torn) => WriteWritten(job, s, w, ok, torn);
    case Count(w) => CountWritten(job, s, w);
    case Finalize(w, renamed) => FinalizeWritten(job, s, w, renamed);
    case FetchDone(w, o) => FetchWritten(job, s, w, o);
    case BeginRound => StaysWritten(job, s, Apply(job, s, a));
    case EndRound => StaysWritten(job, s, Apply(job, s, a));
    case Cancel => StaysWritten(job, s, Apply(job, s, a));
    case _ => MoveWritten(job, s, a);
  }

  lemma FinalizeWritten(job: Job, s: State, w: nat, renamed: bool)
    requires Written(job, s) && Enabled(job, s, Finalize(w, renamed))
    ensures Written(job, Apply(job, s, Finalize(w, renamed)))
  {
    var s' := Apply(job, s, Finalize(w, renamed));
    forall u | u in s.log ensures u in s'.log {}
    StaysWritten(job, s, s');
  }

  lemma FetchWritten(job: Job, s: State, w: nat, o: Outcome)
    requires Written(job, s) && Enabled(job, s, FetchDone(w, o))
    ensures Written(job, Apply(job, s, FetchDone(w, o)))
  {
    StaysWritten(job, s, Apply(job, s, FetchDone(w, o)));
  }

  lemma MoveWritten(job: Job, s: State, a: Action)
    requires Written(job, s) && Enabled(job, s, a) && (a.Take? || a.Drain? || a.Check? || a.Abandon?)
    ensures Written(job, Apply(job, s, a))
  {
    StaysWritten(job, s, Apply(job, s, a));
  }

  /** A worker that writes holds an uncounted chunk, so its file cannot have been finalized. */
  lemma WriteLogged(job: Job, s: State, w: nat, ok: bool, torn: Bytes)
    requires Conserved(job, s) && Accounts(job, s) && Logged(job, s) && Enabled(job, s, Write(w, ok, torn))
    ensures Logged(job, Apply(job, s, Write(w, ok, torn)))
  {
    var t := s.workers[w].task;
    CarriedOnce(job, s, w, t);
    assert t == Task(t.file, t.chunk) && t in Uncounted(job, s, t.file);
    assert Finalized(t.file) !in s.log;
    forall i | 0 <= i < |s.log| && s.log[i].Finalized? ensures s.log[i].file != t.file {
      assert s.log[i] in s.log;
    }
  }

  lemma FinalizeLogged(job: Job, s: State, w: nat, renamed: bool)
    requires Accounts(job, s) && Logged(job, s) && Enabled(job, s, Finalize(w, renamed))
    ensures Logged(job, Apply(job, s, Finalize(w, renamed)))
  {
    FinalizeAccounts(job, s, w, renamed);
    assert Finalized(s.workers[w].file) !in s.log;
    forall i | 0 <= i < |s.log| ensures s.log[i] != Finalized(s.workers[w].file) {
      assert s.log[i] in s.log;
    }
  }

  lemma StepInv(job: Job, s: State, a: Action)
    requires Inv(job, s) && Enabled(job, s, a)
    ensures Inv(job, Apply(job, s, a))
  {
    StepConserved(job, s, a);
    StepAccounts(job, s, a);
    StepWritten(job, s, a);
    match a
    case Write(w, ok, torn) => WriteLogged(job, s, w, ok, torn);
    case Finalize(w, renamed) => FinalizeLogged(job, s, w, renamed);
    case _ =>
  }

  // ---------------------------------------------------------------- no deadlock, no livelock

  /** Unless the download is over, some goroutine can take a step. */
  lemma Progress(job: Job, s: State) returns (a: Action)
    requires Inv(job, s) && !s.main.Collected?
    ensures !a.Cancel? && Enabled(job, s, a)
  {
    if s.main.Between? {
      a := BeginRound;
    } else if AllExited(s.workers) {
      a := EndRound;
    } else {
      var w :| 0 <= w < |s.workers| && s.workers[w] != Exited;
      match s.workers[w]
      case Idle => a := if s.queue == [] then Drain(w) else Take(w);
      case Holding(t) => a := if s.cancelled then Abandon(w) else Check(w);
      case Fetching(t) => CarriedOnce(job, s, w, t); a := FetchDone(w, Failed);
      case Fetched(t, _) => a := Write(w, true, []);
      case Landed(t) => CarriedOnce(job, s, w, t); a := Count(w);
      case Last(f) => SwapLasts(s.workers, w, Idle, f); a := Finalize(w, true);
    }
  }

  function PhaseRank(p: Phase): nat {
    match p
    case Idle => 1 case Holding(_) => 6 case Fetching(_) => 5 case Fetched(_, _) => 4
    case Landed(_) => 3 case Last(_) => 2 case Exited => 0
  }

  function WorkerRank(ws: seq<Phase>): nat {
    if ws == [] then 0 else WorkerRank(ws[..|ws| - 1]) + PhaseRank(ws[|ws| - 1])
  }

  lemma {:induction false} SwapRank(ws: seq<Phase>, w: nat, p: Phase)
    requires w < |ws|
    ensures WorkerRank(ws[w := p]) == WorkerRank(ws) - PhaseRank(ws[w]) + PhaseRank(p)
  {
    var n := |ws| - 1;
    if w == n {
      assert ws[w := p][..n] == ws[..n];
    } else {
      SwapRank(ws[..n], w, p);
      assert ws[w := p][..n] == ws[..n][w := p];
    }
  }

  /** Rounds still possible, with the main goroutine's position. */
  function RoundRank(job: Job, s: State): int {
    match s.main
    case Between => 2 * (job.maxRetries + 2 - s.round) + 1
    case Running => 2 * (job.maxRetries + 2 - s.round)
    case Collected => 0
  }

  function WorkRank(s: State): nat {
    6 * |s.queue| + WorkerRank(s.workers)
  }

  ghost predicate RoundBound(job: Job, s: State) {
    s.round <= job.maxRetries + 1 && (s.main.Running? ==> s.round <= job.maxRetries)
  }

  /** Every step but the cancellation itself lowers (RoundRank, WorkRank) lexicographically, so every
      schedule ends. */
  lemma StepRank(job: Job, s: State, a: Action)
    requires Enabled(job, s, a) && !a.Cancel? && RoundBound(job, s)
    ensures RoundBound(job, Apply(job, s, a))
    ensures var s' := Apply(job, s, a);
      && 0 <= RoundRank(job, s')
      && (RoundRank(job, s') < RoundRank(job, s)
          || (RoundRank(job, s') == RoundRank(job, s) && WorkRank(s') < WorkRank(s)))
  {
    if !a.BeginRound? && !a.EndRound? {
      WorkerStepRank(job, s, a);
    }
  }

  lemma WorkerStepRank(job: Job, s: State, a: Action)
    requires Enabled(job, s, a) && !a.Cancel? && !a.BeginRound? && !a.EndRound?
    ensures WorkRank(Apply(job, s, a)) < WorkRank(s) && a.w < |s.workers|
  {
    var p := Apply(job, s, a).workers[a.w];
    SwapRank(s.workers, a.w, p);
    if a.Take? {
      TakeRank(job, s, a.w);
    }
  }

  lemma TakeRank(job: Job, s: State, w: nat)
    requires Enabled(job, s, Take(w))
    ensures |Apply(job, s, Take(w)).queue| == |s.queue| - 1
  {
  }

  // ---------------------------------------------------------------- whole runs and their result

  ghost predicate IsRun(job: Job, states: seq<State>, acts: seq<Action>) {
    && |states| == |acts| + 1 && IsInit(job, states[0])
    && forall i :: 0 <= i < |acts| ==> Enabled(job, states[i], acts[i]) && states[i + 1] == Apply(job, states[i], acts[i])
  }

  lemma {:induction false} RunInv(job: Job, states: seq<State>, acts: seq<Action>, i: nat)
    requires WellFormedJob(job) && IsRun(job, states, acts) && i <= |acts|
    ensures Inv(job, states[i])
  {
    if i == 0 {
      InitInv(job, states[0]);
    } else {
      RunInv(job, states, acts, i - 1);
      StepInv(job, states[i - 1], acts[i - 1]);
    }
  }

  lemma {:induction false} ListedOnce(ts: seq<Task>, all: set<Task>)
    requires forall t :: Times(ts, t) <= if t in all then 1 else 0
    ensures |ts| <= |all|
  {
    if ts != [] {
      var front, x := ts[..|ts| - 1], ts[|ts| - 1];
      assert Times(ts, x) == Times(front, x) + 1;
      forall t ensures Times(front, t) <= if t in all - {x} then 1 else 0 {
        assert Times(ts, t) == Times(front, t) + if x == t then 1 else 0;
      }
      ListedOnce(front, all - {x});
    }
  }

  lemma TaskListBound(job: Job, s: State)
    requires Conserved(job, s)
    ensures |s.taskList| <= |TaskSet(job)|
  {
    TaskSetMembers(job);
    forall t ensures Times(s.taskList, t) <= if t in TaskSet(job) then 1 else 0 {
      assert Times(s.taskList, t) <= Places(s, t);
    }
    ListedOnce(s.taskList, TaskSet(job));
  }

  /** More than the work one round can hold. */
  function RoundWork(job: Job): nat {
    6 * |TaskSet(job)| + job.workers + 1
  }

  /** One number that every step lowers, the cancellation too. */
  function TotalRank(job: Job, s: State): int {
    RoundRank(job, s) * RoundWork(job) + WorkRank(s) + if s.cancelled then 0 else 1
  }

  lemma {:induction false} IdleRank(n: nat)
    ensures WorkerRank(seq(n, _ => Idle)) == n
  {
    if n > 0 {
      var ws: seq<Phase> := seq(n, _ => Idle);
      IdleRank(n - 1);
      assert ws[..n - 1] == seq(n - 1, _ => Idle);
    }
  }

  lemma RoundWorkBound(job: Job, s: State)
    requires Conserved(job, s) && Enabled(job, s, BeginRound)
    ensures WorkRank(Apply(job, s, BeginRound)) < WorkRank(s) + RoundWork(job)
  {
    TaskListBound(job, s);
    IdleRank(job.workers);
  }

  lemma RankDrop(r': nat, r: nat, k: nat)
    requires r' < r
    ensures r' * k + k <= r * k
  {
    assert r * k == (r' + 1) * k + (r - r' - 1) * k;
  }

  lemma StepTotalRank(job: Job, s: State, a: Action)
    requires Conserved(job, s) && RoundBound(job, s) && Enabled(job, s, a)
    ensures RoundBound(job, Apply(job, s, a))
    ensures RoundRank(job, Apply(job, s, a)) >= 0 && TotalRank(job, Apply(job, s, a)) < TotalRank(job, s)
  {
    var s' := Apply(job, s, a);
    if !a.Cancel? {
      StepRank(job, s, a);
      if RoundRank(job, s') < RoundRank(job, s) {
        RankDrop(RoundRank(job, s'), RoundRank(job, s), RoundWork(job));
        if a.BeginRound? {
          RoundWorkBound(job, s);
        }
      }
    }
  }

  lemma InitTotalRank(job: Job, s: State)
    requires IsInit(job, s)
    ensures RoundBound(job, s) && RoundRank(job, s) >= 0
    ensures TotalRank(job, s) <= (2 * job.maxRetries + 5) * RoundWork(job) + 1
  {
    assert RoundRank(job, s) == 2 * job.maxRetries + 5;
    assert WorkRank(s) == 0;
  }

  lemma RunStepRank(job: Job, states: seq<State>, acts: seq<Action>, i: nat)
    requires WellFormedJob(job) && IsRun(job, states, acts) && i < |acts| && RoundBound(job, states[i])
    ensures RoundBound(job, states[i + 1])
    ensures RoundRank(job, states[i + 1]) >= 0 && TotalRank(job, states[i + 1]) < TotalRank(job, states[i])
  {
    RunInv(job, states, acts, i);
    StepTotalRank(job, states[i], acts[i]);
  }

  lemma {:induction false} RunBound(job: Job, states: seq<State>, acts: seq<Action>, i: nat)
    requires WellFormedJob(job) && IsRun(job, states, acts) && i <= |acts|
    ensures RoundBound(job, states[i]) && RoundRank(job, states[i]) >= 0
    ensures i + TotalRank(job, states[i]) <= TotalRank(job, states[0])
    decreases i
  {
    if i == 0 {
      InitTotalRank(job, states[0]);
    } else {
      RunBound(job, states, acts, i - 1);
      RunStepRank(job, states, acts, i - 1);
    }
  }

  /** Under every schedule the download takes a bounded number of steps, and a schedule that can go no
      further than a cancellation has collected its result. */
  lemma EveryRunCollects(job: Job, states: seq<State>, acts: seq<Action>)
    requires WellFormedJob(job) && IsRun(job, states, acts)
    ensures |acts| <= (2 * job.maxRetries + 5) * RoundWork(job) + 1
    ensures (forall a :: Enabled(job, states[|acts|], a) ==> a.Cancel?) ==> states[|acts|].main.Collected?
  {
    var last := states[|acts|];
    RunBound(job, states, acts, |acts|);
    InitTotalRank(job, states[0]);
    RunInv(job, states, acts, |acts|);
    assert RoundRank(job, last) * RoundWork(job) >= 0;
    if !last.main.Collected? {
      var a := Progress(job, last);
      assert Enabled(job, last, a);
    }
  }

  predicate Succeeded(s: State, f: nat)
    requires f < |s.remaining| == |s.finalizeErr|
  {
    s.remaining[f] <= 0 && !s.finalizeErr[f]
  }

  /** The final tally. */
  method Tally(s: State) returns (succeeded: nat, failed: nat, failedFiles: seq<nat>)
    requires |s.remaining| == |s.finalizeErr|
    ensures succeeded + failed == |s.remaining|
    ensures failed == |failedFiles|
    ensures forall f: nat :: f in failedFiles <==> f < |s.remaining| && !Succeeded(s, f)
    ensures forall i, j :: 0 <= i < j < |failedFiles| ==> failedFiles[i] < failedFiles[j]
  {
    succeeded, failed, failedFiles := 0, 0, [];
    for f := 0 to |s.remaining|
      invariant succeeded + failed == f && failed == |failedFiles|
      invariant forall g: nat :: g in failedFiles <==> g < f && !Succeeded(s, g)
      invariant forall i :: 0 <= i < |failedFiles| ==> failedFiles[i] < f
      invariant forall i, j :: 0 <= i < j < |failedFiles| ==> failedFiles[i] < failedFiles[j]
    {
      if s.remaining[f] > 0 || s.finalizeErr[f] {
        failed := failed + 1;
        failedFiles := failedFiles + [f];
      } else {
        succeeded := succeeded + 1;
      }
    }
  }

  lemma CollectedFile(job: Job, s: State, f: nat)
    requires Conserved(job, s) && Accounts(job, s) && s.main == Collected && f < |job.files| && FileTasks(job, f) != {}
    ensures Succeeded(s, f) <==> s.finalizes[f] == 1 && !s.finalizeErr[f]
    ensures Succeeded(s, f) ==> Genuine(job.files[f]) && FileTasks(job, f) <= s.counted
  {
    IdleWorkers(s.workers);
    assert s.remaining[f] == |Uncounted(job, s, f)|;
    if Succeeded(s, f) {
      AllCounted(job, s, f);
    }
  }

  lemma AllCounted(job: Job, s: State, f: nat)
    requires Accounts(job, s) && f < |job.files| && (s.finalizes[f] == 1 || s.remaining[f] <= 0)
    ensures FileTasks(job, f) <= s.counted
  {
    assert s.remaining[f] == |Uncounted(job, s, f)|;
    assert Uncounted(job, s, f) == {};
    assert FileTasks(job, f) == Uncounted(job, s, f) + FileTasks(job, f) * s.counted;
  }

  /** Under every schedule, retry and cancellation, a file that the final tally counts as succeeded
      and that had a chunk to fetch was finalized exactly once without error, its manifest is
      genuine, and every chunk it was missing is on disk, verified, written before the finalization. */
  lemma SucceededMeansComplete(job: Job, states: seq<State>, acts: seq<Action>, f: nat)
    requires WellFormedJob(job) && IsRun(job, states, acts) && f < |job.files|
    requires states[|acts|].main == Collected && FileTasks(job, f) != {}
    ensures var s := states[|acts|];
      && |s.finalizes| == |s.remaining| == |s.finalizeErr| == |job.files|
      && (Succeeded(s, f) <==> s.finalizes[f] == 1 && !s.finalizeErr[f])
      && (Succeeded(s, f) ==> Genuine(job.files[f]) && forall t :: t in FileTasks(job, f) ==> OnDisk(job, s, t))
  {
    var s := states[|acts|];
    RunInv(job, states, acts, |acts|);
    CollectedFile(job, s, f);
    assert Written(job, s);
  }

  lemma FinalizedFile(job: Job, s: State, t: Task)
    requires Accounts(job, s) && Logged(job, s) && IsTask(job, t) && Finalized(t.file) in s.log
    ensures t in s.counted
  {
    AllCounted(job, s, t.file);
    assert t == Task(t.file, t.chunk) && t in FileTasks(job, t.file);
  }

  lemma SplitAt(log: seq<Event>, k: nat, t: Task)
    requires Ordered(log) && k < |log| && log[k] == Finalized(t.file) && Wrote(t) in log
    ensures forall j :: 0 <= j < |log| && j != k ==> log[j] != log[k]
    ensures Wrote(t) in log[..k] && Wrote(t) !in log[k + 1..]
  {
    assert log == log[..k] + [log[k]] + log[k + 1..];
    var after := log[k + 1..];
    forall m | 0 <= m < |after| ensures after[m] != Wrote(t) {
      assert after[m] == log[k + 1 + m];
    }
  }

  /** OnFinalize runs at most once per file, after the writes of all its chunks and before none. */
  lemma FinalizeOnceAndLast(job: Job, states: seq<State>, acts: seq<Action>, i: nat, k: nat, t: Task)
    requires WellFormedJob(job) && IsRun(job, states, acts) && i <= |acts|
    requires k < |states[i].log| && states[i].log[k] == Finalized(t.file) && IsTask(job, t)
    ensures forall j :: 0 <= j < |states[i].log| && j != k ==> states[i].log[j] != states[i].log[k]
    ensures Wrote(t) in states[i].log[..k] && Wrote(t) !in states[i].log[k + 1..]
  {
    RunInv(job, states, acts, i);
    FinalizedFile(job, states[i], t);
    assert OnDisk(job, states[i], t);
    SplitAt(states[i].log, k, t);
  }

  /** The one exception to "succeeded means finalized": a file with nothing to fetch is reported as
      succeeded in every run although OnFinalize never runs for it. */
  lemma NothingToFetchIsNeverFinalized(job: Job, states: seq<State>, acts: seq<Action>, f: nat)
    requires WellFormedJob(job) && IsRun(job, states, acts) && f < |job.files| && FileTasks(job, f) == {}
    ensures var s := states[|acts|];
      |s.remaining| == |s.finalizeErr| == |s.finalizes| == |job.files| && s.finalizes[f] == 0 && Succeeded(s, f)
  {
    RunInv(job, states, acts, |acts|);
    assert Uncounted(job, states[|acts|], f) == {};
  }

  // ---------------------------------------------------------------- what the retries achieve

  /** The step is a failed fetch or a failed write of `t`. */
  ghost predicate Fails(s: State, a: Action, t: Task) {
    && ((a.FetchDone? && a.outcome.Failed?) || (a.Write? && !a.ok))
    && a.w < |s.workers| && Holds(s.workers[a.w], t) == 1
  }

  /** How often `t` failed during the first `i` steps. */
  ghost function FailCount(states: seq<State>, acts: seq<Action>, i: nat, t: Task): nat
    requires i <= |acts| && |states| == |acts| + 1
  {
    if i == 0 then 0 else FailCount(states, acts, i - 1, t) + if Fails(states[i - 1], acts[i - 1], t) then 1 else 0
  }

  /** With `n` failures so far a waiting task has failed in every earlier round, and one that was written
      or given up has failed in at most maxRetries of them. */
  ghost predicate Spent(job: Job, s: State, t: Task, n: nat) {
    && (t in s.taskList || t in s.queue ==> n == s.round)
    && (t in s.failed ==> n == s.round + 1)
    && (forall w :: 0 <= w < |s.workers| && Holds(s.workers[w], t) == 1 ==>
          if s.workers[w].Landed? then n <= job.maxRetries else n == s.round)
    && (t in s.counted || t in s.abandoned ==> n <= job.maxRetries)
  }

  /** A worker gives nothing up unless the download was cancelled, so a round drains its queue. */
  ghost predicate Drains(job: Job, s: State) {
    && (s.main.Running? ==> |s.workers| == job.workers)
    && (s.main.Collected? ==> !AnotherRound(job, s))
    && (!s.cancelled ==> s.abandoned == []
                         && forall w :: 0 <= w < |s.workers| && s.workers[w] == Exited ==> s.queue == [])
  }

  lemma StepDrains(job: Job, s: State, a: Action)
    requires job.workers > 0 && Phases(s) && Drains(job, s) && Enabled(job, s, a)
    ensures Drains(job, Apply(job, s, a))
  {
    if a.EndRound? {
      assert s.workers[0] == Exited;
    }
  }

  lemma InOnePlace(job: Job, s: State, w: nat, t: Task)
    requires Conserved(job, s) && w < |s.workers| && Holds(s.workers[w], t) == 1
    ensures s.main.Running?
    ensures t !in s.taskList && t !in s.queue && t !in s.failed && t !in s.abandoned && t !in s.counted
    ensures forall v :: 0 <= v < |s.workers| && v != w ==> Holds(s.workers[v], t) == 0
  {
    SwapCarried(s.workers, w, Idle, t);
    assert Places(s, t) <= 1;
    TimesIsMultiplicity(s.taskList, t);
    TimesIsMultiplicity(s.queue, t);
    TimesIsMultiplicity(s.failed, t);
    TimesIsMultiplicity(s.abandoned, t);
    forall v | 0 <= v < |s.workers| && v != w ensures Holds(s.workers[v], t) == 0 {
      HeldOnce(job, s, v, w, t);
    }
  }

  lemma FailingSpent(job: Job, s: State, a: Action, t: Task)
    requires Conserved(job, s) && Enabled(job, s, a) && Fails(s, a, t) && Spent(job, s, t, s.round)
    ensures Spent(job, Apply(job, s, a), t, s.round + 1)
  {
    InOnePlace(job, s, a.w, t);
  }

  lemma RoundSpent(job: Job, s: State, a: Action, t: Task, n: nat)
    requires Phases(s) && RoundBound(job, s) && Enabled(job, s, a) && (a.Cancel? || a.BeginRound? || a.EndRound?)
    requires Spent(job, s, t, n)
    ensures Spent(job, Apply(job, s, a), t, n)
  {
  }

  lemma WorkerSpent(job: Job, s: State, a: Action, t: Task, n: nat)
    requires Phases(s) && RoundBound(job, s) && Enabled(job, s, a) && !a.Cancel? && !a.BeginRound? && !a.EndRound?
    requires Spent(job, s, t, n) && !Fails(s, a, t)
    ensures Spent(job, Apply(job, s, a), t, n)
  {
    assert s.main.Running?;
  }

  lemma StepSpent(job: Job, s: State, a: Action, t: Task, n: nat)
    requires Conserved(job, s) && RoundBound(job, s) && Enabled(job, s, a) && Spent(job, s, t, n)
    ensures Spent(job, Apply(job, s, a), t, if Fails(s, a, t) then n + 1 else n)
  {
    if Fails(s, a, t) {
      FailingSpent(job, s, a, t);
    } else if a.Cancel? || a.BeginRound? || a.EndRound? {
      RoundSpent(job, s, a, t, n);
    } else {
      WorkerSpent(job, s, a, t, n);
    }
  }

  lemma {:induction false} RunSpent(job: Job, states: seq<State>, acts: seq<Action>, i: nat, t: Task)
    requires WellFormedJob(job) && IsRun(job, states, acts) && i <= |acts|
    ensures Drains(job, states[i]) && Spent(job, states[i], t, FailCount(states, acts, i, t))
  {
    if i > 0 {
      RunSpent(job, states, acts, i - 1, t);
      RunInv(job, states, acts, i - 1);
      RunBound(job, states, acts, i - 1);
      StepDrains(job, states[i - 1], acts[i - 1]);
      StepSpent(job, states[i - 1], acts[i - 1], t, FailCount(states, acts, i - 1, t));
    }
  }

  /** Without a cancellation the pool collects only when nothing is left to fetch or all rounds are over. */
  lemma CollectsLast(job: Job, s: State)
    requires Drains(job, s) && s.main.Collected? && !s.cancelled
    ensures s.taskList == [] || s.round > job.maxRetries
  {
  }

  /** A download that is not cancelled gives every chunk maxRetries + 1 tries: it is counted as written
      exactly when at most maxRetries of them failed, and otherwise all of them failed. */
  lemma EveryTaskIsRetried(job: Job, states: seq<State>, acts: seq<Action>, t: Task)
    requires WellFormedJob(job) && IsRun(job, states, acts) && IsTask(job, t)
    requires states[|acts|].main.Collected? && !states[|acts|].cancelled
    ensures t in states[|acts|].counted <==> FailCount(states, acts, |acts|, t) <= job.maxRetries
    ensures t !in states[|acts|].counted ==> FailCount(states, acts, |acts|, t) == job.maxRetries + 1
  {
    var s := states[|acts|];
    RunSpent(job, states, acts, |acts|, t);
    RunInv(job, states, acts, |acts|);
    RunBound(job, states, acts, |acts|);
    CollectsLast(job, s);
    IdleWorkers(s.workers);
    assert Places(s, t) == 1;
    TimesIsMultiplicity(s.taskList, t);
  }

  /** What a pool that was cancelled in state `s0` can have become: no round has begun since, and the only
      fetches going on are those that were going on. */
  ghost predicate StoppedSince(s0: State, s: State) {
    && s.cancelled
    && (s.main.Running? ==> s0.main.Running?)
    && s.round == (if s0.main.Running? && !s.main.Running? then s0.round + 1 else s0.round)
    && (forall w :: 0 <= w < |s.workers| && s.workers[w].Fetching? ==> w < |s0.workers| && s0.workers[w] == s.workers[w])
  }

  lemma StepStopped(job: Job, s0: State, s: State, a: Action)
    requires Phases(s) && Enabled(job, s, a) && StoppedSince(s0, s)
    ensures StoppedSince(s0, Apply(job, s, a))
  {
  }

  /** Cancellation stops the pool in every run. */
  lemma {:induction false} CancellationStops(job: Job, states: seq<State>, acts: seq<Action>, i: nat, j: nat)
    requires WellFormedJob(job) && IsRun(job, states, acts) && i <= j <= |acts| && states[i].cancelled
    ensures StoppedSince(states[i], states[j])
    decreases j
  {
    if i < j {
      CancellationStops(job, states, acts, i, j - 1);
      RunInv(job, states, acts, j - 1);
      StepStopped(job, states[i], states[j - 1], acts[j - 1]);
    }
  }

  /** The step finalizes the file and cannot move it into place. */
  ghost predicate FailsToRename(s: State, a: Action, f: nat) {
    a.Finalize? && !a.renamed && a.w < |s.workers| && s.workers[a.w] == Last(f)
  }

  ghost predicate RenameFailed(states: seq<State>, acts: seq<Action>, i: nat, f: nat)
    requires i <= |acts| && |states| == |acts| + 1
  {
    i > 0 && (RenameFailed(states, acts, i - 1, f) || FailsToRename(states[i - 1], acts[i - 1], f))
  }

  ghost predicate ErrorsExplained(job: Job, s: State, f: nat, renameFailed: bool)
    requires f < |s.finalizes| == |s.finalizeErr| == |job.files|
  {
    s.finalizeErr[f] <==> (s.finalizes[f] == 1 && !Genuine(job.files[f])) || renameFailed
  }

  lemma FinalizeErrors(job: Job, s: State, w: nat, renamed: bool, f: nat, before: bool)
    requires Accounts(job, s) && Enabled(job, s, Finalize(w, renamed)) && f < |job.files| && ErrorsExplained(job, s, f, before)
    ensures Accounts(job, Apply(job, s, Finalize(w, renamed)))
    ensures ErrorsExplained(job, Apply(job, s, Finalize(w, renamed)), f, before || FailsToRename(s, Finalize(w, renamed), f))
  {
    FinalizeAccounts(job, s, w, renamed);
  }

  lemma OtherErrors(job: Job, s: State, a: Action)
    requires Enabled(job, s, a) && !a.Finalize?
    ensures Apply(job, s, a).finalizes == s.finalizes && Apply(job, s, a).finalizeErr == s.finalizeErr
  {
  }

  lemma {:induction false} RunErrors(job: Job, states: seq<State>, acts: seq<Action>, i: nat, f: nat)
    requires WellFormedJob(job) && IsRun(job, states, acts) && i <= |acts| && f < |job.files|
    ensures |states[i].finalizes| == |states[i].finalizeErr| == |job.files|
    ensures ErrorsExplained(job, states[i], f, RenameFailed(states, acts, i, f))
  {
    if i > 0 {
      RunErrors(job, states, acts, i - 1, f);
      if acts[i - 1].Finalize? {
        RunInv(job, states, acts, i - 1);
        FinalizeErrors(job, states[i - 1], acts[i - 1].w, acts[i - 1].renamed, f, RenameFailed(states, acts, i - 1, f));
      } else {
        OtherErrors(job, states[i - 1], acts[i - 1]);
      }
    }
  }

  /** Exactly when a download that is not cancelled delivers a file: each of its missing chunks failed at
      most maxRetries times, and, if there was one, the manifest is genuine and the rename went through. */
  lemma SucceedsIff(job: Job, states: seq<State>, acts: seq<Action>, f: nat)
    requires WellFormedJob(job) && IsRun(job, states, acts) && f < |job.files|
    requires states[|acts|].main.Collected? && !states[|acts|].cancelled
    ensures |states[|acts|].remaining| == |states[|acts|].finalizeErr| == |job.files|
    ensures Succeeded(states[|acts|], f) <==>
            && (forall t :: t in FileTasks(job, f) ==> FailCount(states, acts, |acts|, t) <= job.maxRetries)
            && (FileTasks(job, f) == {} || (Genuine(job.files[f]) && !RenameFailed(states, acts, |acts|, f)))
  {
    var s := states[|acts|];
    RunInv(job, states, acts, |acts|);
    RunErrors(job, states, acts, |acts|, f);
    IdleWorkers(s.workers);
    forall t | t in FileTasks(job, f)
      ensures t in Uncounted(job, s, f) <==> FailCount(states, acts, |acts|, t) > job.maxRetries
    {
      EveryTaskIsRetried(job, states, acts, t);
    }
    assert s.remaining[f] == |Uncounted(job, s, f)|;
    assert s.remaining[f] <= 0 <==> Uncounted(job, s, f) == {};
  }
}
