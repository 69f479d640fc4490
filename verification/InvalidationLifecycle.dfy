/** The life of an invalidation across goroutines and restarts: API handlers
    create and enqueue, one worker drains a bounded queue, a crash loses all but
    the bucket, and boot forces unfinished records to Completed
    (aws_handler.go, worker.go, bolt.go and the wiring in cmd/cf-local). */
module InvalidationLifecycle {
  import opened Text
  import opened PathPattern
  import opened InvalidationStore

  const QUEUE_CAPACITY := 256

  datatype Job = Job(id: string, paths: seq<string>)

  datatype Phase =
    | Booting(todo: set<string>)  // records that recovery still has to complete
    | Serving

  datatype Worker = Idle | Purging(job: Job) | Purged(job: Job)

  /** `handlers` holds requests between Store.Create and EnqueueFn. `accepted`,
      `started`, `dropped` and `unsaved` are history since boot; `begun` and
      `passes` log, across restarts, every purge pass that started and every
      one that ran to its end. */
  datatype System = System(
    store: StoreState, phase: Phase,
    handlers: map<string, seq<string>>, queue: seq<Job>, worker: Worker,
    accepted: seq<Job>, started: seq<Job>,
    dropped: set<string>, unsaved: set<string>,
    begun: seq<string>, passes: seq<string>)

  datatype Step =
    | HandlerCreate(distributionId: string, batch: Batch, id: string, now: int, persisted: bool)
    | HandlerEnqueue(id: string)
    | WorkerTake
    | WorkerPurge
    | WorkerFinish(persisted: bool)
    | RecoverOne(id: string, persisted: bool)
    | BootDone
    | Crash

  // ---- steps -----------------------------------------------------------------------------

  /** The process starts on whatever the bucket holds. */
  function Boot(disk: Records, begun: seq<string>, passes: seq<string>): System {
    System(StoreState(disk, disk), Booting(Pending(disk)), map[], [], Idle, [], [], {}, {}, begun, passes)
  }

  predicate ValidPaths(paths: seq<string>) {
    paths != [] && forall p :: p in paths ==> Acceptable(p)
  }

  /** Validate, persist; enqueueing is a later step of the same handler. */
  function CreateStep(s: System, distributionId: string, batch: Batch, id: string, now: int, persisted: bool): System {
    if !s.phase.Serving? || distributionId == "" || batch.callerReference == "" || !ValidPaths(batch.paths)
       || id == "" || id in s.store.mem || !persisted then s
    else
      s.(store := Put(s.store, Record(id, distributionId, InProgress, now, batch), true),
         handlers := s.handlers[id := batch.paths])
  }

  /** A full queue drops the job. */
  function EnqueueStep(s: System, id: string): System {
    if id !in s.handlers then s
    else
      var job := Job(id, s.handlers[id]);
      var rest := s.(handlers := s.handlers - {id});
      if |s.queue| < QUEUE_CAPACITY then rest.(queue := s.queue + [job], accepted := s.accepted + [job])
      else rest.(dropped := s.dropped + {id})
  }

  function TakeStep(s: System): System {
    if !s.phase.Serving? || s.queue == [] || !s.worker.Idle? then s
    else s.(worker := Purging(s.queue[0]), queue := s.queue[1..], started := s.started + [s.queue[0]],
            begun := s.begun + [s.queue[0].id])
  }

  /** One purge pass; its error, if any, is only logged. */
  function PurgeStep(s: System): System {
    if !s.worker.Purging? then s
    else s.(worker := Purged(s.worker.job), passes := s.passes + [s.worker.job.id])
  }

  function FinishStep(s: System, persisted: bool): System {
    if !s.worker.Purged? then s
    else
      var id := s.worker.job.id;
      var done := s.(store := SetStatus(s.store, id, Completed, persisted), worker := Idle);
      if persisted then done else done.(unsaved := s.unsaved + {id})
  }

  /** A failed recovery write makes the process exit. */
  function RecoverStep(s: System, id: string, persisted: bool): System {
    if !s.phase.Booting? || id !in s.phase.todo then s
    else if !persisted then Boot(s.store.disk, s.begun, s.passes)
    else s.(store := SetStatus(s.store, id, Completed, true), phase := Booting(s.phase.todo - {id}))
  }

  function BootDoneStep(s: System): System {
    if s.phase.Booting? && s.phase.todo == {} then s.(phase := Serving) else s
  }

  function Apply(s: System, step: Step): System {
    match step
    case HandlerCreate(d, b, id, now, ok) => CreateStep(s, d, b, id, now, ok)
    case HandlerEnqueue(id) => EnqueueStep(s, id)
    case WorkerTake => TakeStep(s)
    case WorkerPurge => PurgeStep(s)
    case WorkerFinish(ok) => FinishStep(s, ok)
    case RecoverOne(id, ok) => RecoverStep(s, id, ok)
    case BootDone => BootDoneStep(s)
    case Crash => Boot(s.store.disk, s.begun, s.passes)
  }

  function Run(s: System, steps: seq<Step>): System {
    if steps == [] then s else Apply(Run(s, steps[..|steps| - 1]), steps[|steps| - 1])
  }

  // ---- invariant ------------------------------------------------------------------------------

  ghost predicate DistinctIds(jobs: seq<Job>) {
    forall i, j :: 0 <= i < j < |jobs| ==> jobs[i].id != jobs[j].id
  }

  ghost function Ids(jobs: seq<Job>): set<string> {
    set j | j in jobs :: j.id
  }

  ghost function WorkerIds(w: Worker): set<string> {
    if w.Idle? then {} else {w.job.id}
  }

  /** Memory is disk, and recovery knows its work. */
  ghost predicate StoreInv(s: System) {
    && Mirrored(s.store)
    && (s.phase.Booting? ==> s.phase.todo == Pending(s.store.mem))
  }

  /** FIFO: what was accepted is what was started followed by what waits. */
  ghost predicate QueueInv(s: System) {
    && s.accepted == s.started + s.queue
    && |s.queue| <= QUEUE_CAPACITY
    && DistinctIds(s.accepted)
    && (!s.worker.Idle? ==> s.started != [] && s.started[|s.started| - 1] == s.worker.job)
    && (s.worker.Purged? ==> s.worker.job.id in s.passes)
  }

  /** The IDs this process has seen, by where they are now. */
  ghost predicate IdInv(s: System) {
    && s.handlers.Keys !! Ids(s.accepted) && s.handlers.Keys !! s.dropped && Ids(s.accepted) !! s.dropped
    && s.handlers.Keys + Ids(s.accepted) + s.dropped <= s.store.mem.Keys
    && s.unsaved <= Ids(s.started) && s.unsaved !! WorkerIds(s.worker)
    && (s.phase.Booting? ==> s.handlers == map[] && s.accepted == [] && s.worker.Idle? && s.dropped == {})
  }

  /** A record is InProgress for exactly one reason. */
  ghost predicate ProgressInv(s: System) {
    s.phase.Serving? ==>
      Pending(s.store.mem)
      == s.handlers.Keys + Ids(s.queue) + WorkerIds(s.worker) + s.dropped + s.unsaved
  }

  /** These are the paths of the record's own batch, all of them, and valid. */
  ghost predicate PathsOf(m: Records, id: string, paths: seq<string>) {
    id in m && m[id].batch.paths == paths && ValidPaths(paths)
  }

  /** Every handler and every accepted job carries its record's whole batch. */
  ghost predicate PathInv(s: System) {
    && (forall id :: id in s.handlers ==> PathsOf(s.store.mem, id, s.handlers[id]))
    && (forall j :: j in s.accepted ==> PathsOf(s.store.mem, j.id, j.paths))
  }

  /** No pass starts or ends twice for a record, and none started for a record that still waits. */
  ghost predicate PassInv(s: System) {
    && NoDuplicates(s.begun) && NoDuplicates(s.passes)
    && (forall id :: id in s.passes ==> id in s.begun)
    && (forall id :: id in s.begun ==> id in s.store.mem)
    && (forall id :: id in s.begun ==> id !in s.handlers && id !in Ids(s.queue) && id !in s.dropped)
    && (!s.worker.Idle? ==> s.worker.job.id in s.begun)
    && (s.worker.Purging? ==> s.worker.job.id !in s.passes)
  }

  ghost predicate Inv(s: System) {
    StoreInv(s) && QueueInv(s) && IdInv(s) && ProgressInv(s) && PathInv(s) && PassInv(s)
  }

  // ---- what each step keeps --------------------------------------------------------------------

  lemma PutPending(m: Records, rec: Record)
    ensures Pending(m[rec.id := rec]) == if rec.status == InProgress then Pending(m) + {rec.id} else Pending(m) - {rec.id}
  {
  }

  lemma SetCompletedPending(st: StoreState, id: string, persisted: bool)
    requires Mirrored(st)
    ensures var st' := SetStatus(st, id, Completed, persisted);
            && Mirrored(st') && st'.mem.Keys == st.mem.Keys
            && Pending(st'.mem) == if persisted then Pending(st.mem) - {id} else Pending(st.mem)
  {
    if id in st.mem && st.mem[id].status == InProgress {
      PutPending(st.mem, st.mem[id].(status := Completed));
    }
  }

  lemma IdsConcat(a: seq<Job>, b: seq<Job>)
    ensures Ids(a + b) == Ids(a) + Ids(b)
  {
    assert forall j :: j in a + b <==> j in a || j in b;
  }

  lemma IdsSingle(j: Job)
    ensures Ids([j]) == {j.id}
  {
  }

  lemma BootKeepsInv(disk: Records, begun: seq<string>, passes: seq<string>)
    requires Keyed(disk) && NoDuplicates(begun) && NoDuplicates(passes)
    requires (forall id :: id in begun ==> id in disk) && (forall id :: id in passes ==> id in begun)
    ensures Inv(Boot(disk, begun, passes))
  {
  }

  lemma CreateKeepsPaths(s: System, distributionId: string, batch: Batch, id: string, now: int, persisted: bool)
    requires PathInv(s)
    ensures PathInv(CreateStep(s, distributionId, batch, id, now, persisted))
  {
  }

  lemma CreateKeepsInv(s: System, distributionId: string, batch: Batch, id: string, now: int, persisted: bool)
    requires Inv(s)
    ensures Inv(CreateStep(s, distributionId, batch, id, now, persisted))
  {
    var s' := CreateStep(s, distributionId, batch, id, now, persisted);
    CreateKeepsPaths(s, distributionId, batch, id, now, persisted);
    if s' != s {
      PutPending(s.store.mem, Record(id, distributionId, InProgress, now, batch));
      assert s'.handlers.Keys == s.handlers.Keys + {id};
      assert id !in Ids(s.accepted) && id !in s.dropped && id !in s.begun;
      QueueWithinAccepted(s);
    }
  }

  lemma QueueWithinAccepted(s: System)
    requires QueueInv(s)
    ensures Ids(s.queue) <= Ids(s.accepted)
  {
    IdsConcat(s.started, s.queue);
  }

  lemma AppendDistinct(jobs: seq<Job>, job: Job)
    requires DistinctIds(jobs) && job.id !in Ids(jobs)
    ensures DistinctIds(jobs + [job])
  {
    forall i | 0 <= i < |jobs|
      ensures jobs[i].id != job.id
    {
      assert jobs[i] in jobs;
    }
  }

  lemma AcceptKeepsQueueInv(s: System, id: string)
    requires Inv(s) && id in s.handlers && |s.queue| < QUEUE_CAPACITY
    ensures QueueInv(EnqueueStep(s, id)) && PathInv(EnqueueStep(s, id))
  {
    var job := Job(id, s.handlers[id]);
    AppendDistinct(s.accepted, job);
    assert s.started + (s.queue + [job]) == (s.started + s.queue) + [job];
  }

  lemma AcceptKeepsIds(s: System, id: string)
    requires Inv(s) && id in s.handlers && |s.queue| < QUEUE_CAPACITY
    ensures IdInv(EnqueueStep(s, id))
  {
    var job := Job(id, s.handlers[id]);
    assert (s.handlers - {id}).Keys == s.handlers.Keys - {id};
    IdsConcat(s.accepted, [job]);
    IdsSingle(job);
  }

  lemma AcceptKeepsProgress(s: System, id: string)
    requires Inv(s) && id in s.handlers && |s.queue| < QUEUE_CAPACITY
    ensures ProgressInv(EnqueueStep(s, id))
  {
    var job := Job(id, s.handlers[id]);
    assert (s.handlers - {id}).Keys == s.handlers.Keys - {id};
    IdsConcat(s.queue, [job]);
    IdsSingle(job);
  }

  lemma AcceptKeepsPasses(s: System, id: string)
    requires Inv(s) && id in s.handlers && |s.queue| < QUEUE_CAPACITY
    ensures PassInv(EnqueueStep(s, id))
  {
    var job := Job(id, s.handlers[id]);
    IdsConcat(s.queue, [job]);
    IdsSingle(job);
  }

  lemma DropKeepsInv(s: System, id: string)
    requires Inv(s) && id in s.handlers && |s.queue| >= QUEUE_CAPACITY
    ensures Inv(EnqueueStep(s, id))
  {
    assert (s.handlers - {id}).Keys == s.handlers.Keys - {id};
  }

  lemma EnqueueKeepsInv(s: System, id: string)
    requires Inv(s)
    ensures Inv(EnqueueStep(s, id))
  {
    if id in s.handlers {
      if |s.queue| < QUEUE_CAPACITY {
        AcceptKeepsQueueInv(s, id);
        AcceptKeepsIds(s, id);
        AcceptKeepsProgress(s, id);
        AcceptKeepsPasses(s, id);
      } else {
        DropKeepsInv(s, id);
      }
    }
  }

  lemma QueueHeadIsNew(s: System)
    requires QueueInv(s) && s.queue != []
    ensures s.queue[0].id !in Ids(s.started) && s.queue[0].id !in Ids(s.queue[1..])
  {
    var n := |s.started|;
    forall j | j in s.started
      ensures j.id != s.queue[0].id
    {
      var i :| 0 <= i < n && s.started[i] == j;
      assert s.accepted[i] == j && s.accepted[n] == s.queue[0];
    }
    forall j | j in s.queue[1..]
      ensures j.id != s.queue[0].id
    {
      var i :| 0 <= i < |s.queue| - 1 && s.queue[1..][i] == j;
      assert s.accepted[n + 1 + i] == j && s.accepted[n] == s.queue[0];
    }
  }

  lemma TakeKeepsInv(s: System)
    requires Inv(s)
    ensures Inv(TakeStep(s))
  {
    if s.phase.Serving? && s.queue != [] && s.worker.Idle? {
      var job := s.queue[0];
      QueueHeadIsNew(s);
      assert s.queue == [job] + s.queue[1..];
      assert (s.started + [job]) + s.queue[1..] == s.started + s.queue;
      IdsConcat([job], s.queue[1..]);
      IdsConcat(s.started, [job]);
      IdsSingle(job);
    }
  }

  lemma PurgeKeepsInv(s: System)
    requires Inv(s)
    ensures Inv(PurgeStep(s))
  {
    if !s.worker.Idle? { WorkerIdElsewhere(s); }
  }

  /** The worker's job is the last one started, and no queued job shares its ID. */
  lemma WorkerIdElsewhere(s: System)
    requires Inv(s) && !s.worker.Idle?
    ensures var id := s.worker.job.id;
            && id in Ids(s.started) && id in s.store.mem
            && id !in s.handlers && id !in Ids(s.queue) && id !in s.dropped && id !in s.unsaved
  {
    var n := |s.started| - 1;
    assert s.started[n] in s.started && s.accepted[n] == s.started[n];
    assert s.accepted[n] in s.accepted;
    IdsConcat(s.started, s.queue);
    forall j | j in s.queue
      ensures j.id != s.worker.job.id
    {
      var i :| 0 <= i < |s.queue| && s.queue[i] == j;
      assert s.accepted[n + 1 + i] == j;
    }
  }

  lemma StatusKeepsPaths(st: StoreState, id: string, persisted: bool, k: string, paths: seq<string>)
    requires Mirrored(st) && PathsOf(st.mem, k, paths)
    ensures PathsOf(SetStatus(st, id, Completed, persisted).mem, k, paths)
  {
  }

  lemma FinishKeepsPaths(s: System, persisted: bool)
    requires Inv(s)
    ensures PathInv(FinishStep(s, persisted))
  {
    if s.worker.Purged? {
      forall k, paths | PathsOf(s.store.mem, k, paths)
        ensures PathsOf(FinishStep(s, persisted).store.mem, k, paths)
      {
        StatusKeepsPaths(s.store, s.worker.job.id, persisted, k, paths);
      }
    }
  }

  lemma FinishKeepsInv(s: System, persisted: bool)
    requires Inv(s)
    ensures Inv(FinishStep(s, persisted))
  {
    FinishKeepsPaths(s, persisted);
    if s.worker.Purged? {
      WorkerIdElsewhere(s);
      SetCompletedPending(s.store, s.worker.job.id, persisted);
    }
  }

  lemma RecoverKeepsInv(s: System, id: string, persisted: bool)
    requires Inv(s)
    ensures Inv(RecoverStep(s, id, persisted))
  {
    CrashKeepsInv(s);
    SetCompletedPending(s.store, id, true);
  }

  lemma BootDoneKeepsInv(s: System)
    requires Inv(s)
    ensures Inv(BootDoneStep(s))
  {
  }

  lemma CrashKeepsInv(s: System)
    requires Inv(s)
    ensures Inv(Boot(s.store.disk, s.begun, s.passes))
  {
    BootKeepsInv(s.store.disk, s.begun, s.passes);
  }

  lemma StepKeepsInv(s: System, step: Step)
    requires Inv(s)
    ensures Inv(Apply(s, step))
  {
    match step
    case HandlerCreate(d, b, id, now, ok) => CreateKeepsInv(s, d, b, id, now, ok);
    case HandlerEnqueue(id) => EnqueueKeepsInv(s, id);
    case WorkerTake => TakeKeepsInv(s);
    case WorkerPurge => PurgeKeepsInv(s);
    case WorkerFinish(ok) => FinishKeepsInv(s, ok);
    case RecoverOne(id, ok) => RecoverKeepsInv(s, id, ok);
    case BootDone => BootDoneKeepsInv(s);
    case Crash => CrashKeepsInv(s);
  }

  // ---- whole runs ---------------------------------------------------------------------------------

  lemma {:induction false} RunKeepsInv(disk: Records, steps: seq<Step>)
    requires Keyed(disk)
    ensures Inv(Run(Boot(disk, [], []), steps))
  {
    if steps == [] {
      BootKeepsInv(disk, [], []);
    } else {
      RunKeepsInv(disk, steps[..|steps| - 1]);
      StepKeepsInv(Run(Boot(disk, [], []), steps[..|steps| - 1]), steps[|steps| - 1]);
    }
  }

  /** Records are never lost, never edited and never reopened. */
  ghost predicate Extends(a: Records, b: Records) {
    forall id :: id in a ==> id in b && (b[id] == a[id] || b[id] == a[id].(status := Completed))
  }

  lemma ExtendsTransitive(a: Records, b: Records, c: Records)
    requires Extends(a, b) && Extends(b, c)
    ensures Extends(a, c)
  {
  }

  lemma CreateExtends(s: System, distributionId: string, batch: Batch, id: string, now: int, persisted: bool)
    ensures Extends(s.store.mem, CreateStep(s, distributionId, batch, id, now, persisted).store.mem)
  {
  }

  lemma CompleteExtends(st: StoreState, id: string, persisted: bool)
    requires Mirrored(st)
    ensures Extends(st.mem, SetStatus(st, id, Completed, persisted).mem)
  {
  }

  lemma StepExtends(s: System, step: Step)
    requires Inv(s)
    ensures Extends(s.store.mem, Apply(s, step).store.mem)
  {
    match step
    case HandlerCreate(d, b, id, now, ok) => CreateExtends(s, d, b, id, now, ok);
    case HandlerEnqueue(id) =>
    case WorkerTake =>
    case WorkerPurge =>
    case WorkerFinish(ok) => if s.worker.Purged? { CompleteExtends(s.store, s.worker.job.id, ok); }
    case RecoverOne(id, ok) => CompleteExtends(s.store, id, true);
    case BootDone =>
    case Crash =>
  }

  /** Across any run, restarts included, the record set only grows and a
      Completed record stays Completed. */
  lemma {:induction false} RunExtends(s: System, steps: seq<Step>)
    requires Inv(s)
    ensures Inv(Run(s, steps)) && Extends(s.store.mem, Run(s, steps).store.mem)
  {
    if steps != [] {
      var mid := Run(s, steps[..|steps| - 1]);
      RunExtends(s, steps[..|steps| - 1]);
      StepKeepsInv(mid, steps[|steps| - 1]);
      StepExtends(mid, steps[|steps| - 1]);
      ExtendsTransitive(s.store.mem, mid.store.mem, Run(s, steps).store.mem);
    }
  }

  /** A record leaves InProgress only through recovery, or through the worker
      and then only after that job's own purge pass. */
  lemma CompletionHasACause(s: System, step: Step, id: string)
    requires Inv(s)
    requires id in s.store.mem && s.store.mem[id].status == InProgress
    requires Apply(s, step).store.mem[id].status == Completed
    ensures (step.RecoverOne? && s.phase.Booting? && step.id == id)
         || (step.WorkerFinish? && s.worker.Purged? && s.worker.job.id == id && id in s.passes)
  {
  }

  /** The worker's pass is for exactly the batch of the record it will complete. */
  lemma WorkerServesItsRecord(s: System)
    requires Inv(s) && !s.worker.Idle?
    ensures PathsOf(s.store.mem, s.worker.job.id, s.worker.job.paths)
  {
    var n := |s.started| - 1;
    assert s.accepted[n] == s.worker.job && s.accepted[n] in s.accepted;
  }

  /** Create takes effect exactly while serving, for a named distribution, a
      caller reference, at least one path and only acceptable ones, a new ID
      and a successful write. Then it records all it was given, as InProgress,
      hands the same paths on, and touches no other record. */
  lemma CreateExactly(s: System, distributionId: string, batch: Batch, id: string, now: int, persisted: bool)
    requires Inv(s)
    ensures
      var t := CreateStep(s, distributionId, batch, id, now, persisted);
      if && s.phase.Serving? && distributionId != "" && batch.callerReference != "" && batch.paths != []
         && (forall p :: p in batch.paths ==> Acceptable(p)) && id != "" && id !in s.store.mem && persisted
      then
        && t.store.mem.Keys == s.store.mem.Keys + {id} && t.store.disk == t.store.mem
        && t.store.mem[id].id == id && t.store.mem[id].distributionId == distributionId
        && t.store.mem[id].status == InProgress && t.store.mem[id].createTime == now && t.store.mem[id].batch == batch
        && (forall k :: k in s.store.mem ==> t.store.mem[k] == s.store.mem[k])
        && t.handlers == s.handlers[id := batch.paths]
      else t == s
  {
  }

  /** A job is dropped exactly when the queue holds 256 jobs; otherwise it joins the end. */
  lemma DropsExactlyWhenFull(s: System, id: string)
    requires Inv(s) && id in s.handlers
    ensures var t := EnqueueStep(s, id);
            && id !in t.handlers
            && (if |s.queue| == 256 then t.dropped == s.dropped + {id} && t.queue == s.queue
                else t.dropped == s.dropped && t.queue == s.queue + [Job(id, s.store.mem[id].batch.paths)])
  {
  }

  // ---- progress ------------------------------------------------------------------------------------

  lemma {:induction false} RunConcat(s: System, a: seq<Step>, b: seq<Step>)
    ensures Run(s, a + b) == Run(Run(s, a), b)
  {
    if b == [] {
      assert a + b == a;
    } else {
      var n := |b| - 1;
      assert (a + b)[..|a + b| - 1] == a + b[..n];
      RunConcat(s, a, b[..n]);
    }
  }

  lemma RunOne(s: System, step: Step)
    ensures Run(s, [step]) == Apply(s, step)
  {
    assert [step][..0] == [];
  }

  /** The records with these IDs Completed, all others as they were. */
  ghost function WithCompleted(m: Records, ids: set<string>): Records {
    map id | id in m :: if id in ids then m[id].(status := Completed) else m[id]
  }

  /** What an idle worker makes of the first job in its queue. */
  function Round(s: System): System {
    FinishStep(PurgeStep(TakeStep(s)), true)
  }

  const ROUND := [WorkerTake, WorkerPurge, WorkerFinish(true)]

  lemma RunRound(s: System)
    ensures Run(s, ROUND) == Round(s)
  {
    RunOne(s, WorkerTake);
    RunOne(TakeStep(s), WorkerPurge);
    RunOne(PurgeStep(TakeStep(s)), WorkerFinish(true));
    RunConcat(s, [WorkerTake], [WorkerPurge]);
    RunConcat(s, [WorkerTake] + [WorkerPurge], [WorkerFinish(true)]);
    assert ROUND == [WorkerTake] + [WorkerPurge] + [WorkerFinish(true)];
  }

  lemma StatusCompletes(st: StoreState, id: string)
    requires Mirrored(st)
    ensures SetStatus(st, id, Completed, true).mem == WithCompleted(st.mem, {id})
  {
  }

  /** The worker took the first job, ran its pass and completed its record. */
  ghost predicate JobServed(s: System, t: System)
    requires s.queue != []
  {
    && t.phase.Serving? && t.worker.Idle? && t.queue == s.queue[1..]
    && t.store.mem == WithCompleted(s.store.mem, {s.queue[0].id}) && t.passes == s.passes + [s.queue[0].id]
  }

  lemma RoundServes(s: System)
    requires Mirrored(s.store) && s.phase.Serving? && s.worker.Idle? && s.queue != []
    ensures JobServed(s, Round(s))
  {
    StatusCompletes(s.store, s.queue[0].id);
  }

  lemma RoundKeepsInv(s: System)
    requires Inv(s)
    ensures Inv(Round(s))
  {
    TakeKeepsInv(s);
    PurgeKeepsInv(TakeStep(s));
    FinishKeepsInv(PurgeStep(TakeStep(s)), true);
  }

  lemma CompletedInTurn(m: Records, a: set<string>, b: set<string>)
    ensures WithCompleted(WithCompleted(m, a), b) == WithCompleted(m, a + b)
  {
  }

  function IdList(jobs: seq<Job>): seq<string> {
    if jobs == [] then [] else [jobs[0].id] + IdList(jobs[1..])
  }

  /** All jobs that `s` had queued are served, in order, and nothing else is. */
  ghost predicate Drained(s: System, t: System) {
    && t.queue == [] && t.worker.Idle?
    && t.store.mem == WithCompleted(s.store.mem, Ids(s.queue)) && t.passes == s.passes + IdList(s.queue)
  }

  lemma DrainedInTurn(s: System, mid: System, t: System)
    requires s.queue != [] && JobServed(s, mid) && Drained(mid, t)
    ensures Drained(s, t)
  {
    var job, rest := s.queue[0], s.queue[1..];
    CompletedInTurn(s.store.mem, {job.id}, Ids(rest));
    assert s.queue == [job] + rest;
    IdsConcat([job], rest);
    IdsSingle(job);
  }

  lemma NothingToDrain(s: System)
    requires s.queue == [] && s.worker.Idle?
    ensures Drained(s, s)
  {
    assert WithCompleted(s.store.mem, Ids(s.queue)) == s.store.mem;
  }

  /** Left alone, the worker serves every queued job, in order and with a pass
      of its own each, and completes exactly their records. */
  lemma {:induction false} DrainCompletes(s: System) returns (steps: seq<Step>)
    requires Inv(s) && s.phase.Serving? && s.worker.Idle?
    ensures |steps| == 3 * |s.queue| && Drained(s, Run(s, steps))
    decreases |s.queue|
  {
    steps := [];
    if s.queue == [] {
      NothingToDrain(s);
    } else {
      RoundServes(s);
      RoundKeepsInv(s);
      var more := DrainCompletes(Round(s));
      steps := ROUND + more;
      RunRound(s);
      RunConcat(s, ROUND, more);
      DrainedInTurn(s, Round(s), Run(s, steps));
    }
  }

  lemma RecoverOneCompletes(s: System, id: string)
    requires Inv(s) && s.phase.Booting? && id in s.phase.todo
    ensures var t := RecoverStep(s, id, true);
            t.phase == Booting(s.phase.todo - {id}) && AllCompleted(t.store.mem) == AllCompleted(s.store.mem)
  {
    StatusCompletes(s.store, id);
  }

  lemma BootDoneServes(s: System)
    requires Inv(s) && s.phase.Booting? && s.phase.todo == {}
    ensures BootDoneStep(s).phase.Serving? && s.store.mem == s.store.disk == AllCompleted(s.store.mem)
  {
    NothingPending(s.store.mem);
  }

  /** Serving, with every record of `m` Completed and otherwise as it was. */
  ghost predicate ServingAllCompleted(m: Records, t: System) {
    t.phase.Serving? && t.store.mem == AllCompleted(m) && t.store.disk == t.store.mem
  }

  /** A boot whose writes succeed reaches the serving phase with every record
      Completed and otherwise as it was. */
  lemma {:induction false} RecoveryServes(s: System) returns (steps: seq<Step>)
    requires Inv(s) && s.phase.Booting?
    ensures ServingAllCompleted(s.store.mem, Run(s, steps))
    decreases |s.phase.todo|, 1
  {
    if s.phase.todo == {} {
      steps := [BootDone];
      RunOne(s, BootDone);
      BootDoneServes(s);
    } else {
      var id :| id in s.phase.todo;
      steps := RecoveryFrom(s, id);
    }
  }

  lemma {:induction false} RecoveryFrom(s: System, id: string) returns (steps: seq<Step>)
    requires Inv(s) && s.phase.Booting? && id in s.phase.todo
    ensures ServingAllCompleted(s.store.mem, Run(s, steps))
    decreases |s.phase.todo|, 0
  {
    var t := RecoverStep(s, id, true);
    RecoverOneCompletes(s, id);
    RecoverKeepsInv(s, id, true);
    var more := RecoveryServes(t);
    steps := [RecoverOne(id, true)] + more;
    RunOne(s, RecoverOne(id, true));
    RunConcat(s, [RecoverOne(id, true)], more);
  }

  lemma NothingPending(m: Records)
    requires Pending(m) == {}
    ensures AllCompleted(m) == m
  {
    forall id | id in m
      ensures m[id].status == Completed
    {
      assert id !in Pending(m);
    }
  }

  // ---- what stands at any moment -------------------------------------------------------------------

  /** Boot reaches the serving phase only with nothing InProgress. */
  lemma ServingStartsClean(s: System)
    requires Inv(s) && s.phase.Booting?
    ensures BootDoneStep(s).phase.Serving? <==> Pending(s.store.mem) == {}
  {
  }

  /** Over the whole run, restarts included, at most one purge pass is started
      for an invalidation, be it cut off by a crash or not. */
  lemma PurgedAtMostOnce(disk: Records, steps: seq<Step>)
    requires Keyed(disk)
    ensures NoDuplicates(Run(Boot(disk, [], []), steps).begun)
    ensures NoDuplicates(Run(Boot(disk, [], []), steps).passes)
    ensures forall id :: id in Run(Boot(disk, [], []), steps).passes ==> id in Run(Boot(disk, [], []), steps).begun
  {
    RunKeepsInv(disk, steps);
  }

  /** Every job is started at most once and in acceptance order. */
  lemma StartedInOrder(s: System)
    requires Inv(s)
    ensures s.started <= s.accepted && DistinctIds(s.started)
  {
    assert s.accepted[..|s.started|] == s.started;
  }

  /** The reasons to be InProgress exclude each other, and a dropped job is not completed. */
  lemma DroppedStaysInProgress(s: System, id: string)
    requires Inv(s) && s.phase.Serving? && id in s.dropped
    ensures id in s.store.mem && s.store.mem[id].status == InProgress
    ensures id !in Ids(s.accepted) && id !in s.handlers && id !in WorkerIds(s.worker)
  {
    assert id in Pending(s.store.mem);
    if !s.worker.Idle? { WorkerIdElsewhere(s); }
  }
}
