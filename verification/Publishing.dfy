/** internal/nginx/reloader.go as a whole: the debounced loop drives the file
    protocol, operation by operation, and records how each render ended. */
module Publishing {
  import opened Text
  import R = Reloader
  import W = AtomicWriter

  /** Where `render` stands between its fetch and recordErr. */
  datatype Writing = NotWriting | Ongoing | Ended(ok: bool)

  datatype System = System(loop: R.System, files: W.System, writing: Writing)

  /** Store contents are identified by their versions; None is a nil fetch or a Render error. */
  type Renderer = seq<Option<nat>> -> Option<W.Rendering>

  datatype Step =
    | Loop(loopStep: R.Step)  // anything but the end of a render
    | Render                  // Render, then the first WriteAtomic starts
    | Io(op: W.Step)          // one file-system operation of WriteAtomic
    | Report                  // recordErr

  // ---- steps; a disabled step changes nothing -----------------------------------------------

  function RenderStep(s: System, render: Renderer): System {
    if !s.loop.phase.Rendering? || !s.writing.NotWriting? then s
    else match render(s.loop.read)
      case None => s.(loop := R.FinishStep(s.loop, false))
      case Some(r) => s.(files := W.BeginStep(s.files, r), writing := Ongoing)
  }

  /** An operation that ends the writing was the last directory fsync, or a failure. */
  function IoStep(s: System, op: W.Step): System {
    if !s.writing.Ongoing? || op.Begin? || op.Kill? || op.Crash? then s
    else
      var files := W.Apply(s.files, op);
      s.(files := files, writing := if files.pc.Idle? then Ended(op == W.SyncDir(true)) else Ongoing)
  }

  function ReportStep(s: System): System {
    if !s.writing.Ended? then s
    else s.(loop := R.FinishStep(s.loop, s.writing.ok), writing := NotWriting)
  }

  function Apply(s: System, step: Step, render: Renderer): System
    requires R.Shaped(s.loop)
  {
    match step
    case Loop(loopStep) => if loopStep.Finish? then s else s.(loop := R.Apply(s.loop, loopStep))
    case Render => RenderStep(s, render)
    case Io(op) => IoStep(s, op)
    case Report => ReportStep(s)
  }

  function Run(s: System, steps: seq<Step>, render: Renderer): (t: System)
    requires R.Shaped(s.loop)
    ensures R.Shaped(t.loop)
  {
    if steps == [] then s else Apply(Run(s, steps[..|steps| - 1], render), steps[|steps| - 1], render)
  }

  /** A process that starts on whatever earlier processes and crashes left on disk. */
  function Start(files: W.System): System {
    System(R.BOOT, files, NotWriting)
  }

  // ---- invariant ------------------------------------------------------------------------------

  /** The entry holds these bytes, and no crash can change that. */
  ghost predicate Holds(d: W.Dirent, bytes: string) {
    d.pending == [] && d.durable.Some? && d.durable.value.synced && d.durable.value.data == bytes
  }

  /** Both files are this rendering; without a distribution the conf is left alone. */
  ghost predicate OnDisk(files: W.System, r: W.Rendering) {
    Holds(files.disk.policies, r.policies) && (r.conf.Some? ==> Holds(files.disk.conf, r.conf.value))
  }

  /** The files are the rendering of these versions. */
  ghost predicate Shows(files: W.System, versions: seq<Option<nat>>, render: Renderer) {
    render(versions).Some? && OnDisk(files, render(versions).value)
  }

  ghost predicate WritingInv(s: System, render: Renderer) {
    match s.writing
    case NotWriting =>
      s.files.pc.Idle? && (s.loop.published.Some? && !s.loop.failed ==> Shows(s.files, s.loop.published.value, render))
    case Ongoing =>
      && s.loop.phase.Rendering? && !s.files.pc.Idle? && s.files.history != []
      && render(s.loop.read) == Some(s.files.history[W.Current(s.files)])
    case Ended(ok) =>
      s.loop.phase.Rendering? && s.files.pc.Idle? && (ok ==> Shows(s.files, s.loop.read, render))
  }

  ghost predicate Inv(s: System, render: Renderer) {
    R.Inv(s.loop) && W.Inv(s.files) && WritingInv(s, render)
  }

  /** The last directory fsync leaves the whole rendering on disk. */
  lemma LastSyncPublishes(w: W.System)
    requires W.Inv(w) && w.pc.Renamed? && W.SyncDirStep(w, true).pc.Idle?
    ensures OnDisk(W.SyncDirStep(w, true), w.history[W.Current(w)])
  {
  }

  lemma OperationsKeepHistory(w: W.System, op: W.Step)
    requires !op.Begin?
    ensures W.Apply(w, op).history == w.history
  {
  }

  /** Only the directory fsync ends a write with that step. */
  lemma EndedBySync(w: W.System)
    requires W.Inv(w) && !w.pc.Idle? && W.SyncDirStep(w, true).pc.Idle?
    ensures w.pc.Renamed?
  {
  }

  lemma IoKeepsInv(s: System, op: W.Step, render: Renderer)
    requires Inv(s, render)
    ensures Inv(IoStep(s, op), render)
  {
    if s.writing.Ongoing? && !op.Begin? && !op.Kill? && !op.Crash? {
      W.StepKeepsInv(s.files, op);
      OperationsKeepHistory(s.files, op);
      if op == W.SyncDir(true) && W.Apply(s.files, op).pc.Idle? {
        EndedBySync(s.files);
        LastSyncPublishes(s.files);
      }
    }
  }

  lemma RenderKeepsInv(s: System, render: Renderer)
    requires Inv(s, render)
    ensures Inv(RenderStep(s, render), render)
  {
    if s.loop.phase.Rendering? && s.writing.NotWriting? {
      match render(s.loop.read)
      case None => R.StepKeepsInv(s.loop, R.Finish(false));
      case Some(r) => W.BeginKeepsInv(s.files, r);
    }
  }

  lemma ReportKeepsInv(s: System, render: Renderer)
    requires Inv(s, render)
    ensures Inv(ReportStep(s), render)
  {
    if s.writing.Ended? { R.StepKeepsInv(s.loop, R.Finish(s.writing.ok)); }
  }

  /** The loop cannot leave its rendering phase by itself. */
  lemma LoopKeepsRendering(r: R.System, step: R.Step)
    requires R.Inv(r) && !step.Finish?
    ensures r.phase.Rendering? ==> R.Apply(r, step).phase.Rendering? && R.Apply(r, step).read == r.read
    ensures R.Apply(r, step).published == r.published && R.Apply(r, step).failed == r.failed
  {
  }

  lemma StepKeepsInv(s: System, step: Step, render: Renderer)
    requires Inv(s, render)
    ensures Inv(Apply(s, step, render), render)
  {
    match step
    case Loop(loopStep) =>
      if !loopStep.Finish? {
        R.StepKeepsInv(s.loop, loopStep);
        LoopKeepsRendering(s.loop, loopStep);
      }
    case Render => RenderKeepsInv(s, render);
    case Io(op) => IoKeepsInv(s, op, render);
    case Report => ReportKeepsInv(s, render);
  }

  lemma {:induction false} RunKeepsInv(files: W.System, steps: seq<Step>, render: Renderer)
    requires W.Inv(files) && files.pc.Idle?
    ensures Inv(Run(Start(files), steps, render), render)
  {
    if steps == [] {
      R.RunKeepsInv([]);
      assert R.Run(R.BOOT, []) == R.BOOT;
    } else {
      RunKeepsInv(files, steps[..|steps| - 1], render);
      StepKeepsInv(Run(Start(files), steps[..|steps| - 1], render), steps[|steps| - 1], render);
    }
  }

  // ---- main results ----------------------------------------------------------------------------

  /** What every store the fetch reads holds now. */
  function Versions(r: R.System): seq<Option<nat>>
    requires R.Shaped(r)
  {
    seq(R.READ, k requires 0 <= k < R.READ => Some(r.version[k]))
  }

  lemma QuiescentShows(s: System, render: Renderer)
    requires Inv(s, render) && R.Idle(s.loop) && R.NoneBusy(s.loop) && s.loop.accepted > 0 && !s.loop.failed
    ensures Shows(s.files, Versions(s.loop), render)
  {
    assert s.loop.read[0].Some?;
    assert s.loop.read == Versions(s.loop);
  }

  /** No mutation is lost on its way to disk: in every run, from whatever
      earlier crashes left behind, a quiescent loop whose last render succeeded
      has the rendering of every store's current contents in both files. */
  lemma QuiescentFilesAreCurrent(files: W.System, steps: seq<Step>, render: Renderer)
    requires W.Inv(files) && files.pc.Idle?
    ensures var s := Run(Start(files), steps, render);
            R.Idle(s.loop) && R.NoneBusy(s.loop) && s.loop.accepted > 0 && !s.loop.failed ==>
              Shows(s.files, Versions(s.loop), render)
  {
    RunKeepsInv(files, steps, render);
    var s := Run(Start(files), steps, render);
    if R.Idle(s.loop) && R.NoneBusy(s.loop) && s.loop.accepted > 0 && !s.loop.failed { QuiescentShows(s, render); }
  }

  /** A crash then changes neither file, and the next process may start on it. */
  lemma ShownSurvivesCrash(files: W.System, versions: seq<Option<nat>>, render: Renderer,
                           p: nat, c: nat, garbage: string, tmpP: Option<W.Inode>, tmpC: Option<W.Inode>)
    requires W.Inv(files) && Shows(files, versions, render)
    ensures var after := W.CrashStep(files, p, c, garbage, tmpP, tmpC);
            Shows(after, versions, render) && W.Inv(after) && after.pc.Idle?
  {
    W.CrashKeepsInv(files, p, c, garbage, tmpP, tmpC);
  }

  // ---- the loop settles, writes included ---------------------------------------------------------

  function Remaining(w: W.System): nat {
    if w.pc.Opened? && w.history != [] && w.pc.offset <= |W.Target(w)| then |W.Target(w)| - w.pc.offset else 0
  }

  /** File-system operations still to come, short of the bytes. */
  function Operations(w: W.System): nat {
    (if !w.pc.Idle? && w.pc.file == W.PoliciesJson then 6 else 0)
    + match w.pc
      case Idle => 0
      case Renamed(_) => 1
      case Closed(_) => 2
      case Synced(_) => 3
      case Opened(_, _) => 4
      case Start(_) => 5
  }

  function Stage(writing: Writing): nat {
    match writing case NotWriting => 2 case Ongoing => 1 case Ended(_) => 0
  }

  /** The next operation of WriteAtomic; `bytes` is what the kernel would take at most. */
  function NextOperation(w: W.System, ok: bool, bytes: nat): W.Step {
    match w.pc
    case Idle => W.WriteFails
    case Start(_) => W.OpenTmp(ok)
    case Opened(_, _) =>
      if !ok then W.WriteFails
      else if Remaining(w) == 0 then W.SyncTmp(ok)
      else W.Write(if bytes == 0 || bytes > Remaining(w) then Remaining(w) else bytes)
    case Synced(_) => W.CloseTmp(ok)
    case Closed(_) => W.Rename(ok)
    case Renamed(_) => W.SyncDir(ok)
  }

  lemma OperationProgress(w: W.System, ok: bool, bytes: nat)
    requires W.Inv(w) && !w.pc.Idle?
    ensures var t := W.Apply(w, NextOperation(w, ok, bytes));
            Operations(t) < Operations(w) || (Operations(t) == Operations(w) && Remaining(t) < Remaining(w))
  {
  }

  function NextStep(s: System, preferTimer: bool, ok: bool, bytes: nat): Step {
    match s.writing
    case Ended(_) => Report
    case Ongoing => Io(NextOperation(s.files, ok, bytes))
    case NotWriting =>
      match s.loop.phase
      case Rendering => Render
      case Fetching(_) => Loop(R.Read)
      case Waiting => Loop(if s.loop.timer && (!s.loop.token || preferTimer) then R.Fire else R.TakeTrigger)
  }

  ghost predicate Progress(s: System, t: System) {
    || R.Work(t.loop) < R.Work(s.loop)
    || (R.Work(t.loop) == R.Work(s.loop) &&
        (|| Stage(t.writing) < Stage(s.writing)
         || (Stage(t.writing) == Stage(s.writing) &&
             (|| Operations(t.files) < Operations(s.files)
              || (Operations(t.files) == Operations(s.files) && Remaining(t.files) < Remaining(s.files))))))
  }

  lemma NextStepProgress(s: System, render: Renderer, preferTimer: bool, ok: bool, bytes: nat)
    requires Inv(s, render) && R.NoneBusy(s.loop) && !R.Idle(s.loop)
    ensures var t := Apply(s, NextStep(s, preferTimer, ok, bytes), render);
            && Progress(s, t) && R.NoneBusy(t.loop)
            && t.loop.version == s.loop.version && t.loop.accepted == s.loop.accepted
  {
    if s.writing.Ongoing? { OperationProgress(s.files, ok, bytes); }
  }

  /** Once triggers stop, whatever order the channels are served in and
      whichever operations fail, the loop comes to rest; if its last render
      succeeded, both files are the rendering of the current contents. */
  method Settle(start: System, render: Renderer, preferTimer: nat -> bool, ok: nat -> bool, bytes: nat -> nat)
    returns (s: System)
    requires Inv(start, render) && R.NoneBusy(start.loop)
    ensures Inv(s, render) && R.Idle(s.loop) && R.NoneBusy(s.loop) && s.loop.version == start.loop.version
    ensures start.loop.accepted > 0 ==> R.UpToDate(s.loop)
    ensures start.loop.accepted > 0 && !s.loop.failed ==> Shows(s.files, Versions(s.loop), render)
  {
    s := start;
    var n := 0;
    while !R.Idle(s.loop)
      invariant Inv(s, render) && R.NoneBusy(s.loop)
      invariant s.loop.version == start.loop.version && s.loop.accepted == start.loop.accepted
      decreases R.Work(s.loop), Stage(s.writing), Operations(s.files), Remaining(s.files)
    {
      var step := NextStep(s, preferTimer(n), ok(n), bytes(n));
      NextStepProgress(s, render, preferTimer(n), ok(n), bytes(n));
      StepKeepsInv(s, step, render);
      s := Apply(s, step, render);
      n := n + 1;
    }
    if start.loop.accepted > 0 && !s.loop.failed { QuiescentShows(s, render); }
  }
}
