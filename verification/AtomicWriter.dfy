/** internal/nginx/writer.go under the two-file order of reloader.go: policies.json
    and then cf-local.conf, each by tmp + fsync + rename + directory fsync, with a
    kill or a crash possible between any two file-system operations. */
module AtomicWriter {
  import opened Text

  /** One rendering; no conf is written while there is no distribution. */
  datatype Rendering = Rendering(policies: string, conf: Option<string>)

  datatype Name = PoliciesJson | Conf

  /** A file's bytes; `synced` once fsync returned. `origin` remembers which
      rendering the file was opened for and influences nothing. */
  datatype Inode = Inode(data: string, synced: bool, origin: nat)

  /** A directory entry: what is on disk for sure, and the renames since then,
      any of which a crash may or may not have kept. */
  datatype Dirent = Dirent(durable: Option<Inode>, pending: seq<Inode>)

  datatype Disk = Disk(policies: Dirent, conf: Dirent, tmpPolicies: Option<Inode>, tmpConf: Option<Inode>)

  /** Where WriteAtomic stands. */
  datatype Pc =
    | Idle
    | Start(file: Name)
    | Opened(file: Name, offset: nat)
    | Synced(file: Name)
    | Closed(file: Name)
    | Renamed(file: Name)

  datatype System = System(history: seq<Rendering>, disk: Disk, pc: Pc)

  datatype Step =
    | Begin(rendering: Rendering)
    | OpenTmp(ok: bool)
    | Write(bytes: nat)                // the kernel takes some of the bytes
    | WriteFails
    | SyncTmp(ok: bool)
    | CloseTmp(ok: bool)
    | Rename(ok: bool)
    | SyncDir(ok: bool)
    | Kill                             // the process dies, the kernel goes on
    | Crash(policies: nat, conf: nat, garbage: string, tmpPolicies: Option<Inode>, tmpConf: Option<Inode>)

  // ---- the file system ---------------------------------------------------------------------

  function Visible(d: Dirent): Option<Inode> {
    if d.pending == [] then d.durable else Some(d.pending[|d.pending| - 1])
  }

  function Entry(disk: Disk, f: Name): Dirent {
    if f == PoliciesJson then disk.policies else disk.conf
  }

  function Tmp(disk: Disk, f: Name): Option<Inode> {
    if f == PoliciesJson then disk.tmpPolicies else disk.tmpConf
  }

  function WithTmp(disk: Disk, f: Name, tmp: Option<Inode>): Disk {
    if f == PoliciesJson then disk.(tmpPolicies := tmp) else disk.(tmpConf := tmp)
  }

  function WithEntry(disk: Disk, f: Name, d: Dirent): Disk {
    if f == PoliciesJson then disk.(policies := d) else disk.(conf := d)
  }

  /** Writing at an offset keeps whatever lies beyond the written bytes. */
  function Overwrite(data: string, offset: nat, chunk: string): string
    requires offset <= |data|
  {
    data[..offset] + chunk + if offset + |chunk| < |data| then data[offset + |chunk|..] else []
  }

  function Settled(d: Dirent): Dirent {
    Dirent(Visible(d), [])
  }

  /** A crash keeps the durable entry or one of the renames; bytes that were
      never synced come back as garbage. */
  function Survivor(d: Dirent, choice: nat, garbage: string): Dirent {
    var kept := if choice < |d.pending| then Some(d.pending[choice]) else d.durable;
    Dirent(match kept
           case None => None
           case Some(n) => Some(if n.synced then n else n.(data := garbage)), [])
  }

  // ---- WriteAtomic, operation by operation ----------------------------------------------------

  function Content(r: Rendering, f: Name): string {
    if f == PoliciesJson then r.policies else if r.conf.Some? then r.conf.value else ""
  }

  function Current(s: System): nat
    requires s.history != []
  {
    |s.history| - 1
  }

  /** What the file being written should hold. */
  function Target(s: System): string
    requires s.history != [] && !s.pc.Idle?
  {
    Content(s.history[Current(s)], s.pc.file)
  }

  /** Error return: the tmp file is removed and the rendering is given up. */
  function Cleanup(s: System): System
    requires !s.pc.Idle?
  {
    s.(disk := WithTmp(s.disk, s.pc.file, None), pc := Idle)
  }

  function BeginStep(s: System, r: Rendering): System {
    if s.pc.Idle? then s.(history := s.history + [r], pc := Start(PoliciesJson)) else s
  }

  /** O_CREATE|O_TRUNC: a stale tmp file loses its bytes. */
  function OpenStep(s: System, ok: bool): System {
    if !s.pc.Start? || s.history == [] then s
    else if !ok then s.(pc := Idle)
    else s.(disk := WithTmp(s.disk, s.pc.file, Some(Inode("", false, Current(s)))), pc := Opened(s.pc.file, 0))
  }

  function WriteStep(s: System, bytes: nat): System {
    if !s.pc.Opened? || s.history == [] || Tmp(s.disk, s.pc.file).None? then s
    else
      var target, tmp, offset := Target(s), Tmp(s.disk, s.pc.file).value, s.pc.offset;
      if offset > |tmp.data| || offset + bytes > |target| then s
      else
        var data := Overwrite(tmp.data, offset, target[offset..offset + bytes]);
        s.(disk := WithTmp(s.disk, s.pc.file, Some(tmp.(data := data))), pc := Opened(s.pc.file, offset + bytes))
  }

  function SyncStep(s: System, ok: bool): System {
    if !s.pc.Opened? || s.history == [] || Tmp(s.disk, s.pc.file).None? || s.pc.offset != |Target(s)| then s
    else if !ok then Cleanup(s)
    else s.(disk := WithTmp(s.disk, s.pc.file, Some(Tmp(s.disk, s.pc.file).value.(synced := true))), pc := Synced(s.pc.file))
  }

  function CloseStep(s: System, ok: bool): System {
    if !s.pc.Synced? then s else if ok then s.(pc := Closed(s.pc.file)) else Cleanup(s)
  }

  function RenameStep(s: System, ok: bool): System {
    if !s.pc.Closed? || Tmp(s.disk, s.pc.file).None? then s
    else if !ok then Cleanup(s)
    else
      var f := s.pc.file;
      var d := Entry(s.disk, f);
      s.(disk := WithTmp(WithEntry(s.disk, f, Dirent(d.durable, d.pending + [Tmp(s.disk, f).value])), f, None),
         pc := Renamed(f))
  }

  /** Directory fsync; only after it succeeded for policies.json is the conf started. */
  function SyncDirStep(s: System, ok: bool): System {
    if !s.pc.Renamed? || s.history == [] then s
    else if !ok then s.(pc := Idle)
    else
      var next := if s.pc.file == PoliciesJson && s.history[Current(s)].conf.Some? then Start(Conf) else Idle;
      s.(disk := s.disk.(policies := Settled(s.disk.policies), conf := Settled(s.disk.conf)), pc := next)
  }

  function CrashStep(s: System, p: nat, c: nat, garbage: string, tmpP: Option<Inode>, tmpC: Option<Inode>): System {
    s.(disk := Disk(Survivor(s.disk.policies, p, garbage), Survivor(s.disk.conf, c, garbage), tmpP, tmpC), pc := Idle)
  }

  function Apply(s: System, step: Step): System {
    match step
    case Begin(r) => BeginStep(s, r)
    case OpenTmp(ok) => OpenStep(s, ok)
    case Write(bytes) => WriteStep(s, bytes)
    case WriteFails => if s.pc.Opened? then Cleanup(s) else s
    case SyncTmp(ok) => SyncStep(s, ok)
    case CloseTmp(ok) => CloseStep(s, ok)
    case Rename(ok) => RenameStep(s, ok)
    case SyncDir(ok) => SyncDirStep(s, ok)
    case Kill => s.(pc := Idle)
    case Crash(p, c, garbage, tmpP, tmpC) => CrashStep(s, p, c, garbage, tmpP, tmpC)
  }

  function Run(s: System, steps: seq<Step>): System {
    if steps == [] then s else Apply(Run(s, steps[..|steps| - 1]), steps[|steps| - 1])
  }

  /** An empty output directory, whatever tmp files lie around. */
  function Fresh(tmpP: Option<Inode>, tmpC: Option<Inode>): System {
    System([], Disk(Dirent(None, []), Dirent(None, []), tmpP, tmpC), Idle)
  }

  // ---- invariant ------------------------------------------------------------------------------------

  /** Synced, and exactly the bytes of the rendering it was opened for. */
  ghost predicate Whole(n: Inode, f: Name, history: seq<Rendering>) {
    && n.synced && n.origin < |history|
    && (f == Conf ==> history[n.origin].conf.Some?)
    && n.data == Content(history[n.origin], f)
  }

  ghost predicate WholeEntry(d: Dirent, f: Name, history: seq<Rendering>) {
    && (d.durable.Some? ==> Whole(d.durable.value, f, history))
    && (forall i :: 0 <= i < |d.pending| ==> Whole(d.pending[i], f, history))
    && (d.durable.Some? ==> forall i :: 0 <= i < |d.pending| ==> d.durable.value.origin <= d.pending[i].origin)
  }

  /** Every conf that could survive a crash is no newer than the durable policies. */
  ghost predicate ConfBehind(disk: Disk) {
    var d, p := disk.conf, disk.policies.durable;
    && (d.durable.Some? ==> p.Some? && d.durable.value.origin <= p.value.origin)
    && (forall i :: 0 <= i < |d.pending| ==> p.Some? && d.pending[i].origin <= p.value.origin)
  }

  /** While the conf is written, the policies of the same rendering are durable. */
  ghost predicate PoliciesFirst(s: System) {
    !s.pc.Idle? && s.pc.file == Conf ==>
      && s.history != []
      && s.disk.policies.durable.Some? && s.disk.policies.durable.value.origin == Current(s)
      && s.disk.policies.pending == []
      && s.history[Current(s)].conf.Some?
  }

  ghost predicate TmpInv(s: System) {
    !s.pc.Idle? && !s.pc.Start? && !s.pc.Renamed? ==>
      var tmp := Tmp(s.disk, s.pc.file);
      && s.history != [] && tmp.Some? && tmp.value.origin == Current(s)
      && (s.pc.Opened? ==> s.pc.offset <= |Target(s)| && tmp.value.data == Target(s)[..s.pc.offset])
      && (!s.pc.Opened? ==> tmp.value.synced && tmp.value.data == Target(s))
  }

  /** A fresh rename is the newest thing in its entry. */
  ghost predicate RenamedInv(s: System) {
    s.pc.Renamed? ==>
      var d := Entry(s.disk, s.pc.file);
      s.history != [] && d.pending != [] && d.pending[|d.pending| - 1].origin == Current(s)
  }

  ghost predicate Inv(s: System) {
    && (!s.pc.Idle? ==> s.history != [])
    && WholeEntry(s.disk.policies, PoliciesJson, s.history)
    && WholeEntry(s.disk.conf, Conf, s.history)
    && ConfBehind(s.disk) && PoliciesFirst(s) && TmpInv(s) && RenamedInv(s)
  }

  lemma WholeLater(n: Inode, f: Name, history: seq<Rendering>, r: Rendering)
    requires Whole(n, f, history)
    ensures Whole(n, f, history + [r])
  {
  }

  lemma BeginKeepsInv(s: System, r: Rendering)
    requires Inv(s)
    ensures Inv(BeginStep(s, r))
  {
    forall n, f | Whole(n, f, s.history)
      ensures Whole(n, f, s.history + [r])
    {
      WholeLater(n, f, s.history, r);
    }
  }

  lemma WriteTouchesTmpOnly(s: System, bytes: nat)
    ensures var t := WriteStep(s, bytes);
            t.disk.policies == s.disk.policies && t.disk.conf == s.disk.conf && t.history == s.history
  {
  }

  lemma WriteKeepsInv(s: System, bytes: nat)
    requires Inv(s)
    ensures Inv(WriteStep(s, bytes))
  {
    if s.pc.Opened? && s.pc.offset + bytes <= |Target(s)| {
      var t, k := Target(s), s.pc.offset;
      assert t[..k] + t[k..k + bytes] == t[..k + bytes];
      assert Overwrite(t[..k], k, t[k..k + bytes]) == t[..k + bytes];
    }
    WriteTouchesTmpOnly(s, bytes);
  }

  lemma SyncKeepsInv(s: System, ok: bool)
    requires Inv(s)
    ensures Inv(SyncStep(s, ok))
  {
    if s.pc.Opened? { assert Target(s)[..|Target(s)|] == Target(s); }
  }

  lemma RenameKeepsInv(s: System, ok: bool)
    requires Inv(s)
    ensures Inv(RenameStep(s, ok))
  {
    if s.pc.Closed? {
      assert s.pc.file == PoliciesJson ==> Whole(Tmp(s.disk, PoliciesJson).value, PoliciesJson, s.history);
      assert s.pc.file == Conf ==> Whole(Tmp(s.disk, Conf).value, Conf, s.history);
    }
  }

  lemma SyncDirKeepsInv(s: System, ok: bool)
    requires Inv(s)
    ensures Inv(SyncDirStep(s, ok))
  {
  }

  lemma CrashKeepsInv(s: System, p: nat, c: nat, garbage: string, tmpP: Option<Inode>, tmpC: Option<Inode>)
    requires Inv(s)
    ensures Inv(CrashStep(s, p, c, garbage, tmpP, tmpC))
  {
  }

  lemma OpenKeepsInv(s: System, ok: bool)
    requires Inv(s)
    ensures Inv(OpenStep(s, ok))
  {
  }

  lemma CloseKeepsInv(s: System, ok: bool)
    requires Inv(s)
    ensures Inv(CloseStep(s, ok))
  {
  }

  lemma StepKeepsInv(s: System, step: Step)
    requires Inv(s)
    ensures Inv(Apply(s, step))
  {
    match step
    case Begin(r) => BeginKeepsInv(s, r);
    case OpenTmp(ok) => OpenKeepsInv(s, ok);
    case Write(bytes) => WriteKeepsInv(s, bytes);
    case WriteFails =>
    case SyncTmp(ok) => SyncKeepsInv(s, ok);
    case CloseTmp(ok) => CloseKeepsInv(s, ok);
    case Rename(ok) => RenameKeepsInv(s, ok);
    case SyncDir(ok) => SyncDirKeepsInv(s, ok);
    case Kill =>
    case Crash(p, c, garbage, tmpP, tmpC) => CrashKeepsInv(s, p, c, garbage, tmpP, tmpC);
  }

  lemma {:induction false} RunKeepsInv(tmpP: Option<Inode>, tmpC: Option<Inode>, steps: seq<Step>)
    ensures Inv(Run(Fresh(tmpP, tmpC), steps))
  {
    if steps != [] {
      RunKeepsInv(tmpP, tmpC, steps[..|steps| - 1]);
      StepKeepsInv(Run(Fresh(tmpP, tmpC), steps[..|steps| - 1]), steps[|steps| - 1]);
    }
  }

  // ---- main result -------------------------------------------------------------------------------------

  /** `j` explains policies.json, `i` explains cf-local.conf, and i is not newer. */
  ghost predicate Explained(s: System, i: nat, j: nat) {
    && (Visible(s.disk.policies).Some? ==>
          j < |s.history| && Visible(s.disk.policies).value.data == s.history[j].policies)
    && (Visible(s.disk.conf).Some? ==>
          && Visible(s.disk.policies).Some? && i <= j && i < |s.history|
          && s.history[i].conf == Some(Visible(s.disk.conf).value.data))
  }

  /** At every point of every run, kills and crashes included, a reader of the directory
      finds complete renderings, and never a conf newer than the policies. */
  lemma ReadersSeeWholeRenderings(tmpP: Option<Inode>, tmpC: Option<Inode>, steps: seq<Step>)
    ensures exists i, j :: Explained(Run(Fresh(tmpP, tmpC), steps), i, j)
  {
    RunKeepsInv(tmpP, tmpC, steps);
    var s := Run(Fresh(tmpP, tmpC), steps);
    var i := if Visible(s.disk.conf).Some? then Visible(s.disk.conf).value.origin else 0;
    var j := if Visible(s.disk.policies).Some? then Visible(s.disk.policies).value.origin else 0;
    assert Explained(s, i, j);
  }

  /** A step of WriteAtomic that failed between open and rename. */
  predicate FailsWriting(s: System, step: Step) {
    || (s.pc.Opened? && (step == WriteFails || step == SyncTmp(false)))
    || (s.pc.Synced? && step == CloseTmp(false)) || (s.pc.Closed? && step == Rename(false))
  }

  /** Such a failure removes the tmp file, gives the rendering up and leaves both output files alone. */
  lemma FailureCleansUp(s: System, step: Step)
    requires Inv(s) && FailsWriting(s, step) && (step == SyncTmp(false) ==> s.pc.offset == |Target(s)|)
    ensures var t := Apply(s, step);
            && t.pc.Idle? && Tmp(t.disk, s.pc.file) == None
            && t.disk.policies == s.disk.policies && t.disk.conf == s.disk.conf && t.history == s.history
  {
  }

  /** Once the directory fsync of a file returned, no crash takes its rename back. */
  lemma SyncedRenameSurvives(s: System)
    requires Inv(s) && s.pc.Renamed?
    ensures var t := SyncDirStep(s, true);
            && Visible(Entry(t.disk, s.pc.file)).Some?
            && Visible(Entry(t.disk, s.pc.file)).value.data == Target(s)
            && forall p, c, g, tp, tc ::
                 Visible(Entry(CrashStep(t, p, c, g, tp, tc).disk, s.pc.file)) == Visible(Entry(t.disk, s.pc.file))
  {
  }
}
