/** internal/nginx/reloader.go with the store callbacks of bolt.go and the
    snapshot closure of cmd/cf-local: a capacity-one trigger channel, a
    resettable timer and a fetch that locks one store after another. */
module Reloader {
  import opened Text

  /** Stores 0..2 (cache policies, response headers policies, distributions) are
      read by a fetch, in this order; store 3 (origin request policies) only triggers. */
  const STORES := 4
  const READ := 3

  datatype Phase = Waiting | Fetching(next: nat) | Rendering

  /** `version[i]` counts the mutations of store i since boot. `busy[i]`: store i
      holds its mutex, has changed and has not called Trigger yet. `read[k]` is
      the version the last fetch saw. `accepted` counts channel sends,
      `renders` timer firings. */
  datatype System = System(
    version: seq<nat>, busy: seq<bool>,
    token: bool, timer: bool, phase: Phase,
    read: seq<Option<nat>>, published: Option<seq<Option<nat>>>, failed: bool,
    accepted: nat, renders: nat)

  datatype Step =
    | Mutate(store: nat)     // a successful Create, Update or Delete, still under the mutex
    | Notify(store: nat)     // its onChange callback, then unlock
    | TakeTrigger            // select: <-r.trigger
    | Fire                   // select: <-debounce
    | Read                   // fetch: List of the next store
    | Finish(ok: bool)       // Render and WriteAtomic, or an error that is only recorded

  ghost predicate Shaped(s: System) {
    && |s.version| == STORES && |s.busy| == STORES && |s.read| == READ
    && (s.phase.Fetching? ==> s.phase.next < READ)
  }

  const BOOT := System([0, 0, 0, 0], [false, false, false, false], false, false, Waiting,
                       [None, None, None], None, false, 0, 0)

  // ---- steps; a disabled step changes nothing -----------------------------------------------

  function MutateStep(s: System, i: nat): System
    requires Shaped(s)
  {
    if i >= STORES || s.busy[i] then s
    else s.(version := s.version[i := s.version[i] + 1], busy := s.busy[i := true])
  }

  /** Trigger: a send that finds the channel full is dropped. */
  function NotifyStep(s: System, i: nat): System
    requires Shaped(s)
  {
    if i >= STORES || !s.busy[i] then s
    else s.(busy := s.busy[i := false], token := true, accepted := if s.token then s.accepted else s.accepted + 1)
  }

  function TakeStep(s: System): System {
    if s.phase.Waiting? && s.token then s.(token := false, timer := true) else s
  }

  function FireStep(s: System): System {
    if s.phase.Waiting? && s.timer then s.(timer := false, phase := Fetching(0), renders := s.renders + 1) else s
  }

  /** List blocks while the store's mutex is held. */
  function ReadStep(s: System): System
    requires Shaped(s)
  {
    if s.phase.Fetching? && !s.busy[s.phase.next] then
      var k := s.phase.next;
      s.(read := s.read[k := Some(s.version[k])],
         phase := if k + 1 == READ then Rendering else Fetching(k + 1))
    else s
  }

  function FinishStep(s: System, ok: bool): System {
    if !s.phase.Rendering? then s
    else if ok then s.(phase := Waiting, published := Some(s.read), failed := false)
    else s.(phase := Waiting, failed := true)
  }

  function Apply(s: System, step: Step): (t: System)
    requires Shaped(s)
    ensures Shaped(t)
  {
    match step
    case Mutate(i) => MutateStep(s, i)
    case Notify(i) => NotifyStep(s, i)
    case TakeTrigger => TakeStep(s)
    case Fire => FireStep(s)
    case Read => ReadStep(s)
    case Finish(ok) => FinishStep(s, ok)
  }

  function Run(s: System, steps: seq<Step>): (t: System)
    requires Shaped(s)
    ensures Shaped(t)
  {
    if steps == [] then s else Apply(Run(s, steps[..|steps| - 1]), steps[|steps| - 1])
  }

  // ---- invariant --------------------------------------------------------------------------------

  /** A read of store k is still going to happen. */
  ghost predicate Due(s: System, k: nat) {
    s.token || s.timer || (s.phase.Fetching? && s.phase.next <= k)
  }

  /** No lost mutation: a store that changed after it was last read is about
      to notify, or a read of it is due. */
  ghost predicate NothingLost(s: System)
    requires Shaped(s)
  {
    forall k :: 0 <= k < READ && s.read[k].Some? && s.read[k].value != s.version[k] ==> s.busy[k] || Due(s, k)
  }

  /** The first accepted trigger leads to a complete fetch. */
  ghost predicate FirstFetch(s: System)
    requires Shaped(s)
  {
    && (s.accepted > 0 ==> forall k :: 0 <= k < READ ==> s.read[k].Some? || Due(s, k))
    && (s.accepted == 0 ==> !s.token && !s.timer && s.phase.Waiting? && s.renders == 0
                            && forall k :: 0 <= k < READ ==> s.read[k].None?)
    && (forall i :: 0 <= i < STORES && s.version[i] > 0 ==> s.accepted > 0 || s.busy[i])
    && (s.renders == 0 ==> s.phase.Waiting? && forall k :: 0 <= k < READ ==> s.read[k].None?)
  }

  /** Each render uses up an accepted trigger of its own. */
  ghost predicate Counted(s: System) {
    s.renders + (if s.timer then 1 else 0) + (if s.token then 1 else 0) <= s.accepted
  }

  /** What was published is what was last fetched, unless that render failed. */
  ghost predicate Published(s: System) {
    s.phase.Waiting? && s.renders > 0 && !s.failed ==> s.published == Some(s.read)
  }

  ghost predicate Inv(s: System) {
    Shaped(s) && NothingLost(s) && FirstFetch(s) && Counted(s) && Published(s)
  }

  lemma StepKeepsInv(s: System, step: Step)
    requires Inv(s)
    ensures Inv(Apply(s, step))
  {
  }

  lemma {:induction false} RunKeepsInv(steps: seq<Step>)
    ensures Inv(Run(BOOT, steps))
  {
    if steps != [] {
      RunKeepsInv(steps[..|steps| - 1]);
      StepKeepsInv(Run(BOOT, steps[..|steps| - 1]), steps[|steps| - 1]);
    }
  }

  /** How often store `i` was mutated, by a step that found its mutex free. */
  function Mutations(steps: seq<Step>, i: nat): nat
    requires i < STORES
  {
    if steps == [] then 0
    else
      var before := steps[..|steps| - 1];
      Mutations(before, i) + if steps[|steps| - 1] == Mutate(i) && !Run(BOOT, before).busy[i] then 1 else 0
  }

  /** A store's version tells its contents apart: it counts exactly its mutations. */
  lemma {:induction false} VersionsCountMutations(steps: seq<Step>, i: nat)
    requires i < STORES
    ensures Run(BOOT, steps).version[i] == Mutations(steps, i)
  {
    if steps != [] { VersionsCountMutations(steps[..|steps| - 1], i); }
  }

  /** A mutation holds its store's mutex until its own notification, which leaves a trigger pending. */
  lemma MutationNotifies(s: System, i: nat, step: Step)
    requires Inv(s) && i < STORES
    ensures !s.busy[i] ==> Apply(s, Mutate(i)).busy[i]
    ensures s.busy[i] ==> (Apply(s, step).busy[i] <==> step != Notify(i))
    ensures s.busy[i] ==> Apply(s, Notify(i)).token
  {
  }

  // ---- quiescence -----------------------------------------------------------------------------------

  ghost predicate NoneBusy(s: System)
    requires Shaped(s)
  {
    forall i :: 0 <= i < STORES ==> !s.busy[i]
  }

  /** The select loop has nothing to do. */
  predicate Idle(s: System) {
    s.phase.Waiting? && !s.token && !s.timer
  }

  /** The last fetch saw the current contents of every store it reads. */
  ghost predicate UpToDate(s: System)
    requires Shaped(s)
  {
    forall k :: 0 <= k < READ ==> s.read[k] == Some(s.version[k])
  }

  /** In every reachable quiescent state the last fetch is current exactly if
      a trigger was ever accepted; without one nothing was fetched since boot,
      and then nothing was mutated either. */
  lemma QuiescentIsCurrent(steps: seq<Step>)
    ensures var s := Run(BOOT, steps);
            Idle(s) && NoneBusy(s) ==>
              && (UpToDate(s) <==> s.accepted > 0)
              && (s.accepted == 0 ==> forall i :: 0 <= i < STORES ==> s.version[i] == 0)
              && (s.renders > 0 && !s.failed ==> s.published == Some(s.read))
  {
    RunKeepsInv(steps);
    var s := Run(BOOT, steps);
    if Idle(s) && NoneBusy(s) && s.accepted == 0 {
      assert s.read[0].None?;
    }
  }

  /** At boot the loop is quiescent and has read nothing. */
  lemma BootIsNotCurrent()
    ensures Idle(Run(BOOT, [])) && NoneBusy(Run(BOOT, [])) && !UpToDate(Run(BOOT, []))
  {
    assert BOOT.read[0] == None;
  }

  lemma RendersWithinTriggers(steps: seq<Step>)
    ensures Run(BOOT, steps).renders <= Run(BOOT, steps).accepted
  {
    RunKeepsInv(steps);
  }

  // ---- the loop settles -------------------------------------------------------------------------------

  function PhaseWork(p: Phase): nat {
    match p
    case Waiting => 0
    case Fetching(k) => if k < READ then 1 + (READ - k) else 1
    case Rendering => 1
  }

  /** Work left for the select loop once triggers stop. */
  function Work(s: System): nat {
    (if s.token then 12 else 0) + (if s.timer then 6 else 0) + PhaseWork(s.phase)
  }

  predicate IsLoopStep(step: Step) {
    step.TakeTrigger? || step.Fire? || step.Read? || step.Finish?
  }

  /** A loop step that does anything shrinks the remaining work. */
  lemma LoopStepProgress(s: System, step: Step)
    requires Inv(s) && IsLoopStep(step)
    ensures Apply(s, step) == s || Work(Apply(s, step)) < Work(s)
    ensures NoneBusy(s) ==> NoneBusy(Apply(s, step))
  {
  }

  /** While no store is mid-mutation, a loop with work left can move. */
  lemma LoopNeverStuck(s: System)
    requires Inv(s) && NoneBusy(s) && !Idle(s)
    ensures exists step :: IsLoopStep(step) && Apply(s, step) != s
  {
    var step := if s.phase.Fetching? then Read else if s.phase.Rendering? then Finish(true)
                else if s.token then TakeTrigger else Fire;
    assert IsLoopStep(step) && Work(Apply(s, step)) < Work(s);
  }

  /** The select loop after triggers stop; `preferTimer` resolves the choice
      when both channels are ready, `renderOk` the outcome of each render. */
  method Settle(start: System, preferTimer: nat -> bool, renderOk: nat -> bool) returns (s: System, steps: nat)
    requires Inv(start) && NoneBusy(start)
    ensures Inv(s) && Idle(s) && NoneBusy(s)
    ensures s.version == start.version
    ensures start.accepted > 0 ==> UpToDate(s)
    ensures steps <= Work(start)
  {
    s, steps := start, 0;
    while !Idle(s)
      invariant Inv(s) && NoneBusy(s) && s.version == start.version && s.accepted == start.accepted
      invariant steps + Work(s) <= Work(start)
      decreases Work(s)
    {
      var step: Step;
      match s.phase {
        case Fetching(_) => step := Read;
        case Rendering => step := Finish(renderOk(steps));
        case Waiting => step := if s.timer && (!s.token || preferTimer(steps)) then Fire else TakeTrigger;
      }
      StepKeepsInv(s, step);
      LoopStepProgress(s, step);
      assert Work(Apply(s, step)) < Work(s);
      s := Apply(s, step);
      steps := steps + 1;
    }
  }
}
