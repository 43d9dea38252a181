/** The staged pipeline as a protocol: every locked section is one atomic step, and any
    interleaving of scheduler, stage workers, cancellers and fleet changes may happen in
    the gaps between them.

    Hypotheses built into the steps: one scheduler loop; the scheduler's unlocked Update
    does not fall inside another actor's locked section; stage inserts succeed; each stage
    entry is delivered at most once per attempt; a driver reports Running, Completed or
    Failed; submitted ids are fresh. */
module Pipeline {
  import opened Jobspec
  import opened Graphs
  import opened CriticalSections
  import M = Matcher

  /** Where a stage entry stands: waiting, in the slow unlocked call, cancelling the remote
      job before a reschedule, or handed over but not inserted into the next queue yet. */
  datatype Phase = Queued | Calling | Cancelling | Passing(next: Stage)

  datatype Token = Token(job: JobId, stage: Stage, phase: Phase, attempt: nat)

  /** The scheduler's place in its pass, with the stale copies of records it holds. */
  datatype Scheduler =
    | Idle
    | Looking(id: JobId, copy: Job)
    | Noting(copies: map<JobId, Job>)
    | Placing(id: JobId, copy: Job, alloc: nat, cluster: string)
    | Inserting(id: JobId)

  /** History: placements made, dispatch attempts concluded other than by a transient
      retry, and repair attempts started. */
  datatype Work = Work(placed: nat, dispatches: nat, repairs: nat)

  datatype State = State(
    locked: Locked,
    tokens: map<nat, Token>,
    nextToken: nat,
    sched: Scheduler,
    cancels: multiset<JobId>,
    dropped: set<JobId>,
    work: map<JobId, Work>)

  const INIT := State(Locked(map[], M.EMPTY, multiset{}), map[], 0, Idle, multiset{}, {}, map[])

  datatype Step =
    | Submit(id: JobId, spec: Spec)
    | SchedGet(id: JobId)
    | SchedSnapshot
    | SchedNote(id: JobId)
    | SchedInfeasible
    | SchedAllocate(cluster: string)
    | SchedUpdate
    | SchedInsert
    | SchedRelease
    | CancelBegin(id: JobId)
    | CancelFinish(id: JobId)
    | DispatchBegin(t: nat)
    | DispatchEnd(t: nat, outcome: AttemptOutcome, kept: bool)
    | RepairBegin(t: nat)
    | RepairEnd(t: nat, outcome: AttemptOutcome)
    | RescheduleEnd(t: nat)
    | PassOn(t: nat)
    | MonitorBegin(t: nat)
    | MonitorEnd(t: nat, status: Option<JobState>)
    | FleetChange(op: M.Op)

  ghost predicate At(s: State, t: nat, stage: Stage, phase: Phase) {
    t in s.tokens && s.tokens[t].stage == stage && s.tokens[t].phase == phase
  }

  ghost predicate Enabled(s: State, step: Step) {
    match step
    case Submit(id, _) => id !in s.locked.jobs
    case SchedGet(id) => s.sched.Idle? && id in s.locked.jobs && s.locked.jobs[id].state == Submitted
    case SchedSnapshot => s.sched.Idle?
    case SchedNote(id) => (s.sched.Looking? && s.sched.id == id) || (s.sched.Noting? && id in s.sched.copies)
    case SchedInfeasible => s.sched.Looking?
    case SchedAllocate(_) => s.sched.Looking?
    case SchedUpdate => s.sched.Placing?
    case SchedInsert => s.sched.Inserting?
    case SchedRelease => s.sched.Looking? || s.sched.Noting?
    case CancelBegin(id) => Live(s.locked, id)
    case CancelFinish(id) => id in s.cancels
    case DispatchBegin(t) => At(s, t, Dispatch, Queued)
    case DispatchEnd(t, _, _) => At(s, t, Dispatch, Calling)
    case RepairBegin(t) => At(s, t, Repair, Queued)
    case RepairEnd(t, _) => At(s, t, Repair, Calling)
    case RescheduleEnd(t) => t in s.tokens && s.tokens[t].phase == Cancelling
    case PassOn(t) => t in s.tokens && s.tokens[t].phase.Passing?
    case MonitorBegin(t) => At(s, t, Monitor, Queued)
    case MonitorEnd(t, st) => At(s, t, Monitor, Calling) && (st.Some? ==> st.value in {Running, Completed, Failed})
    case FleetChange(op) => op.Allowed() && !op.OpAllocate? && !op.OpFree?
  }

  function WorkOf(s: State, id: JobId): Work { if id in s.work then s.work[id] else Work(0, 0, 0) }

  function CopyHeld(s: State, id: JobId): Option<Job> {
    match s.sched
    case Looking(x, c) => if x == id then Some(c) else None
    case Noting(cs) => if id in cs then Some(cs[id]) else None
    case Placing(x, c, _, _) => if x == id then Some(c) else None
    case _ => None
  }

  function SetPhase(s: State, t: nat, phase: Phase): State
    requires t in s.tokens
  {
    s.(tokens := s.tokens[t := s.tokens[t].(phase := phase)])
  }

  function Drop(s: State, t: nat): State { s.(tokens := s.tokens - {t}) }

  function Routed(s: State, t: nat, r: Route): State
    requires t in s.tokens
  {
    match r
    case Stop => Drop(s, t)
    case Enqueue(next) => SetPhase(s, t, Passing(next))
    case Retry => s.(tokens := s.tokens[t := s.tokens[t].(phase := Queued, attempt := s.tokens[t].attempt + 1)])
    case Reschedule => SetPhase(s, t, Cancelling)
  }

  function CountDispatch(s: State, id: JobId): State {
    var w := WorkOf(s, id);
    s.(work := s.work[id := w.(dispatches := w.dispatches + 1)])
  }

  function DoDispatchBegin(s: State, t: nat): State
    requires t in s.tokens
  {
    var id := s.tokens[t].job;
    if !Live(s.locked, id) then Drop(s, t)
    else SetPhase(s.(locked := EnterDispatch(s.locked, id)), t, Calling)
  }

  function DoDispatchEnd(s: State, t: nat, o: AttemptOutcome, kept: bool): State
    requires t in s.tokens
  {
    var id := s.tokens[t].job;
    var (c, r) := AfterDispatch(s.locked, id, o);
    if r == Retry && !kept then Drop(s, t).(dropped := s.dropped + {id})
    else
      var s1 := Routed(s.(locked := c), t, r);
      if r == Retry then s1 else CountDispatch(s1, id)
  }

  function DoRepairBegin(s: State, t: nat): State
    requires t in s.tokens
  {
    var id := s.tokens[t].job;
    if !Live(s.locked, id) then Drop(s, t)
    else
      var w := WorkOf(s, id);
      SetPhase(s, t, Calling).(work := s.work[id := w.(repairs := w.repairs + 1)])
  }

  function DoRepairEnd(s: State, t: nat, o: AttemptOutcome): State
    requires t in s.tokens
  {
    var (c, r) := AfterRepair(s.locked, s.tokens[t].job, o, s.tokens[t].attempt);
    Routed(s.(locked := c), t, r)
  }

  function DoPassOn(s: State, t: nat): State
    requires t in s.tokens && s.tokens[t].phase.Passing?
  {
    var tok := s.tokens[t];
    s.(tokens := (s.tokens - {t})[s.nextToken := Token(tok.job, tok.phase.next, Queued, 1)],
       nextToken := s.nextToken + 1)
  }

  function DoMonitorBegin(s: State, t: nat): State
    requires t in s.tokens
  {
    var id := s.tokens[t].job;
    if !Live(s.locked, id) then Drop(s, t)
    else if s.locked.jobs[id].handle == "" then SetPhase(s, t, Passing(Monitor))
    else SetPhase(s, t, Calling)
  }

  function DoMonitorEnd(s: State, t: nat, st: Option<JobState>): State
    requires t in s.tokens
  {
    if st.None? then SetPhase(s, t, Passing(Monitor))
    else
      var s1 := s.(locked := RecordStatus(s.locked, s.tokens[t].job, st.value));
      if st.value.Terminal() then Drop(s1, t) else SetPhase(s1, t, Passing(Monitor))
  }

  function DoAllocate(s: State, cluster: string): State
    requires s.sched.Looking?
  {
    var (l, grant) := M.Allocate(s.locked.ledger, s.sched.copy.spec, cluster);
    if grant.Granted? then
      s.(locked := s.locked.(ledger := l), sched := Placing(s.sched.id, s.sched.copy, grant.id, cluster))
    else s
  }

  function DoUpdate(s: State): State
    requires s.sched.Placing?
  {
    var id, w := s.sched.id, WorkOf(s, s.sched.id);
    var j := s.sched.copy.(state := Matched, alloc := Some(s.sched.alloc), cluster := s.sched.cluster);
    s.(locked := s.locked.Put(id, j),
       sched := Inserting(id),
       work := s.work[id := w.(placed := w.placed + 1)])
  }

  function DoInsert(s: State): State
    requires s.sched.Inserting?
  {
    s.(tokens := s.tokens[s.nextToken := Token(s.sched.id, Dispatch, Queued, 1)],
       nextToken := s.nextToken + 1, sched := Idle)
  }

  /** The state after a step; a step that is not enabled does nothing. */
  ghost function Do(s: State, step: Step): State {
    if !Enabled(s, step) then s else
    match step
    case Submit(id, spec) => s.(locked := s.locked.Put(id, Job(Submitted, None, "", "", 0, spec)))
    case SchedGet(id) => s.(sched := Looking(id, s.locked.jobs[id]))
    case SchedSnapshot =>
      s.(sched := Noting(map id | id in s.locked.jobs && s.locked.jobs[id].state == Submitted :: s.locked.jobs[id]))
    case SchedNote(id) =>
      s.(locked := s.locked.Put(id, CopyHeld(s, id).value), sched := if s.sched.Looking? then Idle else s.sched)
    case SchedInfeasible => s.(locked := s.locked.Put(s.sched.id, s.sched.copy.(state := Failed)), sched := Idle)
    case SchedAllocate(cluster) => DoAllocate(s, cluster)
    case SchedUpdate => DoUpdate(s)
    case SchedInsert => DoInsert(s)
    case SchedRelease => s.(sched := Idle)
    case CancelBegin(id) => s.(cancels := s.cancels + multiset{id})
    case CancelFinish(id) => s.(cancels := s.cancels - multiset{id}, locked := FailJob(s.locked, id))
    case DispatchBegin(t) => DoDispatchBegin(s, t)
    case DispatchEnd(t, o, kept) => DoDispatchEnd(s, t, o, kept)
    case RepairBegin(t) => DoRepairBegin(s, t)
    case RepairEnd(t, o) => DoRepairEnd(s, t, o)
    case RescheduleEnd(t) => Drop(s.(locked := FinishReschedule(s.locked, s.tokens[t].job)), t)
    case PassOn(t) => DoPassOn(s, t)
    case MonitorBegin(t) => DoMonitorBegin(s, t)
    case MonitorEnd(t, st) => DoMonitorEnd(s, t, st)
    case FleetChange(op) => s.(locked := s.locked.(ledger := M.Apply(s.locked.ledger, op)))
  }
}
