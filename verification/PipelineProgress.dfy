/** What the pipeline can still achieve: which live jobs have a continuation in which they complete, and
    that an allocation never passes from the job that named it to another. */
module PipelineProgress {
  import opened Jobspec
  import opened Graphs
  import opened CriticalSections
  import opened Pipeline
  import opened PipelineSafety
  import opened PipelineTerminal
  import opened PipelineLimits
  import M = Matcher

  // ---- Polling ----

  /** A live job's monitor entry starts a poll exactly when the job has a handle, and then every status a
      driver may report, and a failed poll, can be the answer. */
  lemma MonitorPolls(s: State, t: nat)
    requires At(s, t, Monitor, Queued) && Live(s.locked, s.tokens[t].job)
    ensures Enabled(s, MonitorBegin(t))
    ensures var n := Do(s, MonitorBegin(t)); forall st: Option<JobState> ::
      Enabled(n, MonitorEnd(t, st)) <==>
        s.locked.jobs[s.tokens[t].job].handle != "" && (st.Some? ==> st.value in {Running, Completed, Failed})
  {}

  /** The poll that reports a finished job ends its entry, its state and its claim on any node. */
  lemma PollCompletes(s: State, t: nat)
    requires At(s, t, Monitor, Calling) && s.tokens[t].job in s.locked.jobs
    ensures Enabled(s, MonitorEnd(t, Some(Completed)))
    ensures var n, id := Do(s, MonitorEnd(t, Some(Completed))), s.tokens[t].job;
      id in n.locked.jobs && n.locked.jobs[id].state == Completed && n.locked.jobs[id].alloc == None && t !in n.tokens
  {
    hide M.Free;
  }

  /** Both together, over the steps alone. */
  lemma RunningJobCompletes(s: State, t: nat)
    requires At(s, t, Monitor, Queued) && Live(s.locked, s.tokens[t].job)
    requires s.locked.jobs[s.tokens[t].job].handle != ""
    ensures Enabled(s, MonitorBegin(t))
    ensures var n, id := Do(s, MonitorBegin(t)), s.tokens[t].job;
      && Enabled(n, MonitorEnd(t, Some(Completed)))
      && var m := Do(n, MonitorEnd(t, Some(Completed)));
         id in m.locked.jobs && m.locked.jobs[id].state == Completed && m.locked.jobs[id].alloc == None
             && t !in m.tokens
  {
    PolledNext(s, t);
    PollCompletes(Do(s, MonitorBegin(t)), t);
  }

  lemma PolledNext(s: State, t: nat)
    requires At(s, t, Monitor, Queued) && Live(s.locked, s.tokens[t].job)
    requires s.locked.jobs[s.tokens[t].job].handle != ""
    ensures var n := Do(s, MonitorBegin(t));
      Enabled(s, MonitorBegin(t)) && At(n, t, Monitor, Calling) && n.tokens[t].job == s.tokens[t].job
      && n.locked == s.locked
  {}

  /** No stage entry is ever stuck: in a reachable state some worker step is enabled on it. */
  lemma EntryServed(s: State, t: nat)
    requires Inv(s) && t in s.tokens
    ensures exists step :: WorkerStep(step) && step.t == t && Enabled(s, step)
  {
    hide OneToken, AllOk, Owned, TokenOf;
    TokenIs(s, t);
    OkAt(s, s.tokens[t].job);
    var k := s.tokens[t];
    var step := match k.phase
      case Passing(_) => PassOn(t)
      case Cancelling => RescheduleEnd(t)
      case Queued => if k.stage == Dispatch then DispatchBegin(t) else if k.stage == Repair then RepairBegin(t)
          else MonitorBegin(t)
      case Calling => if k.stage == Dispatch then DispatchEnd(t, HardFail, true)
          else if k.stage == Repair then RepairEnd(t, HardFail) else MonitorEnd(t, None);
    assert WorkerStep(step) && step.t == t && Enabled(s, step);
  }

  /** An attempt on a live job may end in every way; an entry of a job that is over is dropped. */
  lemma AttemptsOpen(s: State, t: nat)
    requires t in s.tokens
    ensures At(s, t, Dispatch, Queued) && Live(s.locked, s.tokens[t].job) ==>
      forall o, kept :: Enabled(Do(s, DispatchBegin(t)), DispatchEnd(t, o, kept))
    ensures At(s, t, Repair, Queued) && Live(s.locked, s.tokens[t].job) ==>
      forall o :: Enabled(Do(s, RepairBegin(t)), RepairEnd(t, o))
    ensures At(s, t, Dispatch, Queued) && !Live(s.locked, s.tokens[t].job) ==> t !in Do(s, DispatchBegin(t)).tokens
    ensures At(s, t, Repair, Queued) && !Live(s.locked, s.tokens[t].job) ==> t !in Do(s, RepairBegin(t)).tokens
    ensures At(s, t, Monitor, Queued) && !Live(s.locked, s.tokens[t].job) ==> t !in Do(s, MonitorBegin(t)).tokens
  {}

  /** An idle scheduler can take up any waiting job, and then note it, fail it or try any cluster. */
  lemma WaitingServed(s: State, id: JobId, cluster: string)
    requires s.sched.Idle? && id in s.locked.jobs && s.locked.jobs[id].state == Submitted
    ensures Enabled(s, SchedGet(id))
    ensures var n := Do(s, SchedGet(id));
      && Enabled(n, SchedNote(id)) && Enabled(n, SchedInfeasible) && Enabled(n, SchedAllocate(cluster))
      && Do(n, SchedNote(id)).locked == s.locked
      && Do(n, SchedInfeasible).locked == s.locked.(jobs := s.locked.jobs[id := s.locked.jobs[id].(state := Failed)])
  {
    hide M.Allocate;
    assert s.locked.jobs[id := s.locked.jobs[id]] == s.locked.jobs;
  }

  // ---- Continuations that complete a job ----

  ghost predicate Finishes(s: State, steps: seq<Step>, id: JobId)
    decreases |steps|
  {
    if steps == [] then id in s.locked.jobs && s.locked.jobs[id].state == Completed
    else Enabled(s, steps[0]) && Finishes(Do(s, steps[0]), steps[1..], id)
  }

  ghost predicate CanFinish(s: State, id: JobId) { exists steps :: Finishes(s, steps, id) }

  lemma Finished(s: State, id: JobId)
    requires id in s.locked.jobs && s.locked.jobs[id].state == Completed
    ensures CanFinish(s, id)
  {
    assert Finishes(s, [], id);
  }

  lemma Then(s: State, step: Step, id: JobId)
    requires Enabled(s, step) && CanFinish(Do(s, step), id)
    ensures CanFinish(s, id)
  {
    hide Enabled, Do;
    var rest :| Finishes(Do(s, step), rest, id);
    assert ([step] + rest)[1..] == rest;
    assert Finishes(s, [step] + rest, id);
  }

  /** This job's entry, in this stage and phase. */
  ghost predicate Stands(s: State, t: nat, id: JobId, stage: Stage, phase: Phase) {
    At(s, t, stage, phase) && s.tokens[t].job == id
  }

  lemma FromPoll(s: State, t: nat, id: JobId)
    requires Stands(s, t, id, Monitor, Calling) && id in s.locked.jobs
    ensures CanFinish(s, id)
  {
    hide Do, Enabled, CanFinish;
    PollCompletes(s, t);
    Finished(Do(s, MonitorEnd(t, Some(Completed))), id);
    Then(s, MonitorEnd(t, Some(Completed)), id);
  }

  lemma FromMonitor(s: State, t: nat, id: JobId)
    requires Stands(s, t, id, Monitor, Queued) && Live(s.locked, id) && s.locked.jobs[id].handle != ""
    ensures CanFinish(s, id)
  {
    hide Do, Enabled, CanFinish;
    PolledNext(s, t);
    FromPoll(Do(s, MonitorBegin(t)), t, id);
    Then(s, MonitorBegin(t), id);
  }

  lemma Passed(s: State, t: nat, id: JobId, next: Stage)
    requires t in s.tokens && s.tokens[t].job == id && s.tokens[t].phase == Passing(next)
    ensures Enabled(s, PassOn(t))
    ensures Stands(Do(s, PassOn(t)), s.nextToken, id, next, Queued) && Do(s, PassOn(t)).locked == s.locked
  {}

  lemma FromPassing(s: State, t: nat, id: JobId, next: Stage)
    requires t in s.tokens && s.tokens[t].job == id && s.tokens[t].phase == Passing(next)
    requires Live(s.locked, id) && (next == Monitor ==> s.locked.jobs[id].handle != "")
    ensures CanFinish(s, id)
  {
    hide Do, Enabled, CanFinish, Stands;
    Passed(s, t, id, next);
    var n := Do(s, PassOn(t));
    match next {
      case Monitor => FromMonitor(n, s.nextToken, id);
      case Dispatch => FromDispatch(n, s.nextToken, id);
      case Repair => FromRepair(n, s.nextToken, id);
    }
    Then(s, PassOn(t), id);
  }

  /** A successful attempt makes the job Running with its handle and hands it to the monitor. */
  lemma AttemptSucceeds(s: State, t: nat, id: JobId, step: Step)
    requires Stands(s, t, id, Dispatch, Calling) || Stands(s, t, id, Repair, Calling)
    requires id in s.locked.jobs
    requires step == if s.tokens[t].stage == Dispatch then DispatchEnd(t, Success("h"), true)
        else RepairEnd(t, Success("h"))
    ensures Enabled(s, step)
    ensures var n := Do(s, step);
      && t in n.tokens && n.tokens[t].job == id && n.tokens[t].phase == Passing(Monitor)
      && n.locked == SetRunning(s.locked, id, "h")
  {
    hide SetRunning, M.Free, FailJob;
  }

  lemma FromAttempt(s: State, t: nat, id: JobId)
    requires Stands(s, t, id, Dispatch, Calling) || Stands(s, t, id, Repair, Calling)
    requires id in s.locked.jobs
    ensures CanFinish(s, id)
  {
    var step := if s.tokens[t].stage == Dispatch then DispatchEnd(t, Success("h"), true)
                else RepairEnd(t, Success("h"));
    hide Do, Enabled, CanFinish;
    AttemptSucceeds(s, t, id, step);
    FromPassed(Do(s, step), t, id);
    Then(s, step, id);
  }

  /** As FromPassing, for a job on its way to the monitor. */
  lemma FromPassed(s: State, t: nat, id: JobId)
    requires t in s.tokens && s.tokens[t].job == id && s.tokens[t].phase == Passing(Monitor)
    requires Live(s.locked, id) && s.locked.jobs[id].handle != ""
    ensures CanFinish(s, id)
  {
    hide Do, Enabled, CanFinish, Stands;
    Passed(s, t, id, Monitor);
    FromMonitor(Do(s, PassOn(t)), s.nextToken, id);
    Then(s, PassOn(t), id);
  }

  lemma DispatchStarts(s: State, t: nat, id: JobId)
    requires Stands(s, t, id, Dispatch, Queued) && Live(s.locked, id)
    ensures Enabled(s, DispatchBegin(t))
    ensures Stands(Do(s, DispatchBegin(t)), t, id, Dispatch, Calling) && id in Do(s, DispatchBegin(t)).locked.jobs
  {}

  lemma FromDispatch(s: State, t: nat, id: JobId)
    requires Stands(s, t, id, Dispatch, Queued) && Live(s.locked, id)
    ensures CanFinish(s, id)
  {
    hide Do, Enabled, CanFinish, Stands;
    DispatchStarts(s, t, id);
    FromAttempt(Do(s, DispatchBegin(t)), t, id);
    Then(s, DispatchBegin(t), id);
  }

  lemma RepairStarts(s: State, t: nat, id: JobId)
    requires Stands(s, t, id, Repair, Queued) && Live(s.locked, id)
    ensures Enabled(s, RepairBegin(t))
    ensures Stands(Do(s, RepairBegin(t)), t, id, Repair, Calling) && id in Do(s, RepairBegin(t)).locked.jobs
  {}

  lemma FromRepair(s: State, t: nat, id: JobId)
    requires Stands(s, t, id, Repair, Queued) && Live(s.locked, id)
    ensures CanFinish(s, id)
  {
    hide Do, Enabled, CanFinish, Stands;
    RepairStarts(s, t, id);
    FromAttempt(Do(s, RepairBegin(t)), t, id);
    Then(s, RepairBegin(t), id);
  }

  lemma FromInserting(s: State, id: JobId)
    requires s.sched == Inserting(id) && Live(s.locked, id)
    ensures CanFinish(s, id)
  {
    Inserts(s, id);
    hide Do, Enabled, CanFinish, Stands;
    FromDispatch(Do(s, SchedInsert), s.nextToken, id);
    Then(s, SchedInsert, id);
  }

  lemma Inserts(s: State, id: JobId)
    requires s.sched == Inserting(id)
    ensures Enabled(s, SchedInsert) && Do(s, SchedInsert).locked == s.locked && Do(s, SchedInsert).sched == Idle
    ensures Stands(Do(s, SchedInsert), s.nextToken, id, Dispatch, Queued)
  {}

  lemma FromPlacing(s: State, id: JobId)
    requires s.sched.Placing? && s.sched.id == id
    ensures CanFinish(s, id)
  {
    Updates(s);
    hide Do, Enabled, CanFinish;
    FromInserting(Do(s, SchedUpdate), id);
    Then(s, SchedUpdate, id);
  }

  lemma Updates(s: State)
    requires s.sched.Placing?
    ensures var n, id := Do(s, SchedUpdate), s.sched.id;
      && Enabled(s, SchedUpdate) && n.sched == Inserting(id) && Live(n.locked, id)
      && forall x :: x != id && x in s.locked.jobs ==> x in n.locked.jobs && n.locked.jobs[x] == s.locked.jobs[x]
  {}

  /** With a satisfy-only cluster registered a waiting job is placed. */
  lemma FromIdle(s: State, id: JobId)
    requires s.sched == Idle && id in s.locked.jobs && s.locked.jobs[id].state == Submitted
    ensures CanFinish(s, id)
  {
    var steps := [FleetChange(M.OpAdd(SATISFY_ONLY)), SchedGet(id), SchedAllocate("c")];
    var s1 := Do(s, steps[0]);
    var s2 := Do(s1, steps[1]);
    var s3 := Do(s2, steps[2]);
    Registers(s);
    Looks(s1, id);
    Grants(s2);
    hide Do, Enabled, CanFinish;
    FromPlacing(s3, id);
    Then(s2, steps[2], id);
    Then(s1, steps[1], id);
    Then(s, steps[0], id);
  }

  lemma Registers(s: State)
    ensures var step := FleetChange(M.OpAdd(SATISFY_ONLY));
      && Enabled(s, step) && Do(s, step).sched == s.sched && Do(s, step).locked.jobs == s.locked.jobs
      && Do(s, step).locked.ledger.clusters == s.locked.ledger.clusters["c" := SATISFY_ONLY]
  {}

  lemma Looks(s: State, id: JobId)
    requires s.sched == Idle && id in s.locked.jobs && s.locked.jobs[id].state == Submitted
    ensures Enabled(s, SchedGet(id)) && Do(s, SchedGet(id)) == s.(sched := Looking(id, s.locked.jobs[id]))
  {}

  lemma Grants(s: State)
    requires s.sched.Looking? && "c" in s.locked.ledger.clusters && s.locked.ledger.clusters["c"] == SATISFY_ONLY
    ensures var n := Do(s, SchedAllocate("c"));
      Enabled(s, SchedAllocate("c")) && n.sched.Placing? && n.sched.id == s.sched.id
  {
    hide M.FittingNodes;
  }

  /** Wherever the scheduler is with another job, it can finish that and come to this one. */
  lemma FromWaiting(s: State, id: JobId)
    requires id in s.locked.jobs && s.locked.jobs[id].state == Submitted && s.sched != Inserting(id)
    ensures CanFinish(s, id)
  {
    match s.sched
    case Idle => FromIdle(s, id);
    case Looking(_, _) => FromReleased(s, id);
    case Noting(_) => FromReleased(s, id);
    case Inserting(x) => FromInserted(s, id);
    case Placing(x, _, _, _) =>
      if x == id {
        FromPlacing(s, id);
      } else {
        Updates(s);
        hide Do, Enabled, CanFinish;
        FromInserted(Do(s, SchedUpdate), id);
        Then(s, SchedUpdate, id);
      }
  }

  lemma FromReleased(s: State, id: JobId)
    requires id in s.locked.jobs && s.locked.jobs[id].state == Submitted && (s.sched.Looking? || s.sched.Noting?)
    ensures CanFinish(s, id)
  {
    assert Enabled(s, SchedRelease) && Do(s, SchedRelease) == s.(sched := Idle);
    hide Do, Enabled, CanFinish;
    FromIdle(Do(s, SchedRelease), id);
    Then(s, SchedRelease, id);
  }

  lemma FromInserted(s: State, id: JobId)
    requires id in s.locked.jobs && s.locked.jobs[id].state == Submitted && s.sched.Inserting?
    ensures CanFinish(s, id)
  {
    Inserts(s, s.sched.id);
    hide Do, Enabled, CanFinish;
    FromIdle(Do(s, SchedInsert), id);
    Then(s, SchedInsert, id);
  }

  lemma FromCancelling(s: State, t: nat, id: JobId)
    requires t in s.tokens && s.tokens[t].job == id && s.tokens[t].phase == Cancelling
    requires id in s.locked.jobs && s.locked.jobs[id].reschedules < MAX_RESCHEDULES && s.sched != Inserting(id)
    ensures CanFinish(s, id)
  {
    WaitsAgain(s, t, id);
    hide Do, Enabled, CanFinish;
    FromWaiting(Do(s, RescheduleEnd(t)), id);
    Then(s, RescheduleEnd(t), id);
  }

  lemma WaitsAgain(s: State, t: nat, id: JobId)
    requires t in s.tokens && s.tokens[t].job == id && s.tokens[t].phase == Cancelling
    requires id in s.locked.jobs && s.locked.jobs[id].reschedules < MAX_RESCHEDULES
    ensures var n := Do(s, RescheduleEnd(t));
      && Enabled(s, RescheduleEnd(t)) && n.sched == s.sched
      && id in n.locked.jobs && n.locked.jobs[id].state == Submitted
  {
    hide M.Free;
  }

  // ---- Exactly which live jobs can complete ----

  /** What no continuation mends: the entry was discarded; the job is on its way to the monitor, or there,
      without a handle to poll; or it is being moved once more than it may. */
  predicate Lost(v: Local)
    requires v.job.Some?
  {
    v.dropped || (v.token.Some? && (Handleless(v.token.value, v.job.value) || MovedOut(v.token.value, v.job.value)))
  }

  predicate Handleless(k: Token, j: Job) { ForMonitor(k) && k.phase != Calling && j.handle == "" }

  predicate MovedOut(k: Token, j: Job) { k.phase == Cancelling && j.reschedules >= MAX_RESCHEDULES }

  lemma FromEntry(s: State, t: nat, id: JobId, v: Local)
    requires t in s.tokens && s.tokens[t].job == id && Live(s.locked, id)
    requires v == LocalOf(s, id) && v.token == Some(s.tokens[t]) && Ok(v) && !Lost(v)
    ensures CanFinish(s, id)
  {
    hide CanFinish, TokenOf;
    match s.tokens[t].phase
    case Passing(next) => FromPassing(s, t, id, next);
    case Cancelling => FromCancelling(s, t, id);
    case Calling =>
      if s.tokens[t].stage == Monitor { FromPoll(s, t, id); } else { FromAttempt(s, t, id); }
    case Queued =>
      match s.tokens[t].stage
      case Dispatch => FromDispatch(s, t, id);
      case Repair => FromRepair(s, t, id);
      case Monitor => FromMonitor(s, t, id);
  }

  lemma LiveFinishes(s: State, id: JobId)
    requires OneToken(s) && AllOk(s) && Live(s.locked, id) && !Lost(LocalOf(s, id))
    ensures CanFinish(s, id)
  {
    hide CanFinish, TokenOf, OneToken, AllOk;
    OkAt(s, id);
    var v := LocalOf(s, id);
    if v.token.Some? {
      TokenHeld(s, id);
      var t :| HasToken(s, id, t) && s.tokens[t] == v.token.value;
      FromEntry(s, t, id, v);
    } else if s.sched == Inserting(id) {
      FromInserting(s, id);
    } else {
      FromWaiting(s, id);
    }
  }

  /** Lost while live, or failed for good. */
  ghost predicate Doomed(s: State, id: JobId) {
    && id in s.locked.jobs
    && ((Live(s.locked, id) && Lost(LocalOf(s, id))) || (s.locked.jobs[id].state == Failed && Shut(s, id)))
  }

  /** A lost job's own worker hands its entry round, or fails it. */
  lemma OwnWorkerLost(s: State, step: Step, id: JobId)
    requires OneToken(s) && AllOk(s) && Enabled(s, step) && WorkerStep(step)
    requires step.t in s.tokens && s.tokens[step.t].job == id && Live(s.locked, id) && Lost(LocalOf(s, id))
    ensures Doomed(Do(s, step), id)
  {
    hide OneToken, AllOk, TokenOf, Do, Doomed;
    TokenIs(s, step.t);
    OkAt(s, id);
    if step.RescheduleEnd? { MovedOutFails(s, step.t, id); } else { HandlelessGoesRound(s, step, id); }
  }

  lemma MovedOutFails(s: State, t: nat, id: JobId)
    requires OneToken(s) && AllOk(s) && Enabled(s, RescheduleEnd(t)) && s.tokens[t].job == id
    requires Live(s.locked, id) && s.locked.jobs[id].reschedules >= MAX_RESCHEDULES
    ensures Doomed(Do(s, RescheduleEnd(t)), id)
  {
    hide OneToken, AllOk, TokenOf, M.Free, WritesNext;
    var n := Do(s, RescheduleEnd(t));
    TokenIs(s, t);
    OkAt(s, id);
    TokenDropped(s, n, t);
  }

  lemma HandlelessGoesRound(s: State, step: Step, id: JobId)
    requires OneToken(s) && AllOk(s) && Enabled(s, step) && (step.PassOn? || step.MonitorBegin?)
    requires s.tokens[step.t].job == id && Live(s.locked, id) && Handleless(s.tokens[step.t], s.locked.jobs[id])
    ensures Doomed(Do(s, step), id)
  {
    hide OneToken, AllOk, TokenOf, Shut;
    var n := Do(s, step);
    TokenIs(s, step.t);
    OkAt(s, id);
    WorkerKept(s, step);
    KeptOneToken(s, n, id);
    TokenIs(n, if step.PassOn? then s.nextToken else step.t);
  }

  lemma WorkerLost(s: State, step: Step, id: JobId)
    requires OneToken(s) && AllOk(s) && Enabled(s, step) && WorkerStep(step)
    requires Live(s.locked, id) && Lost(LocalOf(s, id))
    ensures Doomed(Do(s, step), id)
  {
    hide OneToken, AllOk, Do, Enabled, Lost, TokenOf, Shut;
    WorkerKept(s, step);
    if s.tokens[step.t].job == id {
      OwnWorkerLost(s, step, id);
    } else {
      assert LocalOf(Do(s, step), id) == LocalOf(s, id);
      SameRecord(s, Do(s, step), id);
    }
  }

  lemma SameRecord(s: State, n: State, id: JobId)
    requires LocalOf(n, id) == LocalOf(s, id) && id in s.locked.jobs
    ensures id in n.locked.jobs && n.locked.jobs[id] == s.locked.jobs[id]
  {
    assert JobOf(n, id) == JobOf(s, id);
  }

  lemma InsertLost(s: State, id: JobId)
    requires OneToken(s) && AllOk(s) && Enabled(s, SchedInsert)
    requires Live(s.locked, id) && Lost(LocalOf(s, id))
    ensures Doomed(Do(s, SchedInsert), id)
  {
    hide OneToken, AllOk, TokenOf, Do, Shut;
    InsertStep(s);
    OkAt(s, id);
    assert s.sched.id != id;
    assert LocalOf(Do(s, SchedInsert), id) == LocalOf(s, id);
    SameRecord(s, Do(s, SchedInsert), id);
  }

  /** Its cancellation fails it, with nothing under way that would write another state. */
  lemma CancelLost(s: State, id: JobId)
    requires OneToken(s) && AllOk(s) && Enabled(s, CancelFinish(id))
    requires Live(s.locked, id) && Lost(LocalOf(s, id))
    ensures Doomed(Do(s, CancelFinish(id)), id)
  {
    hide AllOk, OneToken, TokenOf, M.Free;
    OkAt(s, id);
    TokensKept(s, Do(s, CancelFinish(id)));
  }

  /** Everybody else leaves its record and entry alone. */
  lemma OtherLost(s: State, step: Step, id: JobId)
    requires OneToken(s) && AllOk(s) && Enabled(s, step) && !WorkerStep(step) && !step.SchedInsert?
    requires Live(s.locked, id) && Lost(LocalOf(s, id)) && step != CancelFinish(id)
    ensures Doomed(Do(s, step), id)
  {
    hide AllOk, OneToken, TokenOf, Lost, Shut;
    OkAt(s, id);
    LostHasNoView(LocalOf(s, id));
    NoViewKept(s, step, id);
    TokensKept(s, Do(s, step));
    hide Do;
    LostAgain(s, Do(s, step), id);
  }

  lemma LostHasNoView(v: Local)
    requires Ok(v) && v.job.Some? && !v.job.value.state.Terminal() && Lost(v)
    ensures v.view == Nowhere && v.job.value.state != Submitted
  {}

  ghost predicate SameFor(s: State, n: State, id: JobId) {
    && id in s.locked.jobs && id in n.locked.jobs && n.locked.jobs[id] == s.locked.jobs[id]
    && n.dropped == s.dropped && n.tokens == s.tokens && n.nextToken == s.nextToken
  }

  lemma NoViewKept(s: State, step: Step, id: JobId)
    requires Enabled(s, step) && !WorkerStep(step) && !step.SchedInsert? && step != CancelFinish(id)
    requires id in s.locked.jobs && s.locked.jobs[id].state != Submitted && ViewOf(s.sched, id) == Nowhere
    ensures SameFor(s, Do(s, step), id)
  {
    hide Enabled, Do, SameFor;
    if SchedulerStep(step) || step.SchedAllocate? {
      SchedulerLeaves(s, step, id);
    } else {
      OutsideLeaves(s, step, id);
    }
  }

  lemma SchedulerLeaves(s: State, step: Step, id: JobId)
    requires Enabled(s, step) && (SchedulerStep(step) || step.SchedAllocate?) && !step.SchedInsert?
    requires id in s.locked.jobs && ViewOf(s.sched, id) == Nowhere
    ensures SameFor(s, Do(s, step), id)
  {
    hide M.Allocate;
  }

  lemma OutsideLeaves(s: State, step: Step, id: JobId)
    requires Enabled(s, step) && !WorkerStep(step) && !SchedulerStep(step) && !step.SchedAllocate?
    requires id in s.locked.jobs && step != CancelFinish(id)
    ensures SameFor(s, Do(s, step), id)
  {
    hide M.Free, M.Apply;
  }

  lemma LostAgain(s: State, n: State, id: JobId)
    requires Live(s.locked, id) && Lost(LocalOf(s, id)) && id in n.locked.jobs
    requires n.locked.jobs[id] == s.locked.jobs[id] && n.dropped == s.dropped && TokenOf(n, id) == TokenOf(s, id)
    ensures Live(n.locked, id) && Lost(LocalOf(n, id))
  {
    hide TokenOf;
  }

  lemma DoomedStep(s: State, step: Step, id: JobId)
    requires OneToken(s) && AllOk(s) && Enabled(s, step) && Doomed(s, id)
    ensures OneToken(Do(s, step)) && AllOk(Do(s, step)) && Doomed(Do(s, step), id)
  {
    hide OneToken, AllOk, Do, Enabled, Lost, LocalOf, Shut;
    LocalStep(s, step);
    if Live(s.locked, id) {
      if WorkerStep(step) {
        WorkerLost(s, step, id);
      } else if step.SchedInsert? {
        InsertLost(s, id);
      } else if step == CancelFinish(id) {
        CancelLost(s, id);
      } else {
        OtherLost(s, step, id);
      }
    } else {
      ShutStep(s, step, id);
      ShutRecord(s, id);
      ShutRecord(Do(s, step), id);
    }
  }

  lemma ShutRecord(s: State, id: JobId)
    requires Shut(s, id)
    ensures id in s.locked.jobs && JobOf(s, id) == Some(s.locked.jobs[id])
  {}

  lemma {:induction false} DoomedStays(states: seq<State>, steps: seq<Step>, i: nat, k: nat, id: JobId)
    requires IsRun(states, steps) && i <= k < |states| && Doomed(states[i], id)
    ensures Doomed(states[k], id)
    decreases k
  {
    hide OneToken, AllOk, Owned, Do, Enabled, Doomed;
    if i < k {
      DoomedStays(states, steps, i, k - 1, id);
      RunInv(states, steps, k - 1);
      assert Enabled(states[k - 1], steps[k - 1]) && states[k - 1 + 1] == Do(states[k - 1], steps[k - 1]);
      DoomedStep(states[k - 1], steps[k - 1], id);
    }
  }

  // ---- Allocations stay with their job ----

  /** A step leaves the record's allocation as it is or hands it back, for any job and any step. */
  lemma AllocationStep(s: State, step: Step, id: JobId, a: nat)
    requires Inv(s) && Enabled(s, step) && id in s.locked.jobs && s.locked.jobs[id].alloc == Some(a)
    ensures var n := Do(s, step);
      id in n.locked.jobs && (n.locked.jobs[id].alloc == Some(a) || n.locked.freed[a] > s.locked.freed[a])
      && n.locked.freed >= s.locked.freed
  {
    hide OneToken, AllOk, Owned, Do, Enabled, Writes;
    if WorkerStep(step) {
      var x := WorkerWrites(s, step);
      WriteKeeps(s.locked, Do(s, step).locked, x, id, a);
    } else if step.CancelFinish? {
      SectionsWrite(s.locked, step.id, "", Running);
      CancelIs(s, step.id);
      WriteKeeps(s.locked, Do(s, step).locked, step.id, id, a);
    } else {
      SchedulerKeeps(s, step, id, a);
    }
  }

  lemma WriteKeeps(c: Locked, d: Locked, x: JobId, id: JobId, a: nat)
    requires Writes(c, d, x) && id in c.jobs && c.jobs[id].alloc == Some(a)
    ensures id in d.jobs && (d.jobs[id].alloc == Some(a) || d.freed[a] > c.freed[a])
    ensures d.freed >= c.freed
  {
    hide M.Free;
  }

  lemma SchedulerKeeps(s: State, step: Step, id: JobId, a: nat)
    requires AllOk(s) && Enabled(s, step) && id in s.locked.jobs && s.locked.jobs[id].alloc == Some(a)
    requires !WorkerStep(step) && !step.CancelFinish?
    ensures var n := Do(s, step);
      id in n.locked.jobs && n.locked.jobs[id].alloc == Some(a) && n.locked.freed == s.locked.freed
  {
    hide AllOk, TokenOf, M.Allocate, M.Apply;
    OkAt(s, id);
  }

  /** Over every run: an allocation a job names stays with this job, outstanding, until it is freed, and is
      freed at most once. */
  lemma {:induction false} AllocationNeverMoves(states: seq<State>, steps: seq<Step>, i: nat, k: nat, id: JobId, a: nat)
    requires IsRun(states, steps) && i <= k < |states|
    requires id in states[i].locked.jobs && states[i].locked.jobs[id].alloc == Some(a)
    ensures id in states[k].locked.jobs
    ensures if states[k].locked.jobs[id].alloc == Some(a) then states[k].locked.freed[a] == 0
        else states[k].locked.freed[a] == 1
    decreases k
  {
    hide OneToken, AllOk, Owned, Do, Enabled;
    RunInv(states, steps, k);
    FreedAtMostOnce(states[k], a);
    if states[k].locked.jobs.Keys != {} && id in states[k].locked.jobs && states[k].locked.jobs[id].alloc == Some(a) {
      HoldsUnfreed(states[k], id);
    }
    if i < k {
      AllocationNeverMoves(states, steps, i, k - 1, id, a);
      RunInv(states, steps, k - 1);
      assert Enabled(states[k - 1], steps[k - 1]) && states[k - 1 + 1] == Do(states[k - 1], steps[k - 1]);
      StillOrFreed(states[k - 1], steps[k - 1], id, a);
    }
  }

  lemma FreedAtMostOnce(s: State, a: nat)
    requires Inv(s)
    ensures s.locked.freed[a] <= 1
  {
    hide OneToken, AllOk;
  }

  /** A freed allocation is named by nobody any more, and stays freed. */
  lemma StillOrFreed(s: State, step: Step, id: JobId, a: nat)
    requires Inv(s) && Enabled(s, step) && id in s.locked.jobs
    requires s.locked.jobs[id].alloc == Some(a) || s.locked.freed[a] == 1
    ensures var n := Do(s, step);
      id in n.locked.jobs && (n.locked.jobs[id].alloc == Some(a) || n.locked.freed[a] >= 1)
  {
    hide OneToken, AllOk, Owned, Do, Enabled;
    if s.locked.jobs[id].alloc == Some(a) {
      AllocationStep(s, step, id, a);
    } else {
      FreedGrows(s, step, id);
    }
  }

  lemma FreedGrows(s: State, step: Step, id: JobId)
    requires Inv(s) && Enabled(s, step) && id in s.locked.jobs
    ensures id in Do(s, step).locked.jobs && Do(s, step).locked.freed >= s.locked.freed
  {
    hide OneToken, AllOk, Owned, Do, Enabled, Writes;
    if WorkerStep(step) {
      var x := WorkerWrites(s, step);
      WriteGrows(s.locked, Do(s, step).locked, x, id);
    } else if step.CancelFinish? {
      SectionsWrite(s.locked, step.id, "", Running);
      CancelIs(s, step.id);
      WriteGrows(s.locked, Do(s, step).locked, step.id, id);
    } else {
      SchedulerGrows(s, step, id);
    }
  }

  lemma WriteGrows(c: Locked, d: Locked, x: JobId, id: JobId)
    requires Writes(c, d, x) && id in c.jobs
    ensures id in d.jobs && d.freed >= c.freed
  {
    hide M.Free;
  }

  lemma SchedulerGrows(s: State, step: Step, id: JobId)
    requires Enabled(s, step) && id in s.locked.jobs && !WorkerStep(step) && !step.CancelFinish?
    ensures id in Do(s, step).locked.jobs && Do(s, step).locked.freed == s.locked.freed
  {
    hide M.Allocate, M.Apply;
  }

  // ---- The theorem ----

  /** The run can go on so that this job is Completed and the allocation it names now has been freed. */
  ghost predicate CompletedLater(states: seq<State>, steps: seq<Step>, i: nat, id: JobId)
    requires i < |states| && id in states[i].locked.jobs
  {
    exists more, moreSteps, k :: Continues(states, steps, i, more, moreSteps) && i <= k
      && CompletedAt(more, k, id, states[i].locked.jobs[id].alloc)
  }

  ghost predicate CompletedAt(states: seq<State>, k: nat, id: JobId, held: Option<nat>) {
    && k < |states| && id in states[k].locked.jobs && states[k].locked.jobs[id].state == Completed
    && states[k].locked.jobs[id].alloc == None && (held.Some? ==> states[k].locked.freed[held.value] == 1)
  }

  lemma Shorter<T>(a: seq<T>, b: seq<T>, n: nat)
    requires n < |a| && n < |b| && a[..n + 1] == b[..n + 1]
    ensures a[..n] == b[..n]
  {
    assert a[..n] == a[..n + 1][..n] && b[..n] == b[..n + 1][..n];
  }

  lemma {:induction false} FinishRuns(states: seq<State>, steps: seq<Step>, i: nat, rest: seq<Step>, id: JobId)
    returns (more: seq<State>, moreSteps: seq<Step>, k: nat)
    requires IsRun(states, steps) && i < |states| && Finishes(states[i], rest, id)
    ensures Continues(states, steps, i, more, moreSteps) && i <= k < |more|
    ensures id in more[k].locked.jobs && more[k].locked.jobs[id].state == Completed
    decreases |rest|
  {
    hide Do, Enabled;
    if rest == [] {
      more, moreSteps, k := states, steps, i;
    } else {
      var on, onSteps := states[..i + 1] + [Do(states[i], rest[0])], steps[..i] + [rest[0]];
      forall j | 0 <= j < i + 1 ensures Enabled(on[j], onSteps[j]) && on[j + 1] == Do(on[j], onSteps[j]) {
        if j < i { assert Enabled(states[j], steps[j]) && states[j + 1] == Do(states[j], steps[j]); }
      }
      assert IsRun(on, onSteps) && on[i + 1] == Do(states[i], rest[0]);
      more, moreSteps, k := FinishRuns(on, onSteps, i + 1, rest[1..], id);
      Shorter(more, on, i + 1);
      Shorter(moreSteps, onSteps, i);
      assert on[..i + 1] == states[..i + 1] && onSteps[..i] == steps[..i];
    }
  }

  lemma CompletedHolds(states: seq<State>, steps: seq<Step>, i: nat, id: JobId,
                       more: seq<State>, moreSteps: seq<Step>, k: nat)
    requires IsRun(states, steps) && i < |states| && id in states[i].locked.jobs
    requires Continues(states, steps, i, more, moreSteps) && i <= k < |more|
    requires id in more[k].locked.jobs && more[k].locked.jobs[id].state == Completed
    ensures CompletedAt(more, k, id, states[i].locked.jobs[id].alloc)
  {
    hide OneToken, Owned, IsRun, TokenOf;
    ContinuesFrom(states, steps, i, more, moreSteps);
    RunInv(more, moreSteps, k);
    OkAt(more[k], id);
    var held := states[i].locked.jobs[id].alloc;
    if held.Some? { AllocationNeverMoves(more, moreSteps, i, k, id, held.value); }
  }

  /** Exactly which live jobs can still complete: in every reachable state, some continuation of the run
      completes the job, with the allocation it names now freed, if and only if its entry was not discarded,
      it is not bound for the monitor without a handle, and it is not being moved once more than it may. */
  lemma LiveCompletableIff(states: seq<State>, steps: seq<Step>, i: nat, id: JobId)
    requires IsRun(states, steps) && i < |states| && Live(states[i].locked, id)
    ensures CompletedLater(states, steps, i, id) <==> !Lost(LocalOf(states[i], id))
  {
    hide OneToken, AllOk, Owned, Lost, Finishes, CompletedAt, Continues, IsRun;
    RunInv(states, steps, i);
    if !Lost(LocalOf(states[i], id)) {
      LiveFinishes(states[i], id);
      var rest :| Finishes(states[i], rest, id);
      var more, moreSteps, k := FinishRuns(states, steps, i, rest, id);
      CompletedHolds(states, steps, i, id, more, moreSteps, k);
    }
    if CompletedLater(states, steps, i, id) && Lost(LocalOf(states[i], id)) {
      var more, moreSteps, k :| Continues(states, steps, i, more, moreSteps) && i <= k
        && CompletedAt(more, k, id, states[i].locked.jobs[id].alloc);
      NeverCompleted(states, steps, i, id, more, moreSteps, k);
    }
  }

  lemma NeverCompleted(states: seq<State>, steps: seq<Step>, i: nat, id: JobId,
                       more: seq<State>, moreSteps: seq<Step>, k: nat)
    requires IsRun(states, steps) && i < |states| && Live(states[i].locked, id) && Lost(LocalOf(states[i], id))
    requires Continues(states, steps, i, more, moreSteps) && i <= k
    ensures !CompletedAt(more, k, id, states[i].locked.jobs[id].alloc)
  {
    hide IsRun, Lost, LocalOf, Shut;
    ContinuesFrom(states, steps, i, more, moreSteps);
    if k < |more| { DoomedStays(more, moreSteps, i, k, id); }
  }
}
