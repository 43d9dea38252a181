/** Terminal states: exactly when one can still be rewritten, in one step and over whole runs. */
module PipelineTerminal {
  import opened Jobspec
  import opened Graphs
  import opened CriticalSections
  import opened Pipeline
  import opened PipelineSafety
  import M = Matcher

  // ---- When a terminal state is rewritten ----

  /** A locked section is still to come that will write this record without looking at its state:
      a stage worker or scheduler is in its unlocked gap, or a canceller is about to fail a
      completed job. */
  ghost predicate GapOpen(s: State, id: JobId)
    requires id in s.locked.jobs
  {
    WorkerGap(s, id) || ViewOf(s.sched, id).Copy? || (s.locked.jobs[id].state == Completed && id in s.cancels)
  }

  ghost predicate WorkerGap(s: State, id: JobId)
    requires id in s.locked.jobs
  {
    exists t :: HasToken(s, id, t) && WritesNext(s.tokens[t].phase, s.locked.jobs[id])
  }

  /** Will a worker in this phase write the terminal record with another state? */
  predicate WritesNext(phase: Phase, j: Job) {
    phase == Calling || (phase == Cancelling && (j.state == Completed || j.reschedules < MAX_RESCHEDULES))
  }

  ghost predicate Rewrites(s: State, step: Step, id: JobId) {
    Enabled(s, step) && id in s.locked.jobs
      && (id !in Do(s, step).locked.jobs || Do(s, step).locked.jobs[id].state != s.locked.jobs[id].state)
  }

  ghost predicate CanRewrite(s: State, id: JobId) { exists step :: Rewrites(s, step, id) }

  lemma WorkerKept(s: State, step: Step)
    requires OneToken(s) && AllOk(s) && Enabled(s, step) && WorkerStep(step)
    ensures step.t in s.tokens && Kept(s, Do(s, step), s.tokens[step.t].job)
  {
    hide OneToken, AllOk, Do, Kept;
    match step
    case DispatchBegin(t) => DispatchBeginStep(s, t);
    case DispatchEnd(t, o, kept) => DispatchEndStep(s, t, o, kept);
    case RepairBegin(t) => RepairBeginStep(s, t);
    case RepairEnd(t, o) => RepairEndStep(s, t, o);
    case RescheduleEnd(t) => RescheduleEndStep(s, t);
    case PassOn(t) => PassOnStep(s, t);
    case MonitorBegin(t) => MonitorBeginStep(s, t);
    case MonitorEnd(t, st) => MonitorEndStep(s, t, st);
  }

  lemma KeptOneToken(s: State, n: State, id: JobId)
    requires Kept(s, n, id)
    ensures OneToken(n)
  {}

  /** A worker step writes only the record of its own entry. */
  lemma WorkerRewrites(s: State, step: Step, id: JobId)
    requires OneToken(s) && AllOk(s) && Rewrites(s, step, id) && WorkerStep(step)
    ensures step.t in s.tokens && s.tokens[step.t].job == id
  {
    hide OneToken, AllOk, Do, Enabled, Ok, TokenOf;
    WorkerKept(s, step);
    var n := Do(s, step);
    assert s.tokens[step.t].job != id ==> LocalOf(n, id) == LocalOf(s, id);
    assert LocalOf(n, id) == LocalOf(s, id) ==> JobOf(n, id) == JobOf(s, id);
  }

  lemma WorkerRewriteNeedsGap(s: State, step: Step, id: JobId)
    requires OneToken(s) && AllOk(s)
    requires id in s.locked.jobs && s.locked.jobs[id].state.Terminal() && Rewrites(s, step, id)
    requires WorkerStep(step)
    ensures WorkerGap(s, id)
  {
    hide OneToken, AllOk, M.Free, AfterDispatch, AfterRepair, RecordStatus;
    WorkerRewrites(s, step, id);
    assert HasToken(s, id, step.t);
    assert WritesNext(s.tokens[step.t].phase, s.locked.jobs[id]);
  }

  lemma OtherRewriteNeedsGap(s: State, step: Step, id: JobId)
    requires id in s.locked.jobs && s.locked.jobs[id].state.Terminal() && Rewrites(s, step, id)
    requires !WorkerStep(step)
    ensures ViewOf(s.sched, id).Copy?
        || (step == CancelFinish(id) && s.locked.jobs[id].state == Completed && id in s.cancels)
  {
    hide M.Free, M.Allocate, M.Apply;
  }

  lemma WorkerGapRewrites(s: State, id: JobId, t: nat) returns (step: Step)
    requires OneToken(s) && AllOk(s)
    requires id in s.locked.jobs && s.locked.jobs[id].state.Terminal()
    requires HasToken(s, id, t) && WritesNext(s.tokens[t].phase, s.locked.jobs[id])
    ensures Rewrites(s, step, id)
  {
    hide M.Free, OneToken, TokenOf, AfterDispatch, AfterRepair;
    if s.tokens[t].phase == Cancelling {
      step := RescheduleEnd(t);
    } else {
      match s.tokens[t].stage
      case Dispatch =>
        step := DispatchEnd(t, Success(""), true);
        assert AfterDispatch(s.locked, id, Success("")) == (SetRunning(s.locked, id, ""), Enqueue(Monitor))
            by { SuccessRuns(s.locked, id, 0); }
      case Repair =>
        step := RepairEnd(t, Success(""));
        assert AfterRepair(s.locked, id, Success(""), s.tokens[t].attempt)
            == (SetRunning(s.locked, id, ""), Enqueue(Monitor)) by {
          SuccessRuns(s.locked, id, s.tokens[t].attempt);
        }
      case Monitor => step := MonitorEnd(t, Some(Running));
    }
  }

  lemma SuccessRuns(c: Locked, id: JobId, attempt: nat)
    ensures AfterDispatch(c, id, Success("")) == (SetRunning(c, id, ""), Enqueue(Monitor))
    ensures AfterRepair(c, id, Success(""), attempt) == (SetRunning(c, id, ""), Enqueue(Monitor))
  {}

  lemma OtherGapRewrites(s: State, id: JobId) returns (step: Step)
    requires OneToken(s) && AllOk(s)
    requires id in s.locked.jobs && s.locked.jobs[id].state.Terminal()
    requires ViewOf(s.sched, id).Copy? || (s.locked.jobs[id].state == Completed && id in s.cancels)
    ensures Rewrites(s, step, id)
  {
    hide M.Free, OneToken, TokenOf;
    assert Ok(LocalOf(s, id));
    if ViewOf(s.sched, id).Copy? {
      step := if s.sched.Placing? then SchedUpdate else SchedNote(id);
    } else {
      step := CancelFinish(id);
    }
  }

  /** In a reachable state the very next step can rewrite a terminal state exactly when a gap is open. */
  lemma NextRewriteIffGap(states: seq<State>, steps: seq<Step>, i: nat, id: JobId)
    requires IsRun(states, steps) && i < |states|
    requires id in states[i].locked.jobs && states[i].locked.jobs[id].state.Terminal()
    ensures CanRewrite(states[i], id) <==> GapOpen(states[i], id)
  {
    hide IsRun, Owned, OneToken, AllOk, Rewrites;
    var s := states[i];
    RunInv(states, steps, i);
    if step :| Rewrites(s, step, id) {
      if WorkerStep(step) {
        WorkerRewriteNeedsGap(s, step, id);
      } else {
        OtherRewriteNeedsGap(s, step, id);
      }
    }
    if GapOpen(s, id) {
      if t :| HasToken(s, id, t) && WritesNext(s.tokens[t].phase, s.locked.jobs[id]) {
        var step := WorkerGapRewrites(s, id, t);
      } else {
        var step := OtherGapRewrites(s, id);
      }
    }
  }

  // ---- A closed gap stays closed ----

  lemma GapIs(s: State, id: JobId)
    requires OneToken(s) && id in s.locked.jobs
    ensures WorkerGap(s, id) <==> TokenOf(s, id).Some? && WritesNext(TokenOf(s, id).value.phase, s.locked.jobs[id])
  {
    hide WritesNext, TokenOf;
    if t :| HasToken(s, id, t) { TokenIs(s, t); } else { NoTokenIs(s, id); }
    if TokenOf(s, id).Some? { TokenHeld(s, id); }
  }

  lemma TokenHeld(s: State, id: JobId)
    requires TokenOf(s, id).Some?
    ensures exists t :: HasToken(s, id, t) && s.tokens[t] == TokenOf(s, id).value
  {}

  /** Terminal, with nothing under way that would write the record with another state. */
  predicate Closed(v: Local, cancelled: bool) {
    && v.job.Some? && v.job.value.state.Terminal() && !v.view.Copy?
    && (v.token.Some? ==> !WritesNext(v.token.value.phase, v.job.value))
    && (cancelled ==> v.job.value.state != Completed)
  }

  ghost predicate Shut(s: State, id: JobId) { Closed(LocalOf(s, id), id in s.cancels) }

  lemma ShutIs(s: State, id: JobId)
    requires OneToken(s) && id in s.locked.jobs
    ensures Shut(s, id) <==> s.locked.jobs[id].state.Terminal() && !GapOpen(s, id)
  {
    hide OneToken, TokenOf, WorkerGap, WritesNext;
    GapIs(s, id);
  }

  /** A worker at a shut job's own entry can only drop it or hand it on. */
  lemma OwnWorkerShut(s: State, step: Step, id: JobId)
    requires OneToken(s) && AllOk(s) && Enabled(s, step) && WorkerStep(step) && Shut(s, id)
    requires step.t in s.tokens && s.tokens[step.t].job == id
    ensures var n := Do(s, step); OneToken(n) && Shut(n, id) && JobOf(n, id).value.state == JobOf(s, id).value.state
  {
    hide OneToken, AllOk, TokenOf, M.Free, AfterDispatch, AfterRepair, RecordStatus;
    TokenIs(s, step.t);
    WorkerKept(s, step);
    var n := Do(s, step);
    KeptOneToken(s, n, id);
    assert !Live(s.locked, id);
    if step.PassOn? {
      TokenIs(n, s.nextToken);
    } else {
      TokenDropped(s, n, step.t);
    }
  }

  lemma WorkerShut(s: State, step: Step, id: JobId)
    requires OneToken(s) && AllOk(s) && Enabled(s, step) && WorkerStep(step) && Shut(s, id)
    ensures var n := Do(s, step); OneToken(n) && Shut(n, id) && JobOf(n, id).value.state == JobOf(s, id).value.state
  {
    hide OneToken, AllOk, Closed, Do, Enabled;
    WorkerKept(s, step);
    KeptOneToken(s, Do(s, step), s.tokens[step.t].job);
    if s.tokens[step.t].job == id {
      OwnWorkerShut(s, step, id);
    } else {
      WorkerLeavesCancels(s, step);
      assert LocalOf(Do(s, step), id) == LocalOf(s, id);
    }
  }

  lemma WorkerLeavesCancels(s: State, step: Step)
    requires Enabled(s, step) && WorkerStep(step)
    ensures Do(s, step).cancels == s.cancels
  {
    hide M.Free, AfterDispatch, AfterRepair, RecordStatus, FinishReschedule;
  }

  lemma InsertShut(s: State, id: JobId)
    requires OneToken(s) && AllOk(s) && Enabled(s, SchedInsert) && Shut(s, id)
    ensures var n := Do(s, SchedInsert); OneToken(n) && Shut(n, id) && JobOf(n, id) == JobOf(s, id)
  {
    hide OneToken, AllOk, TokenOf, Ok;
    InsertStep(s);
    var n := Do(s, SchedInsert);
    KeptOneToken(s, n, s.sched.id);
    TokenIs(n, s.nextToken);
    if s.sched.id != id { assert LocalOf(n, id) == LocalOf(s, id); }
  }

  /** The scheduler and the cancellers write no shut record with another state. */
  lemma OtherShut(s: State, step: Step, id: JobId)
    requires OneToken(s) && Enabled(s, step) && !WorkerStep(step) && !step.SchedInsert? && Shut(s, id)
    ensures var n := Do(s, step); OneToken(n) && Shut(n, id) && JobOf(n, id).value.state == JobOf(s, id).value.state
  {
    hide OneToken, TokenOf, M.Free, M.Allocate, M.Apply;
    TokensKept(s, Do(s, step));
  }

  lemma ShutStep(s: State, step: Step, id: JobId)
    requires OneToken(s) && AllOk(s) && Enabled(s, step) && Shut(s, id)
    ensures var n := Do(s, step);
      OneToken(n) && AllOk(n) && Shut(n, id) && JobOf(n, id).value.state == JobOf(s, id).value.state
  {
    hide OneToken, AllOk, Do, Enabled, LocalOf;
    LocalStep(s, step);
    if WorkerStep(step) {
      WorkerShut(s, step, id);
    } else if step.SchedInsert? {
      InsertShut(s, id);
    } else {
      OtherShut(s, step, id);
    }
  }

  /** In every run, whatever the cancellers do: a terminal job with no gap open keeps its state for
      ever, and no gap ever opens on it again. */
  lemma {:induction false} ShutStaysShut(states: seq<State>, steps: seq<Step>, i: nat, k: nat, id: JobId)
    requires IsRun(states, steps) && i <= k < |states|
    requires id in states[i].locked.jobs && states[i].locked.jobs[id].state.Terminal() && !GapOpen(states[i], id)
    ensures id in states[k].locked.jobs && states[k].locked.jobs[id].state == states[i].locked.jobs[id].state
    ensures !GapOpen(states[k], id)
    decreases k
  {
    hide OneToken, AllOk, Owned, Do, Enabled, GapOpen, Shut;
    RunInv(states, steps, k);
    if i < k {
      ShutStaysShut(states, steps, i, k - 1, id);
      RunInv(states, steps, k - 1);
      ShutIs(states[k - 1], id);
      assert Enabled(states[k - 1], steps[k - 1]) && states[k - 1 + 1] == Do(states[k - 1], steps[k - 1]);
      ShutStep(states[k - 1], steps[k - 1], id);
      ShutInQueue(states[k], id);
      ShutIs(states[k], id);
    }
  }

  lemma ShutInQueue(s: State, id: JobId)
    requires Shut(s, id)
    ensures id in s.locked.jobs && JobOf(s, id) == Some(s.locked.jobs[id])
  {}

  /** A run that goes on from where another one stands. */
  ghost predicate Continues(states: seq<State>, steps: seq<Step>, i: nat, more: seq<State>, moreSteps: seq<Step>) {
    && IsRun(more, moreSteps) && i < |states| == |steps| + 1 && i < |more|
    && more[..i + 1] == states[..i + 1] && moreSteps[..i] == steps[..i]
  }

  ghost predicate RewrittenLater(states: seq<State>, steps: seq<Step>, i: nat, id: JobId)
    requires i < |states| && id in states[i].locked.jobs
  {
    exists more, moreSteps, k :: Continues(states, steps, i, more, moreSteps) && i <= k
      && Differs(more, k, id, states[i].locked.jobs[id].state)
  }

  ghost predicate Differs(states: seq<State>, k: nat, id: JobId, st: JobState) {
    k < |states| && (id !in states[k].locked.jobs || states[k].locked.jobs[id].state != st)
  }

  /** Exactly when a terminal state is not final: some continuation of the run rewrites it if and only
      if a gap is open on the job now. */
  lemma TerminalRewrittenIffGap(states: seq<State>, steps: seq<Step>, i: nat, id: JobId)
    requires IsRun(states, steps) && i < |states|
    requires id in states[i].locked.jobs && states[i].locked.jobs[id].state.Terminal()
    ensures RewrittenLater(states, steps, i, id) <==> GapOpen(states[i], id)
  {
    hide GapOpen, Rewrites, Continues;
    if RewrittenLater(states, steps, i, id) {
      var more, moreSteps, k :| Continues(states, steps, i, more, moreSteps) && i <= k
        && Differs(more, k, id, states[i].locked.jobs[id].state);
      ContinuesFrom(states, steps, i, more, moreSteps);
      if !GapOpen(states[i], id) { ShutStaysShut(more, moreSteps, i, k, id); }
    }
    if GapOpen(states[i], id) {
      NextRewriteIffGap(states, steps, i, id);
      var step :| Rewrites(states[i], step, id);
      RewriteContinues(states, steps, i, id, step);
    }
  }

  lemma ContinuesFrom(states: seq<State>, steps: seq<Step>, i: nat, more: seq<State>, moreSteps: seq<Step>)
    requires Continues(states, steps, i, more, moreSteps)
    ensures IsRun(more, moreSteps) && i < |more| && i < |states| && more[i] == states[i]
  {
    hide IsRun;
    assert more[..i + 1][i] == states[..i + 1][i];
  }

  lemma RewriteContinues(states: seq<State>, steps: seq<Step>, i: nat, id: JobId, step: Step)
    requires IsRun(states, steps) && i < |states| && Rewrites(states[i], step, id)
    ensures RewrittenLater(states, steps, i, id)
  {
    hide Do, Enabled;
    var more, moreSteps := states[..i + 1] + [Do(states[i], step)], steps[..i] + [step];
    forall j | 0 <= j < i + 1 ensures Enabled(more[j], moreSteps[j]) && more[j + 1] == Do(more[j], moreSteps[j]) {
      if j < i { assert Enabled(states[j], steps[j]) && states[j + 1] == Do(states[j], steps[j]); }
    }
    assert IsRun(more, moreSteps);
    assert more[..i + 1] == states[..i + 1] && moreSteps[..i] == steps[..i];
    assert Continues(states, steps, i, more, moreSteps);
    assert more[i + 1] == Do(states[i], step);
    assert Differs(more, i + 1, id, states[i].locked.jobs[id].state);
  }

  // ---- Jobs whose cancellations keep out of the gaps ----

  /** A cancellation of this job outside its gaps: it has not completed, no stage worker is in its
      unlocked call, and the scheduler holds no copy of the record. Other jobs are unconstrained. */
  ghost predicate QuietFor(s: State, step: Step, id: JobId) {
    step == CancelFinish(id) ==>
      && (id in s.locked.jobs ==> s.locked.jobs[id].state != Completed)
      && !ViewOf(s.sched, id).Copy?
      && (TokenOf(s, id).Some? ==> !InGap(TokenOf(s, id).value))
  }

  predicate InGap(k: Token) { k.phase == Calling || k.phase == Cancelling }

  /** A terminal job has no open gap, and a running job holds its allocation. */
  predicate Settled(v: Local) { NoGap(v) && RunningHolds(v.job) }

  predicate NoGap(v: Local) {
    v.job.Some? && v.job.value.state.Terminal() ==> !v.view.Copy? && (v.token.Some? ==> !InGap(v.token.value))
  }

  predicate RunningHolds(j: Option<Job>) { j.Some? && j.value.state == Running ==> j.value.alloc.Some? }

  /** A worker leaves its own job settled: it closes its gap, or enters one on a live job. */
  lemma WorkerSettles(s: State, step: Step)
    requires OneToken(s) && AllOk(s) && Enabled(s, step) && WorkerStep(step)
    requires step.t in s.tokens && Settled(LocalOf(s, s.tokens[step.t].job))
    ensures Settled(LocalOf(Do(s, step), s.tokens[step.t].job))
  {
    hide TokenOf, M.Free, OneToken, Ok, Kept, AllOk;
    WorkerKept(s, step);
    var id, n := s.tokens[step.t].job, Do(s, step);
    TokenIs(s, step.t);
    assert n.sched == s.sched;
    assert Ok(LocalOf(s, id)) by { OkAt(s, id); }
    EntryHasNoCopy(LocalOf(s, id));
    assert RunningHolds(JobOf(n, id)) by { WorkerRunningHolds(s, step); }
    hide Do;
    if step.t in n.tokens {
      assert OneToken(n) by { KeptOneToken(s, n, id); }
      TokenIs(n, step.t);
      SameNumber(s, step);
    } else {
      NewEntryWaits(s, n, step);
    }
  }

  /** In a settled state a worker only makes, or leaves, a job Running that holds its allocation. */
  lemma WorkerRunningHolds(s: State, step: Step)
    requires OneToken(s) && AllOk(s) && Enabled(s, step) && WorkerStep(step)
    requires step.t in s.tokens && Settled(LocalOf(s, s.tokens[step.t].job))
    ensures RunningHolds(JobOf(Do(s, step), s.tokens[step.t].job))
  {
    hide TokenOf, M.Free, OneToken, AllOk;
    var id := s.tokens[step.t].job;
    TokenIs(s, step.t);
    assert Ok(LocalOf(s, id)) by { OkAt(s, id); }
  }

  lemma OkAt(s: State, id: JobId)
    requires AllOk(s)
    ensures Ok(LocalOf(s, id))
  {}

  /** An entry that keeps its number is in a gap afterwards only on a job that is not terminal. */
  ghost predicate GapOnLive(n: State, t: nat, id: JobId) {
    t in n.tokens ==> n.tokens[t].job == id && (InGap(n.tokens[t]) ==> Live(n.locked, id))
  }

  lemma BeginSameNumber(s: State, step: Step)
    requires Enabled(s, step) && (step.DispatchBegin? || step.RepairBegin? || step.MonitorBegin?)
    ensures GapOnLive(Do(s, step), step.t, s.tokens[step.t].job)
  {}

  lemma EndSameNumber(s: State, step: Step)
    requires Enabled(s, step) && (step.DispatchEnd? || step.RepairEnd? || step.MonitorEnd?)
    requires Live(s.locked, s.tokens[step.t].job)
    ensures GapOnLive(Do(s, step), step.t, s.tokens[step.t].job)
  {
    hide M.Free, AfterDispatch, AfterRepair, RecordStatus;
    var k := s.tokens[step.t];
    match step
    case DispatchEnd(t, o, _) => RescheduleLeaves(s.locked, k.job, o, 0);
    case RepairEnd(t, o) => RescheduleLeaves(s.locked, k.job, o, k.attempt);
    case _ =>
  }

  lemma SameNumber(s: State, step: Step)
    requires OneToken(s) && Enabled(s, step) && WorkerStep(step) && step.t in s.tokens
    requires InGap(s.tokens[step.t]) ==> Live(s.locked, s.tokens[step.t].job)
    ensures GapOnLive(Do(s, step), step.t, s.tokens[step.t].job)
  {
    hide GapOnLive, Do;
    if step.DispatchBegin? || step.RepairBegin? || step.MonitorBegin? {
      BeginSameNumber(s, step);
    } else if step.DispatchEnd? || step.RepairEnd? || step.MonitorEnd? {
      EndSameNumber(s, step);
    } else {
      LastSameNumber(s, step);
    }
  }

  lemma LastSameNumber(s: State, step: Step)
    requires OneToken(s) && Enabled(s, step) && (step.RescheduleEnd? || step.PassOn?)
    ensures GapOnLive(Do(s, step), step.t, s.tokens[step.t].job)
  {
    hide FinishReschedule;
  }

  /** Choosing to reschedule writes nothing yet. */
  lemma RescheduleLeaves(c: Locked, id: JobId, o: AttemptOutcome, attempt: nat)
    ensures AfterDispatch(c, id, o).1 == Reschedule ==> AfterDispatch(c, id, o).0 == c
    ensures AfterRepair(c, id, o, attempt).1 == Reschedule ==> AfterRepair(c, id, o, attempt).0 == c
  {
    hide M.Free;
  }

  lemma EntryHasNoCopy(v: Local)
    requires Ok(v) && v.token.Some?
    ensures v.view == Nowhere && v.job.Some?
  {}

  /** An entry that left its number behind was either dropped or passed on as a waiting entry. */
  lemma NewEntryWaits(s: State, n: State, step: Step)
    requires OneToken(s) && AllOk(s) && Enabled(s, step) && WorkerStep(step)
    requires n == Do(s, step) && step.t in s.tokens && step.t !in n.tokens
    ensures TokenOf(n, s.tokens[step.t].job).Some? ==> !InGap(TokenOf(n, s.tokens[step.t].job).value)
  {
    hide M.Free, AllOk, TokenOf, OneToken;
    if step.PassOn? {
      assert OneToken(n) by { WorkerKept(s, step); KeptOneToken(s, n, s.tokens[step.t].job); }
      TokenIs(n, s.nextToken);
    } else {
      TokensLost(s, n, step);
      TokenDropped(s, n, step.t);
    }
  }

  lemma TokensLost(s: State, n: State, step: Step)
    requires Enabled(s, step) && WorkerStep(step) && !step.PassOn?
    requires n == Do(s, step) && step.t in s.tokens && step.t !in n.tokens
    ensures n.tokens == s.tokens - {step.t} && n.nextToken == s.nextToken
  {
    hide M.Free, AfterDispatch, AfterRepair, RecordStatus, FinishReschedule;
  }

  lemma GlobalSettles(s: State, step: Step, id: JobId)
    requires OneToken(s) && Enabled(s, step) && Settled(LocalOf(s, id))
    requires step.SchedSnapshot? || step.SchedRelease? || step.FleetChange?
    ensures Settled(LocalOf(Do(s, step), id))
  {
    hide TokenOf, M.Apply, OneToken;
    TokensKept(s, Do(s, step));
  }

  lemma InsertSettles(s: State, id: JobId)
    requires OneToken(s) && AllOk(s) && Enabled(s, SchedInsert) && Settled(LocalOf(s, id))
    ensures Settled(LocalOf(Do(s, SchedInsert), id))
  {
    hide TokenOf, OneToken, Ok;
    var n := Do(s, SchedInsert);
    InsertStep(s);
    TokenIs(n, s.nextToken);
    if s.sched.id != id { assert LocalOf(n, id) == LocalOf(s, id); }
  }

  /** Scheduler and canceller steps that write one record and leave the entries alone. */
  lemma RecordSettles(s: State, step: Step, id: JobId)
    requires OneToken(s) && AllOk(s) && Enabled(s, step) && QuietFor(s, step, id) && Settled(LocalOf(s, id))
    requires step.Submit? || step.SchedGet? || step.SchedNote? || step.SchedInfeasible? || step.SchedAllocate?
        || step.SchedUpdate?
      || step.CancelBegin? || step.CancelFinish?
    ensures Settled(LocalOf(Do(s, step), id))
  {
    hide TokenOf, M.Free, M.Allocate, OneToken;
    var n := Do(s, step);
    var x := if step.SchedInfeasible? || step.SchedAllocate? || step.SchedUpdate? then s.sched.id else step.id;
    TokensKept(s, n);
    assert Ok(LocalOf(s, id));
    if x != id {
      assert OnlyAbout(s, n, x) by { RecordOthers(s, step, x); }
      assert LocalOf(n, id) == LocalOf(s, id);
    }
  }

  lemma RecordOthers(s: State, step: Step, id: JobId)
    requires OneToken(s) && AllOk(s) && Enabled(s, step)
    requires id == if step.SchedInfeasible? || step.SchedAllocate? || step.SchedUpdate? then SchedId(s) else IdOf(step)
    requires step.Submit? || step.SchedGet? || step.SchedNote? || step.SchedInfeasible? || step.SchedAllocate?
        || step.SchedUpdate?
      || step.CancelBegin? || step.CancelFinish?
    ensures OnlyAbout(s, Do(s, step), id)
  {
    hide OneToken, AllOk, OnlyAbout, Ok, LocalOf, Do;
    match step
    case Submit(x, spec) => SubmitStep(s, x, spec);
    case SchedGet(x) => GetStep(s, x);
    case SchedNote(x) => NoteStep(s, x);
    case SchedInfeasible => InfeasibleStep(s);
    case SchedAllocate(c) => AllocateStep(s, c);
    case SchedUpdate => UpdateStep(s);
    case CancelBegin(x) => CancelBeginStep(s, x);
    case CancelFinish(x) => CancelFinishStep(s, x);
    case _ =>
  }

  function SchedId(s: State): JobId {
    match s.sched
    case Looking(id, _) => id
    case Placing(id, _, _, _) => id
    case Inserting(id) => id
    case _ => ""
  }

  function IdOf(step: Step): JobId {
    match step
    case Submit(id, _) => id
    case SchedGet(id) => id
    case SchedNote(id) => id
    case CancelBegin(id) => id
    case CancelFinish(id) => id
    case _ => ""
  }

  lemma OtherSettles(s: State, step: Step, id: JobId)
    requires OneToken(s) && AllOk(s) && Enabled(s, step) && !WorkerStep(step) && QuietFor(s, step, id)
    requires Settled(LocalOf(s, id))
    ensures Settled(LocalOf(Do(s, step), id))
  {
    hide OneToken, AllOk, Settled, LocalOf, Enabled, QuietFor, Do;
    if step.SchedInsert? {
      InsertSettles(s, id);
    } else if step.SchedSnapshot? || step.SchedRelease? || step.FleetChange? {
      GlobalSettles(s, step, id);
    } else {
      RecordSettles(s, step, id);
    }
  }

  lemma SettledStep(s: State, step: Step, id: JobId)
    requires OneToken(s) && AllOk(s) && Enabled(s, step) && QuietFor(s, step, id) && Settled(LocalOf(s, id))
    ensures Settled(LocalOf(Do(s, step), id))
  {
    hide OneToken, AllOk, Do, Enabled, QuietFor, Settled, LocalOf;
    if WorkerStep(step) {
      WorkerKept(s, step);
      if s.tokens[step.t].job == id {
        WorkerSettles(s, step);
      } else {
        assert LocalOf(Do(s, step), id) == LocalOf(s, id);
      }
    } else {
      OtherSettles(s, step, id);
    }
  }

  /** With no gap open, no quiet step rewrites a terminal state. */
  lemma SettledStays(s: State, step: Step, id: JobId)
    requires OneToken(s) && AllOk(s) && Enabled(s, step) && QuietFor(s, step, id) && Settled(LocalOf(s, id))
    requires id in s.locked.jobs && s.locked.jobs[id].state.Terminal()
    ensures !Rewrites(s, step, id)
  {
    hide OneToken, AllOk, Do, Enabled, Rewrites, TokenOf;
    if Rewrites(s, step, id) {
      if WorkerStep(step) {
        WorkerRewriteNeedsGap(s, step, id);
        var t :| HasToken(s, id, t) && WritesNext(s.tokens[t].phase, s.locked.jobs[id]);
        TokenIs(s, t);
        assert false;
      } else {
        OtherRewriteNeedsGap(s, step, id);
        assert false;
      }
    }
  }

  ghost predicate QuietRun(states: seq<State>, steps: seq<Step>, id: JobId) {
    IsRun(states, steps) && forall i :: 0 <= i < |steps| ==> QuietFor(states[i], steps[i], id)
  }

  lemma {:induction false} QuietSettled(states: seq<State>, steps: seq<Step>, i: nat, id: JobId)
    requires QuietRun(states, steps, id) && i < |states|
    ensures Settled(LocalOf(states[i], id))
  {
    hide OneToken, AllOk, Owned, Do, Enabled, QuietFor;
    if i > 0 {
      QuietSettled(states, steps, i - 1, id);
      RunInv(states, steps, i - 1);
      assert Enabled(states[i - 1], steps[i - 1]) && states[i - 1 + 1] == Do(states[i - 1], steps[i - 1]);
      assert QuietFor(states[i - 1], steps[i - 1], id);
      SettledStep(states[i - 1], steps[i - 1], id);
    }
  }

  /** In runs where the cancellations of this job keep out of its gaps, its terminal states are
      absorbing, whatever happens to other jobs. */
  lemma {:induction false} QuietTerminalAbsorbing(states: seq<State>, steps: seq<Step>, i: nat, k: nat, id: JobId)
    requires QuietRun(states, steps, id) && i <= k < |states|
    requires id in states[i].locked.jobs && states[i].locked.jobs[id].state.Terminal()
    ensures id in states[k].locked.jobs && states[k].locked.jobs[id].state == states[i].locked.jobs[id].state
    decreases k
  {
    hide OneToken, AllOk, Owned, Do, Enabled, QuietFor, Settled, LocalOf;
    if i < k {
      QuietTerminalAbsorbing(states, steps, i, k - 1, id);
      RunInv(states, steps, k - 1);
      QuietSettled(states, steps, k - 1, id);
      assert Enabled(states[k - 1], steps[k - 1]) && states[k - 1 + 1] == Do(states[k - 1], steps[k - 1]);
      assert QuietFor(states[k - 1], steps[k - 1], id);
      SettledStays(states[k - 1], steps[k - 1], id);
    }
  }

  /** In those runs the job, while placed, also still holds the allocation it was placed with. */
  lemma QuietRunningHoldsAllocation(states: seq<State>, steps: seq<Step>, i: nat, id: JobId)
    requires QuietRun(states, steps, id) && i < |states|
    requires id in states[i].locked.jobs && states[i].locked.jobs[id].state in {Matched, Dispatching, Running}
    ensures states[i].locked.jobs[id].alloc.Some?
    ensures states[i].locked.freed[states[i].locked.jobs[id].alloc.value] == 0
  {
    hide OneToken, M.Inv, Do, Enabled, QuietFor, TokenOf;
    RunInv(states, steps, i);
    QuietSettled(states, steps, i, id);
    var s := states[i];
    assert Settled(LocalOf(s, id)) && Ok(LocalOf(s, id));
    assert Claims(s, ByJob(id), s.locked.jobs[id].alloc.value);
    assert Outstanding(s, s.locked.jobs[id].alloc.value);
  }
}
