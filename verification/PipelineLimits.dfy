/** Where the pipeline's comments promise more than its code keeps: a cancellation in a gap is
    undone, a discarded dispatch entry strands its job, and an unlocked Update inside another
    actor's section loses an allocation. */
module PipelineLimits {
  import opened Jobspec
  import opened Graphs
  import opened CriticalSections
  import opened Pipeline
  import opened PipelineSafety
  import opened PipelineTerminal
  import M = Matcher

  ghost predicate Reaches(s: State) {
    exists states, steps :: IsRun(states, steps) && states[|states| - 1] == s
  }

  lemma ReachInit()
    ensures Reaches(INIT)
  {
    assert IsRun([INIT], []);
    assert [INIT][|[INIT]| - 1] == INIT;
  }

  lemma ReachStep(s: State, step: Step)
    requires Reaches(s) && Enabled(s, step)
    ensures Reaches(Do(s, step))
  {
    hide Do, Enabled;
    var states, steps :| IsRun(states, steps) && states[|states| - 1] == s;
    var more := states + [Do(s, step)];
    forall i | 0 <= i < |steps| + 1
        ensures Enabled(more[i], (steps + [step])[i]) && more[i + 1] == Do(more[i], (steps + [step])[i]) {
      if i < |steps| { assert Enabled(states[i], steps[i]) && states[i + 1] == Do(states[i], steps[i]); }
    }
    assert IsRun(more, steps + [step]);
    assert more[|more| - 1] == Do(s, step);
  }

  /** A cancellation while a dispatch attempt is in flight: the job is Failed and its allocation
      freed, and then the attempt's success makes it Running again, with no allocation. */
  lemma CancelInGapIsUndone(s: State, t: nat, id: JobId, handle: string)
    requires At(s, t, Dispatch, Calling) && s.tokens[t].job == id && Live(s.locked, id) && s.cancels[id] == 0
    ensures Enabled(s, CancelBegin(id))
    ensures var s1 := Do(s, CancelBegin(id));
      && Enabled(s1, CancelFinish(id))
      && var s2 := Do(s1, CancelFinish(id));
         && s2.locked.jobs[id].state == Failed && s2.locked.jobs[id].alloc == None
         && Enabled(s2, DispatchEnd(t, Success(handle), true))
         && var s3 := Do(s2, DispatchEnd(t, Success(handle), true));
            && s3.locked.jobs[id].state == Running && s3.locked.jobs[id].alloc == None
            && s3.locked.jobs[id].handle == handle
  {
    hide M.Free;
  }

  /** A cancellation between the scheduler's snapshot and its unlocked note: the stale record is written
      back, and the job waits again. */
  lemma NoteRevives(s: State, id: JobId)
    requires s.sched.Idle? && id in s.locked.jobs && s.locked.jobs[id].state == Submitted && s.cancels[id] == 0
    ensures Enabled(s, SchedSnapshot)
    ensures var s1 := Do(s, SchedSnapshot);
      && Enabled(s1, CancelBegin(id))
      && var s2 := Do(s1, CancelBegin(id));
         && Enabled(s2, CancelFinish(id))
         && var s3 := Do(s2, CancelFinish(id));
            && s3.locked.jobs[id].state == Failed && Enabled(s3, SchedNote(id))
            && Do(s3, SchedNote(id)).locked.jobs == s.locked.jobs
  {
    hide M.Free;
    var s3 := Do(Do(Do(s, SchedSnapshot), CancelBegin(id)), CancelFinish(id));
    assert s3.sched == Do(s, SchedSnapshot).sched;
    assert s3.locked.jobs[id := s.locked.jobs[id]] == s.locked.jobs;
  }

  /** What a cancellation in a dispatch gap does free: in a reachable state the job holds an allocation, and exactly
      that one is handed back, so the job that runs on afterwards runs on nodes that are free. */
  lemma CancelInGapFrees(s: State, t: nat, id: JobId)
    requires Inv(s) && At(s, t, Dispatch, Calling) && s.tokens[t].job == id && Live(s.locked, id)
    ensures s.locked.jobs[id].alloc.Some?
    ensures var c, d := s.locked, FailJob(s.locked, id);
      && d.freed[c.jobs[id].alloc.value] == 1
      && HandedBack(c.ledger, c.freed, d.ledger, d.freed, c.jobs[id].alloc)
  {
    hide OneToken, AllOk, TokenOf, M.Free, M.Inv, HandedBack;
    TokenIs(s, t);
    OkAt(s, id);
    HoldsUnfreed(s, id);
    HandsBack(s.locked, id, s.locked.jobs[id].alloc.value);
  }

  lemma HandsBack(c: Locked, id: JobId, a: nat)
    requires M.Inv(c.ledger) && id in c.jobs && c.jobs[id].alloc == Some(a) && c.freed[a] == 0
    ensures var d := FailJob(c, id); d.freed[a] == 1 && HandedBack(c.ledger, c.freed, d.ledger, d.freed, Some(a))
  {
    hide M.Inv, M.Free;
    FreeHandsBack(c.ledger, a);
  }

  lemma HoldsUnfreed(s: State, id: JobId)
    requires Inv(s) && id in s.locked.jobs && s.locked.jobs[id].alloc.Some?
    ensures s.locked.freed[s.locked.jobs[id].alloc.value] == 0 && M.Inv(s.locked.ledger)
  {
    hide OneToken, AllOk, M.Inv;
    var a := s.locked.jobs[id].alloc.value;
    assert Claims(s, ByJob(id), a);
    assert Outstanding(s, a);
  }

  // ---- A discarded dispatch entry ----

  /** The queue discarded the job's dispatch entry, and the job still stands as this live record. */
  predicate Stranded(v: Local, j: Job) { v.dropped && v.job == Some(j) && !j.state.Terminal() }

  lemma StrandedFacts(v: Local, j: Job)
    requires Ok(v) && Stranded(v, j)
    ensures v.token.None? && v.view == Nowhere && j.alloc.Some? && j.state in {Matched, Dispatching}
  {}

  /** No worker comes back to a stranded job. */
  lemma WorkerStranded(s: State, step: Step, id: JobId, j: Job)
    requires OneToken(s) && AllOk(s) && Enabled(s, step) && WorkerStep(step) && Stranded(LocalOf(s, id), j)
    ensures Stranded(LocalOf(Do(s, step), id), j)
  {
    hide OneToken, AllOk, TokenOf, Do, Enabled, Ok, Stranded;
    WorkerKept(s, step);
    TokenIs(s, step.t);
    OkAt(s, id);
    StrandedFacts(LocalOf(s, id), j);
    assert LocalOf(Do(s, step), id) == LocalOf(s, id);
  }

  lemma InsertStranded(s: State, id: JobId, j: Job)
    requires OneToken(s) && AllOk(s) && Enabled(s, SchedInsert) && Stranded(LocalOf(s, id), j)
    ensures Stranded(LocalOf(Do(s, SchedInsert), id), j)
  {
    hide OneToken, AllOk, TokenOf, Do, Ok, Stranded;
    InsertStep(s);
    OkAt(s, id);
    StrandedFacts(LocalOf(s, id), j);
    assert LocalOf(Do(s, SchedInsert), id) == LocalOf(s, id);
  }

  lemma OtherStranded(s: State, step: Step, id: JobId, j: Job)
    requires AllOk(s) && Enabled(s, step) && !WorkerStep(step) && !step.SchedInsert?
    requires Stranded(LocalOf(s, id), j) && step != CancelFinish(id)
    ensures Stranded(LocalOf(Do(s, step), id), j)
  {
    hide AllOk, TokenOf, M.Free, M.Allocate, M.Apply;
    OkAt(s, id);
  }

  /** How that happens: a transient failure after which the queue does not try the entry again. */
  lemma DiscardDrops(s: State, t: nat, id: JobId)
    requires Inv(s) && At(s, t, Dispatch, Calling) && s.tokens[t].job == id && Live(s.locked, id)
    ensures Enabled(s, DispatchEnd(t, Transient, false))
    ensures Stranded(LocalOf(Do(s, DispatchEnd(t, Transient, false)), id), s.locked.jobs[id])
  {
    hide TokenOf, Ok;
  }

  /** Every enabled step but its own cancellation leaves a stranded job's record as it is. */
  lemma StrandedStep(s: State, step: Step, id: JobId, j: Job)
    requires OneToken(s) && AllOk(s) && Enabled(s, step)
    requires Stranded(LocalOf(s, id), j) && step != CancelFinish(id)
    ensures Stranded(LocalOf(Do(s, step), id), j)
  {
    hide OneToken, AllOk, Do, Enabled, LocalOf, Stranded;
    if WorkerStep(step) {
      WorkerStranded(s, step, id, j);
    } else if step.SchedInsert? {
      InsertStranded(s, id, j);
    } else {
      OtherStranded(s, step, id, j);
    }
  }

  /** Over whole runs: a live job whose dispatch entry was discarded keeps its record, and with it its
      allocation, until a cancellation of this very job, whatever everybody else does. */
  lemma {:induction false} DiscardStrands(states: seq<State>, steps: seq<Step>, i: nat, k: nat, id: JobId)
    requires IsRun(states, steps) && i <= k < |states|
    requires id in states[i].dropped && Live(states[i].locked, id)
    requires forall n :: i <= n < k ==> steps[n] != CancelFinish(id)
    ensures var j := states[i].locked.jobs[id];
      && j.state in {Matched, Dispatching} && j.alloc.Some?
      && id in states[k].dropped && id in states[k].locked.jobs && states[k].locked.jobs[id] == j
      && states[k].locked.freed[j.alloc.value] == 0
    decreases k
  {
    hide OneToken, AllOk, Owned, Do, Enabled, Ok, TokenOf;
    var j := states[i].locked.jobs[id];
    RunInv(states, steps, i);
    RunInv(states, steps, k);
    OkAt(states[i], id);
    StrandedFacts(LocalOf(states[i], id), j);
    if i < k {
      DiscardStrands(states, steps, i, k - 1, id);
      RunInv(states, steps, k - 1);
      assert Enabled(states[k - 1], steps[k - 1]) && states[k - 1 + 1] == Do(states[k - 1], steps[k - 1]);
      StrandedStep(states[k - 1], steps[k - 1], id, j);
    }
    HoldsUnfreed(states[k], id);
  }

  /** The nodes stay taken as well: only a change of the fleet can take a live record away. */
  lemma {:induction false} DiscardHoldsNodes(states: seq<State>, steps: seq<Step>, i: nat, k: nat, id: JobId, a: nat)
    requires IsRun(states, steps) && i <= k < |states|
    requires id in states[i].dropped && Live(states[i].locked, id) && states[i].locked.jobs[id].alloc == Some(a)
    requires forall n :: i <= n < k ==> steps[n] != CancelFinish(id) && !steps[n].FleetChange?
    requires a in states[i].locked.ledger.live
    ensures a in states[k].locked.ledger.live
    ensures states[k].locked.ledger.live[a] == states[i].locked.ledger.live[a]
    decreases k
  {
    hide OneToken, AllOk, Owned, Do, Enabled;
    if i < k {
      DiscardHoldsNodes(states, steps, i, k - 1, id, a);
      DiscardStrands(states, steps, i, k - 1, id);
      RunInv(states, steps, k - 1);
      assert Enabled(states[k - 1], steps[k - 1]) && states[k - 1 + 1] == Do(states[k - 1], steps[k - 1]);
      HeldStays(states[k - 1], steps[k - 1], id, a);
    }
  }

  /** A step that writes no record of this job releases nothing the job names. */
  lemma HeldStays(s: State, step: Step, id: JobId, a: nat)
    requires Inv(s) && Enabled(s, step) && !step.FleetChange? && step != CancelFinish(id)
    requires id in s.dropped && Live(s.locked, id) && s.locked.jobs[id].alloc == Some(a)
    requires a in s.locked.ledger.live
    ensures var l := Do(s, step).locked.ledger; a in l.live && l.live[a] == s.locked.ledger.live[a]
  {
    hide OneToken, AllOk, Owned, Do, Enabled, Writes;
    if WorkerStep(step) {
      StrandedNotIts(s, step, id);
      var x := WorkerWrites(s, step);
      WriteHolds(s, Do(s, step).locked, x, id, a);
    } else if step.CancelFinish? {
      SectionsWrite(s.locked, step.id, "", Running);
      CancelIs(s, step.id);
      WriteHolds(s, Do(s, step).locked, step.id, id, a);
    } else {
      SchedulerHolds(s, step, a);
    }
  }

  lemma StrandedNotIts(s: State, step: Step, id: JobId)
    requires OneToken(s) && AllOk(s) && Enabled(s, step) && WorkerStep(step)
    requires id in s.dropped && Live(s.locked, id)
    ensures step.t in s.tokens && s.tokens[step.t].job != id
  {
    hide OneToken, AllOk, TokenOf;
    TokenIs(s, step.t);
    OkAt(s, id);
  }

  lemma WorkerWrites(s: State, step: Step) returns (x: JobId)
    requires Enabled(s, step) && WorkerStep(step)
    ensures step.t in s.tokens && x == s.tokens[step.t].job && Writes(s.locked, Do(s, step).locked, x)
  {
    hide Writes, AfterDispatch, AfterRepair, RecordStatus, FinishReschedule, EnterDispatch;
    x := s.tokens[step.t].job;
    var c := s.locked;
    WritesNothing(c, x);
    match step {
      case DispatchEnd(t, o, kept) => OutcomesWrite(c, x, o, 0);
      case RepairEnd(t, o) => OutcomesWrite(c, x, o, s.tokens[t].attempt);
      case MonitorEnd(t, st) => SectionsWrite(c, x, "", if st.Some? then st.value else Running);
      case _ => SectionsWrite(c, x, "", Running);
    }
  }

  lemma CancelIs(s: State, x: JobId)
    requires Enabled(s, CancelFinish(x))
    ensures Do(s, CancelFinish(x)).locked == FailJob(s.locked, x)
  {
    hide FailJob;
  }

  /** A write of another record keeps the allocation this one names. */
  lemma WriteHolds(s: State, d: Locked, x: JobId, id: JobId, a: nat)
    requires Owned(s) && Writes(s.locked, d, x) && x != id
    requires id in s.locked.jobs && s.locked.jobs[id].alloc == Some(a) && a in s.locked.ledger.live
    ensures a in d.ledger.live && d.ledger.live[a] == s.locked.ledger.live[a]
  {
    hide LedgerOk, NoLeak, FreedOnce, ClaimsOutstanding;
    assert Claims(s, ByJob(id), a);
    assert !Claims(s, ByJob(x), a);
  }

  lemma SchedulerHolds(s: State, step: Step, a: nat)
    requires Owned(s) && Enabled(s, step) && a in s.locked.ledger.live
    requires !WorkerStep(step) && !step.CancelFinish? && !step.FleetChange?
    ensures var l := Do(s, step).locked.ledger; a in l.live && l.live[a] == s.locked.ledger.live[a]
  {
    hide M.FittingNodes, NoLeak, FreedOnce, ClaimsOutstanding, OneOwner;
    MintedBelow(s.locked.ledger, a);
    hide M.Inv;
  }

  lemma MintedBelow(l: M.Ledger, a: nat)
    requires M.Inv(l) && a in l.live
    ensures a <= l.next
  {}

  const JOB := "job-0001"

  const SATISFY_ONLY: M.Cluster := M.AnyCluster("c", false, false, map[], map[])

  function Fresh(spec: Spec): Job { Job(Submitted, None, "", "", 0, spec) }

  /** One submitted job the scheduler is looking at, and one satisfy-only cluster. */
  function Looked(spec: Spec): State {
    State(Locked(map[JOB := Fresh(spec)],
                 M.Ledger(map["c" := SATISFY_ONLY], ["c"], map["c" := {}], map[], 0), multiset{}),
          map[], 0, Looking(JOB, Fresh(spec)), multiset{}, {}, map[])
  }

  lemma LookedReachable(spec: Spec)
    ensures Reaches(Looked(spec))
  {
    hide Reaches;
    ReachInit();
    var s1 := Do(INIT, FleetChange(M.OpAdd(SATISFY_ONLY)));
    ReachStep(INIT, FleetChange(M.OpAdd(SATISFY_ONLY)));
    var s2 := Do(s1, Submit(JOB, spec));
    ReachStep(s1, Submit(JOB, spec));
    var s3 := Do(s2, SchedGet(JOB));
    ReachStep(s2, SchedGet(JOB));
    assert s3 == Looked(spec);
  }

  /** The same fleet and job at later points of its first placement. */
  function Later(spec: Spec, job: Job, tokens: map<nat, Token>, next: nat, sched: Scheduler, placed: nat): State {
    State(Locked(map[JOB := job], M.Ledger(map["c" := SATISFY_ONLY], ["c"], map["c" := {}], map[], 1), multiset{}),
          tokens, next, sched, multiset{}, {}, if placed == 0 then map[] else map[JOB := Work(placed, 0, 0)])
  }

  function Given(spec: Spec): Job { Job(Matched, Some(1), "c", "", 0, spec) }

  lemma PlacedReachable(spec: Spec)
    ensures Reaches(Later(spec, Fresh(spec), map[], 0, Placing(JOB, Fresh(spec), 1, "c"), 0))
  {
    hide Reaches, M.FittingNodes;
    LookedReachable(spec);
    ReachStep(Looked(spec), SchedAllocate("c"));
    assert DoAllocate(Looked(spec), "c") == Later(spec, Fresh(spec), map[], 0, Placing(JOB, Fresh(spec), 1, "c"), 0);
  }

  lemma UpdatedReachable(spec: Spec)
    ensures Reaches(Later(spec, Given(spec), map[], 0, Inserting(JOB), 1))
  {
    hide Reaches;
    PlacedReachable(spec);
    var s := Later(spec, Fresh(spec), map[], 0, Placing(JOB, Fresh(spec), 1, "c"), 0);
    ReachStep(s, SchedUpdate);
    assert DoUpdate(s) == Later(spec, Given(spec), map[], 0, Inserting(JOB), 1);
  }

  lemma InsertedReachable(spec: Spec)
    ensures Reaches(Later(spec, Given(spec), map[0 := Token(JOB, Dispatch, Queued, 1)], 1, Idle, 1))
  {
    hide Reaches;
    UpdatedReachable(spec);
    var s := Later(spec, Given(spec), map[], 0, Inserting(JOB), 1);
    ReachStep(s, SchedInsert);
    assert DoInsert(s) == Later(spec, Given(spec), map[0 := Token(JOB, Dispatch, Queued, 1)], 1, Idle, 1);
  }

  /** Such a situation is reachable: one job, one satisfy-only cluster, one attempt in flight. */
  lemma GapIsReachable(spec: Spec)
    ensures var s := Later(spec, Given(spec).(state := Dispatching), map[0 := Token(JOB, Dispatch, Calling, 1)], 1,
        Idle, 1);
      Reaches(s) && At(s, 0, Dispatch, Calling) && Live(s.locked, JOB) && s.cancels[JOB] == 0
  {
    hide Reaches;
    InsertedReachable(spec);
    var s := Later(spec, Given(spec), map[0 := Token(JOB, Dispatch, Queued, 1)], 1, Idle, 1);
    ReachStep(s, DispatchBegin(0));
    assert DoDispatchBegin(s, 0)
        == Later(spec, Given(spec).(state := Dispatching), map[0 := Token(JOB, Dispatch, Calling, 1)], 1, Idle, 1);
  }

  /** Why the scheduler's Update must not fall inside a locked section: if a canceller reads the
      record, the scheduler then writes it with its fresh allocation, and the canceller writes its
      own stale copy back, that allocation is outstanding and nobody names it. */
  lemma UpdateInsideSectionLeaks(s: State)
    requires Inv(s) && s.sched.Placing? && s.sched.id in s.locked.jobs
    ensures var read := s.locked.jobs[s.sched.id];
      var updated := DoUpdate(s);
      var overwritten := updated.(locked := updated.locked.Put(s.sched.id, read.(state := Failed)));
      Outstanding(overwritten, s.sched.alloc) && !exists o :: Claims(overwritten, o, s.sched.alloc)
  {
    hide OneToken, LedgerOk, TokenOf;
    var a, id := s.sched.alloc, s.sched.id;
    assert Claims(s, ByScheduler, a);
    assert Ok(LocalOf(s, id));
    var updated := DoUpdate(s);
    var overwritten := updated.(locked := updated.locked.Put(id, s.locked.jobs[id].(state := Failed)));
    forall o ensures !Claims(overwritten, o, a) {
      if o.ByJob? && o.id != id { assert Claims(overwritten, o, a) ==> Claims(s, o, a); }
    }
  }
}
