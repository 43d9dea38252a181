/** What the pipeline invariant means: nothing freed twice, nothing leaked, bounded work,
    an idle fleet once every job is done, and exactly when a terminal state can be rewritten. */
module PipelineTheorems {
  import opened Jobspec
  import opened Graphs
  import opened CriticalSections
  import opened Pipeline
  import opened PipelineSafety
  import M = Matcher

  /** In every reachable state each minted id has been freed at most once; it is unfreed exactly
      while one queue record, or the scheduler's current iteration, names it; and only unfreed ids
      hold nodes. */
  lemma NoDoubleFreeNoLeak(states: seq<State>, steps: seq<Step>, i: nat, a: nat)
    requires IsRun(states, steps) && i < |states|
    ensures states[i].locked.freed[a] <= 1
    ensures 1 <= a <= states[i].locked.ledger.next
        ==> (states[i].locked.freed[a] == 0 <==> exists o :: Claims(states[i], o, a))
    ensures forall o, p :: Claims(states[i], o, a) && Claims(states[i], p, a) ==> o == p
    ensures a in states[i].locked.ledger.live ==> exists o :: Claims(states[i], o, a)
  {
    hide Claims, OneToken, AllOk, M.Inv, IsRun;
    RunInv(states, steps, i);
    var s := states[i];
    if a in s.locked.ledger.live { LiveMinted(s.locked.ledger, a); }
    if 1 <= a <= s.locked.ledger.next && s.locked.freed[a] == 0 { assert Outstanding(s, a); }
    if o :| Claims(s, o, a) { assert Outstanding(s, a); }
  }

  lemma LiveMinted(l: M.Ledger, a: nat)
    requires M.Inv(l) && a in l.live
    ensures 1 <= a <= l.next
  {}

  /** What each locked section asks of the state it finds holds in every reachable state, whatever ran in
      the gap before it. */
  lemma SectionsFindConsistent(states: seq<State>, steps: seq<Step>, i: nat)
    requires IsRun(states, steps) && i < |states|
    ensures Consistent(states[i].locked.jobs, states[i].locked.ledger, states[i].locked.freed)
  {
    hide OneToken, M.Inv, IsRun, TokenOf, NoLeak;
    RunInv(states, steps, i);
    var s := states[i];
    forall id | id in s.locked.jobs && s.locked.jobs[id].alloc.Some?
      ensures Outstanding(s, s.locked.jobs[id].alloc.value) && !s.locked.jobs[id].state.Terminal()
    {
      assert Claims(s, ByJob(id), s.locked.jobs[id].alloc.value);
      assert Ok(LocalOf(s, id));
    }
    forall x, y | x in s.locked.jobs && y in s.locked.jobs && x != y && s.locked.jobs[x].alloc.Some?
      ensures s.locked.jobs[x].alloc != s.locked.jobs[y].alloc
    {
      var a := s.locked.jobs[x].alloc.value;
      assert Claims(s, ByJob(x), a);
      assert !Claims(s, ByJob(y), a);
    }
  }

  /** Every handed-out node belongs to a job that is neither terminal nor waiting to be scheduled,
      unless the scheduler is placing it at this moment. */
  lemma LiveNodesHaveActiveJobs(states: seq<State>, steps: seq<Step>, i: nat, a: nat)
    requires IsRun(states, steps) && i < |states| && a in states[i].locked.ledger.live
    ensures (states[i].sched.Placing? && states[i].sched.alloc == a)
      || exists id :: id in states[i].locked.jobs && states[i].locked.jobs[id].alloc == Some(a)
           && states[i].locked.jobs[id].state in {Matched, Dispatching, Running}
  {
    hide OneToken, Owned, IsRun;
    var s := states[i];
    RunInv(states, steps, i);
    NoDoubleFreeNoLeak(states, steps, i, a);
    var o :| Claims(s, o, a);
    if o.ByJob? { assert Ok(LocalOf(s, o.id)); }
  }

  /** The stage and state rules of every reachable state. */
  lemma StageRules(states: seq<State>, steps: seq<Step>, i: nat, id: JobId)
    requires IsRun(states, steps) && i < |states| && id in states[i].locked.jobs
    ensures var s, j := states[i], states[i].locked.jobs[id];
      && (forall t, u :: HasToken(s, id, t) && HasToken(s, id, u) ==> t == u)
      && (j.state == Submitted ==> Unassigned(j) && forall t :: !HasToken(s, id, t))
      && (j.state.Terminal() ==> j.alloc == None)
      && (j.state == Running ==> exists t :: HasToken(s, id, t) && ForMonitor(s.tokens[t]))
      && (j.state == Matched || j.state == Dispatching ==> j.alloc.Some?)
      && (j.state == Matched || j.state == Dispatching ==>
            (exists t :: HasToken(s, id, t)) || s.sched == Inserting(id) || id in s.dropped)
  {
    hide Owned, IsRun;
    var s := states[i];
    RunInv(states, steps, i);
    assert Ok(LocalOf(s, id));
    if t :| HasToken(s, id, t) { TokenIs(s, t); }
  }

  /** Bounded work: a job is rescheduled at most 3 times, placed at most 4 times, and transient
      retries aside runs at most 4 dispatch and 12 repair attempts. */
  lemma BoundedWork(states: seq<State>, steps: seq<Step>, i: nat, id: JobId)
    requires IsRun(states, steps) && i < |states|
    ensures id in states[i].locked.jobs ==> states[i].locked.jobs[id].reschedules <= 3
    ensures WorkOf(states[i], id).placed <= 4
    ensures WorkOf(states[i], id).dispatches <= 4
    ensures WorkOf(states[i], id).repairs <= 12
  {
    hide Owned, OneToken, TokenOf, IsRun;
    RunInv(states, steps, i);
    assert Ok(LocalOf(states[i], id));
  }

  /** Steps that do work for a job: a placement, a dispatch attempt that ends other than by a
      transient retry, the start of a repair attempt. */
  ghost predicate Productive(s: State, step: Step, id: JobId) {
    Enabled(s, step) && match step
    case SchedUpdate => s.sched.id == id
    case DispatchEnd(t, o, _) => s.tokens[t].job == id && !o.Transient?
    case RepairBegin(t) => s.tokens[t].job == id && Live(s.locked, id)
    case _ => false
  }

  ghost function ProductiveSteps(states: seq<State>, steps: seq<Step>, i: nat, id: JobId): nat
    requires i <= |steps| < |states|
  {
    if i == 0 then 0
    else ProductiveSteps(states, steps, i - 1, id) + if Productive(states[i - 1], steps[i - 1], id) then 1 else 0
  }

  function Total(w: Work): nat { w.placed + w.dispatches + w.repairs }

  predicate Counted(s: State, n: State, id: JobId, productive: bool) {
    Total(WorkOf(n, id)) == Total(WorkOf(s, id)) + if productive then 1 else 0
  }

  lemma RoutedWork(s: State, t: nat, r: Route)
    requires t in s.tokens
    ensures Routed(s, t, r).work == s.work
  {}

  lemma DispatchRoute(c: Locked, id: JobId, o: AttemptOutcome)
    ensures AfterDispatch(c, id, o).1 == Retry <==> o.Transient?
  {
    hide M.Free, FailJob, SetRunning;
  }

  lemma DispatchEndWork(s: State, t: nat, o: AttemptOutcome, kept: bool)
    requires t in s.tokens
    ensures var id := s.tokens[t].job;
      DoDispatchEnd(s, t, o, kept).work == if o.Transient? then s.work
          else s.work[id := WorkOf(s, id).(dispatches := WorkOf(s, id).dispatches + 1)]
  {
    hide AfterDispatch, Routed;
    var id := s.tokens[t].job;
    var (c, r) := AfterDispatch(s.locked, id, o);
    DispatchRoute(s.locked, id, o);
    RoutedWork(s.(locked := c), t, r);
  }

  /** The other steps leave the history alone. */
  lemma WorkerLeavesWork(s: State, step: Step)
    requires Enabled(s, step) && WorkerStep(step) && !step.DispatchEnd? && !step.RepairBegin?
    ensures Do(s, step).work == s.work
  {
    hide M.Free, FailJob, SetRunning, RecordStatus, FinishReschedule, AfterRepair, EnterDispatch, Routed, DoDispatchEnd;
    if step.RepairEnd? {
      var (c, r) := AfterRepair(s.locked, s.tokens[step.t].job, step.outcome, s.tokens[step.t].attempt);
      RoutedWork(s.(locked := c), step.t, r);
    }
  }

  lemma OtherLeavesWork(s: State, step: Step)
    requires Enabled(s, step) && !WorkerStep(step) && !step.SchedUpdate?
    ensures Do(s, step).work == s.work
  {
    hide M.Allocate, M.Apply, FailJob;
  }

  lemma Unproductive(s: State, step: Step, id: JobId)
    requires !step.DispatchEnd? && !step.RepairBegin? && !step.SchedUpdate?
    ensures !Productive(s, step, id)
  {}

  lemma BumpCounted(s: State, n: State, j: JobId, w: Work, id: JobId)
    requires n.work == s.work[j := w]
    ensures Total(w) == Total(WorkOf(s, j)) + 1 ==> Counted(s, n, id, j == id)
  {
    hide Total;
    if j == id { assert WorkOf(n, id) == w; } else { assert WorkOf(n, id) == WorkOf(s, id); }
  }

  lemma SameCounted(s: State, n: State, id: JobId)
    requires n.work == s.work
    ensures Counted(s, n, id, false)
  {}

  lemma DispatchEndCounted(s: State, t: nat, o: AttemptOutcome, kept: bool, id: JobId)
    requires t in s.tokens
    ensures Counted(s, DoDispatchEnd(s, t, o, kept), id, s.tokens[t].job == id && !o.Transient?)
  {
    hide DoDispatchEnd, Counted;
    var j, n := s.tokens[t].job, DoDispatchEnd(s, t, o, kept);
    DispatchEndWork(s, t, o, kept);
    if o.Transient? {
      SameCounted(s, n, id);
    } else {
      BumpCounted(s, n, j, WorkOf(s, j).(dispatches := WorkOf(s, j).dispatches + 1), id);
    }
  }

  lemma RepairBeginCounted(s: State, t: nat, id: JobId)
    requires t in s.tokens
    ensures Counted(s, DoRepairBegin(s, t), id, s.tokens[t].job == id && Live(s.locked, id))
  {
    hide Counted, WorkOf;
    var j, n := s.tokens[t].job, DoRepairBegin(s, t);
    if Live(s.locked, j) {
      BumpCounted(s, n, j, WorkOf(s, j).(repairs := WorkOf(s, j).repairs + 1), id);
    } else {
      SameCounted(s, n, id);
      assert j == id ==> !Live(s.locked, id);
    }
  }

  lemma UpdateCounted(s: State, id: JobId)
    requires s.sched.Placing?
    ensures Counted(s, DoUpdate(s), id, s.sched.id == id)
  {
    hide Counted, WorkOf;
    var j, n := s.sched.id, DoUpdate(s);
    BumpCounted(s, n, j, WorkOf(s, j).(placed := WorkOf(s, j).placed + 1), id);
  }

  lemma ProductiveCounted(s: State, step: Step, id: JobId)
    requires Enabled(s, step)
    ensures Counted(s, Do(s, step), id, Productive(s, step, id))
  {
    hide Counted, DoDispatchEnd, DoRepairBegin, DoUpdate;
    match step {
      case DispatchEnd(t, o, kept) => DispatchEndCounted(s, t, o, kept, id);
      case RepairBegin(t) => RepairBeginCounted(s, t, id);
      case SchedUpdate => UpdateCounted(s, id);
      case _ => OtherCounted(s, step, id);
    }
  }

  lemma OtherCounted(s: State, step: Step, id: JobId)
    requires Enabled(s, step) && !step.DispatchEnd? && !step.RepairBegin? && !step.SchedUpdate?
    ensures Counted(s, Do(s, step), id, Productive(s, step, id))
  {
    hide Do, Enabled, Productive;
    if WorkerStep(step) { WorkerLeavesWork(s, step); } else { OtherLeavesWork(s, step); }
    Unproductive(s, step, id);
  }

  /** Over every run at most 20 productive steps concern any one job. */
  lemma {:induction false} ProductiveBounded(states: seq<State>, steps: seq<Step>, i: nat, id: JobId)
    requires IsRun(states, steps) && i < |states|
    ensures ProductiveSteps(states, steps, i, id) == Total(WorkOf(states[i], id)) <= 20
  {
    hide Do, Enabled, Productive, WorkOf;
    BoundedWork(states, steps, i, id);
    if i > 0 {
      ProductiveBounded(states, steps, i - 1, id);
      assert Enabled(states[i - 1], steps[i - 1]) && states[i - 1 + 1] == Do(states[i - 1], steps[i - 1]);
      ProductiveCounted(states[i - 1], steps[i - 1], id);
    } else {
      NoWorkYet(id);
    }
  }

  lemma NoWorkYet(id: JobId)
    ensures Total(WorkOf(INIT, id)) == 0
  {}

  ghost predicate EveryJobTerminal(s: State) {
    forall id :: id in s.locked.jobs ==> s.locked.jobs[id].state.Terminal()
  }

  /** Conservation: once every job is terminal and the scheduler holds nothing, no node of any
      cluster is taken, and evaluation sees the idle capacity. */
  lemma AllTerminalAllFree(states: seq<State>, steps: seq<Step>, i: nat, cluster: string, spec: Spec)
    requires IsRun(states, steps) && i < |states| && !states[i].sched.Placing?
    requires EveryJobTerminal(states[i])
    requires cluster in states[i].locked.ledger.clusters
    ensures cluster in states[i].locked.ledger.taken && states[i].locked.ledger.taken[cluster] == {}
    ensures M.EvaluateOne(states[i].locked.ledger, cluster, spec).freeNodes
         == |M.FittingNodes(states[i].locked.ledger.clusters[cluster], spec.NeedPerNode(), {})|
  {
    hide IsRun, OneToken, AllOk, M.FittingNodes, Claims;
    var l := states[i].locked.ledger;
    RunInv(states, steps, i);
    if l.live != map[] {
      var a :| a in l.live;
      LiveNodesHaveActiveJobs(states, steps, i, a);
    }
    M.NothingHeldNothingTaken(l, cluster, spec);
  }
}
