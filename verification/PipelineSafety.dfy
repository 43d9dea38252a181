/** Safety of every run of the staged pipeline. The invariant has a local part, about one
    job's record, stage entry, scheduler copy and history, and a global part about who owns
    which allocation. */
module PipelineSafety {
  import opened Jobspec
  import opened Graphs
  import opened CriticalSections
  import opened Pipeline
  import M = Matcher

  // ---- The local part ----

  datatype View = Nowhere | Copy(copy: Job) | Insertion

  /** Everything the protocol says about one job id. */
  datatype Local = Local(job: Option<Job>, token: Option<Token>, view: View, dropped: bool, work: Work)

  ghost predicate HasToken(s: State, id: JobId, t: nat) { t in s.tokens && s.tokens[t].job == id }

  ghost function TokenOf(s: State, id: JobId): Option<Token> {
    if t :| HasToken(s, id, t) then Some(s.tokens[t]) else None
  }

  function ViewOf(sched: Scheduler, id: JobId): View {
    match sched
    case Idle => Nowhere
    case Looking(x, c) => if x == id then Copy(c) else Nowhere
    case Noting(cs) => if id in cs then Copy(cs[id]) else Nowhere
    case Placing(x, c, _, _) => if x == id then Copy(c) else Nowhere
    case Inserting(x) => if x == id then Insertion else Nowhere
  }

  function JobOf(s: State, id: JobId): Option<Job> {
    if id in s.locked.jobs then Some(s.locked.jobs[id]) else None
  }

  ghost function LocalOf(s: State, id: JobId): Local {
    Local(JobOf(s, id), TokenOf(s, id), ViewOf(s.sched, id), id in s.dropped, WorkOf(s, id))
  }

  /** At most one stage entry per job, and entry numbers are fresh. */
  ghost predicate OneToken(s: State) {
    && (forall t, u :: t in s.tokens && u in s.tokens && s.tokens[t].job == s.tokens[u].job ==> t == u)
    && (forall t :: t in s.tokens ==> t < s.nextToken)
  }

  predicate ForMonitor(k: Token) { k.stage == Monitor || k.phase == Passing(Monitor) }

  predicate TokenOk(k: Token, w: Work) {
    match k.stage
    case Dispatch =>
      (match k.phase
       case Queued => w.dispatches + 1 <= w.placed && w.repairs <= 3 * w.dispatches
       case Calling => w.dispatches + 1 <= w.placed && w.repairs <= 3 * w.dispatches
       case Cancelling => true
       case Passing(next) => next == Monitor || (next == Repair && w.repairs + 3 <= 3 * w.dispatches))
    case Repair =>
      && 1 <= k.attempt <= REPAIR_MAX_ATTEMPTS
      && (match k.phase
          case Queued => w.repairs + 3 <= 3 * w.dispatches + (k.attempt - 1)
          case Calling => w.repairs + 3 <= 3 * w.dispatches + k.attempt
          case Cancelling => true
          case Passing(next) => next == Monitor)
    case Monitor => k.phase == Queued || k.phase == Calling || k.phase == Passing(Monitor)
  }

  predicate CopyOk(v: Local, c: Job) {
    && v.job.Some? && c.state == Submitted && Unassigned(c)
    && (v.job.value == c || v.job.value == c.(state := Failed))
    && v.token.None? && !v.dropped && v.work.placed <= c.reschedules
  }

  /** Names no allocation, no cluster and no remote job. */
  predicate Unassigned(j: Job) { j.alloc == None && j.cluster == "" && j.handle == "" }

  /** What holds of every job at every step. */
  predicate Ok(v: Local) {
    match v.job
    case None => v.token.None? && v.view == Nowhere && !v.dropped && v.work == Work(0, 0, 0)
    case Some(j) =>
      && (j.state == Submitted
          ==> Unassigned(j) && v.token.None? && v.view != Insertion && !v.dropped && v.work.placed <= j.reschedules)
      && (j.state.Terminal() ==> j.alloc == None)
      && (j.state == Running ==> v.token.Some? && ForMonitor(v.token.value))
      && (j.state == Matched || j.state == Dispatching
          ==> j.alloc.Some? && (v.token.Some? || v.view == Insertion || v.dropped))
      && j.reschedules <= MAX_RESCHEDULES
      && v.work.placed <= j.reschedules + 1
      && v.work.dispatches <= v.work.placed
      && v.work.repairs <= 3 * v.work.dispatches
      && (v.view.Copy? ==> CopyOk(v, v.view.copy))
      && (v.view == Insertion ==>
            && v.token.None? && !v.dropped && v.work.dispatches + 1 <= v.work.placed
            && (j.state == Matched || j.state == Failed))
      && (v.token.Some? ==> TokenOk(v.token.value, v.work) && !v.dropped)
  }

  /** A step that concerns one job only. */
  ghost predicate OnlyAbout(s: State, n: State, id: JobId) {
    forall x :: x != id ==> LocalOf(n, x) == LocalOf(s, x)
  }

  // ---- Stage entries ----

  lemma TokenIs(s: State, t: nat)
    requires OneToken(s) && t in s.tokens
    ensures TokenOf(s, s.tokens[t].job) == Some(s.tokens[t])
  {
    assert HasToken(s, s.tokens[t].job, t);
  }

  lemma NoTokenIs(s: State, id: JobId)
    requires forall t :: !HasToken(s, id, t)
    ensures TokenOf(s, id) == None
  {}

  /** Two states with the same entries for a job agree on its entry. */
  lemma SameToken(s: State, n: State, id: JobId)
    requires OneToken(s)
    requires forall t :: HasToken(s, id, t) <==> HasToken(n, id, t)
    requires forall t :: HasToken(s, id, t) ==> t in n.tokens && n.tokens[t] == s.tokens[t]
    ensures TokenOf(n, id) == TokenOf(s, id)
  {
    if t :| HasToken(s, id, t) {
      assert HasToken(n, id, t);
    }
  }

  lemma TokenSet(s: State, n: State, t: nat, k: Token)
    requires OneToken(s) && t in s.tokens && k.job == s.tokens[t].job
    requires n.tokens == s.tokens[t := k] && n.nextToken == s.nextToken
    ensures OneToken(n) && TokenOf(n, k.job) == Some(k)
    ensures forall x :: x != k.job ==> TokenOf(n, x) == TokenOf(s, x)
  {
    TokenIs(n, t);
    forall x | x != k.job ensures TokenOf(n, x) == TokenOf(s, x) { SameToken(s, n, x); }
  }

  lemma TokenDropped(s: State, n: State, t: nat)
    requires OneToken(s) && t in s.tokens
    requires n.tokens == s.tokens - {t} && n.nextToken == s.nextToken
    ensures OneToken(n) && TokenOf(n, s.tokens[t].job) == None
    ensures forall x :: x != s.tokens[t].job ==> TokenOf(n, x) == TokenOf(s, x)
  {
    NoTokenIs(n, s.tokens[t].job);
    forall x | x != s.tokens[t].job ensures TokenOf(n, x) == TokenOf(s, x) { SameToken(s, n, x); }
  }

  lemma TokenAdded(s: State, n: State, k: Token)
    requires OneToken(s) && TokenOf(s, k.job) == None
    requires n.tokens == s.tokens[s.nextToken := k] && n.nextToken == s.nextToken + 1
    ensures OneToken(n) && TokenOf(n, k.job) == Some(k)
    ensures forall x :: x != k.job ==> TokenOf(n, x) == TokenOf(s, x)
  {
    forall t ensures !HasToken(s, k.job, t) {
      if HasToken(s, k.job, t) { TokenIs(s, t); }
    }
    forall t, u | t in n.tokens && u in n.tokens && n.tokens[t].job == n.tokens[u].job ensures t == u {
      assert !HasToken(s, k.job, t) && !HasToken(s, k.job, u);
    }
    TokenIs(n, s.nextToken);
    forall x | x != k.job ensures TokenOf(n, x) == TokenOf(s, x) { SameToken(s, n, x); }
  }

  lemma TokensKept(s: State, n: State)
    requires OneToken(s) && n.tokens == s.tokens && n.nextToken == s.nextToken
    ensures OneToken(n) && forall x :: TokenOf(n, x) == TokenOf(s, x)
  {
    forall x ensures TokenOf(n, x) == TokenOf(s, x) { SameToken(s, n, x); }
  }

  // ---- Each step keeps the local part ----

  ghost predicate AllOk(s: State) { forall x :: Ok(LocalOf(s, x)) }

  /** The local part after one step: the affected job is fine and all others are as they were. */
  ghost predicate Kept(s: State, n: State, id: JobId) {
    OneToken(n) && OnlyAbout(s, n, id) && Ok(LocalOf(n, id))
  }

  lemma KeptAllOk(s: State, n: State, id: JobId)
    requires AllOk(s) && Kept(s, n, id)
    ensures AllOk(n) && OneToken(n)
  {
    hide Ok, LocalOf;
    forall x ensures Ok(LocalOf(n, x)) {
      if x != id { assert LocalOf(n, x) == LocalOf(s, x); }
    }
  }

  lemma GetStep(s: State, id: JobId)
    requires OneToken(s) && AllOk(s) && Enabled(s, SchedGet(id))
    ensures Kept(s, Do(s, SchedGet(id)), id)
  {
    hide TokenOf;
    assert Ok(LocalOf(s, id));
    TokensKept(s, Do(s, SchedGet(id)));
  }

  lemma NoteStep(s: State, id: JobId)
    requires OneToken(s) && AllOk(s) && Enabled(s, SchedNote(id))
    ensures Kept(s, Do(s, SchedNote(id)), id)
  {
    hide TokenOf;
    assert Ok(LocalOf(s, id));
    TokensKept(s, Do(s, SchedNote(id)));
  }

  lemma InfeasibleStep(s: State)
    requires OneToken(s) && AllOk(s) && Enabled(s, SchedInfeasible)
    ensures Kept(s, Do(s, SchedInfeasible), s.sched.id)
  {
    hide TokenOf;
    assert Ok(LocalOf(s, s.sched.id));
    TokensKept(s, Do(s, SchedInfeasible));
  }

  lemma AllocateStep(s: State, cluster: string)
    requires OneToken(s) && AllOk(s) && Enabled(s, SchedAllocate(cluster))
    ensures Kept(s, Do(s, SchedAllocate(cluster)), s.sched.id)
  {
    hide TokenOf, M.Allocate;
    assert Ok(LocalOf(s, s.sched.id));
    TokensKept(s, Do(s, SchedAllocate(cluster)));
  }

  lemma UpdateStep(s: State)
    requires OneToken(s) && AllOk(s) && Enabled(s, SchedUpdate)
    ensures Kept(s, Do(s, SchedUpdate), s.sched.id)
  {
    hide TokenOf;
    assert Ok(LocalOf(s, s.sched.id));
    TokensKept(s, Do(s, SchedUpdate));
  }

  lemma InsertStep(s: State)
    requires OneToken(s) && AllOk(s) && Enabled(s, SchedInsert)
    ensures Kept(s, Do(s, SchedInsert), s.sched.id)
  {
    hide TokenOf;
    var id, n := s.sched.id, Do(s, SchedInsert);
    assert Ok(LocalOf(s, id));
    TokenAdded(s, n, Token(id, Dispatch, Queued, 1));
  }

  lemma SnapshotStep(s: State)
    requires OneToken(s) && AllOk(s) && Enabled(s, SchedSnapshot)
    ensures AllOk(Do(s, SchedSnapshot)) && OneToken(Do(s, SchedSnapshot))
  {
    hide TokenOf;
    var n := Do(s, SchedSnapshot);
    TokensKept(s, n);
    forall x ensures Ok(LocalOf(n, x)) { assert Ok(LocalOf(s, x)); }
  }

  lemma ReleaseStep(s: State)
    requires OneToken(s) && AllOk(s) && Enabled(s, SchedRelease)
    ensures AllOk(Do(s, SchedRelease)) && OneToken(Do(s, SchedRelease))
  {
    hide TokenOf;
    var n := Do(s, SchedRelease);
    TokensKept(s, n);
    forall x ensures Ok(LocalOf(n, x)) { assert Ok(LocalOf(s, x)); }
  }

  lemma SubmitStep(s: State, id: JobId, spec: Spec)
    requires OneToken(s) && AllOk(s) && Enabled(s, Submit(id, spec))
    ensures Kept(s, Do(s, Submit(id, spec)), id)
  {
    hide TokenOf;
    assert Ok(LocalOf(s, id));
    TokensKept(s, Do(s, Submit(id, spec)));
  }

  lemma CancelBeginStep(s: State, id: JobId)
    requires OneToken(s) && AllOk(s) && Enabled(s, CancelBegin(id))
    ensures Kept(s, Do(s, CancelBegin(id)), id)
  {
    hide TokenOf;
    assert Ok(LocalOf(s, id));
    TokensKept(s, Do(s, CancelBegin(id)));
  }

  lemma CancelFinishOthers(s: State, id: JobId)
    requires OneToken(s) && Enabled(s, CancelFinish(id))
    ensures OnlyAbout(s, s.(cancels := s.cancels - multiset{id}, locked := FailJob(s.locked, id)), id)
  {
    hide TokenOf, M.Free;
    TokensKept(s, s.(cancels := s.cancels - multiset{id}, locked := FailJob(s.locked, id)));
  }

  lemma CancelFinishStep(s: State, id: JobId)
    requires OneToken(s) && AllOk(s) && Enabled(s, CancelFinish(id))
    ensures Kept(s, Do(s, CancelFinish(id)), id)
  {
    hide TokenOf, M.Free, OnlyAbout;
    assert Ok(LocalOf(s, id));
    CancelFinishOthers(s, id);
    TokensKept(s, Do(s, CancelFinish(id)));
  }

  lemma FleetStep(s: State, op: M.Op)
    requires OneToken(s) && AllOk(s) && Enabled(s, FleetChange(op))
    ensures AllOk(Do(s, FleetChange(op))) && OneToken(Do(s, FleetChange(op)))
  {
    hide TokenOf, M.Apply;
    var n := Do(s, FleetChange(op));
    TokensKept(s, n);
    forall x ensures Ok(LocalOf(n, x)) { assert Ok(LocalOf(s, x)) && LocalOf(n, x) == LocalOf(s, x); }
  }

  /** What routing a stage entry does to the entries. */
  lemma RoutedTokens(s: State, n: State, t: nat, r: Route)
    requires OneToken(s) && t in s.tokens
    requires n.tokens == Routed(s, t, r).tokens && n.nextToken == s.nextToken
    ensures OneToken(n)
    ensures forall x :: x != s.tokens[t].job ==> TokenOf(n, x) == TokenOf(s, x)
    ensures var k := s.tokens[t];
      TokenOf(n, k.job) == match r
        case Stop => None
        case Enqueue(next) => Some(k.(phase := Passing(next)))
        case Retry => Some(k.(phase := Queued, attempt := k.attempt + 1))
        case Reschedule => Some(k.(phase := Cancelling))
  {
    hide TokenOf;
    var k := s.tokens[t];
    match r
    case Stop => TokenDropped(s, n, t);
    case Enqueue(next) => TokenSet(s, n, t, k.(phase := Passing(next)));
    case Retry => TokenSet(s, n, t, k.(phase := Queued, attempt := k.attempt + 1));
    case Reschedule => TokenSet(s, n, t, k.(phase := Cancelling));
  }

  lemma DispatchBeginStep(s: State, t: nat)
    requires OneToken(s) && AllOk(s) && Enabled(s, DispatchBegin(t))
    ensures Kept(s, Do(s, DispatchBegin(t)), s.tokens[t].job)
  {
    hide TokenOf;
    var id, n := s.tokens[t].job, Do(s, DispatchBegin(t));
    assert Ok(LocalOf(s, id));
    TokenIs(s, t);
    if Live(s.locked, id) {
      TokenSet(s, n, t, s.tokens[t].(phase := Calling));
    } else {
      TokenDropped(s, n, t);
    }
  }

  /** The locked section of a stage worker touches one record. */
  lemma SectionsTouchOne(c: Locked, id: JobId, o: AttemptOutcome, attempt: nat)
    ensures forall x :: x != id ==> (x in AfterDispatch(c, id, o).0.jobs <==> x in c.jobs)
    ensures forall x :: x != id && x in c.jobs ==> AfterDispatch(c, id, o).0.jobs[x] == c.jobs[x]
    ensures forall x :: x != id ==> (x in AfterRepair(c, id, o, attempt).0.jobs <==> x in c.jobs)
    ensures forall x :: x != id && x in c.jobs ==> AfterRepair(c, id, o, attempt).0.jobs[x] == c.jobs[x]
  {
    hide M.Free;
  }

  lemma DispatchEndTokens(s: State, t: nat, o: AttemptOutcome, kept: bool)
    requires OneToken(s) && Enabled(s, DispatchEnd(t, o, kept))
    ensures var n, k, r := DoDispatchEnd(s, t, o, kept), s.tokens[t], AfterDispatch(s.locked, s.tokens[t].job, o).1;
      && OneToken(n)
      && (forall x :: x != k.job ==> TokenOf(n, x) == TokenOf(s, x))
      && TokenOf(n, k.job) == match r
           case Stop => None
           case Enqueue(next) => Some(k.(phase := Passing(next)))
           case Retry => if kept then Some(k.(phase := Queued, attempt := k.attempt + 1)) else None
           case Reschedule => Some(k.(phase := Cancelling))
  {
    hide TokenOf, AfterDispatch, OneToken;
    var n, r := DoDispatchEnd(s, t, o, kept), AfterDispatch(s.locked, s.tokens[t].job, o).1;
    if r == Retry && !kept {
      TokenDropped(s, n, t);
    } else {
      RoutedTokens(s, n, t, r);
    }
  }

  lemma DispatchEndOthers(s: State, t: nat, o: AttemptOutcome, kept: bool)
    requires OneToken(s) && Enabled(s, DispatchEnd(t, o, kept))
    ensures OnlyAbout(s, DoDispatchEnd(s, t, o, kept), s.tokens[t].job)
  {
    hide TokenOf, AfterDispatch, OneToken;
    DispatchEndTokens(s, t, o, kept);
    SectionsTouchOne(s.locked, s.tokens[t].job, o, 0);
  }

  lemma DispatchEndStep(s: State, t: nat, o: AttemptOutcome, kept: bool)
    requires OneToken(s) && AllOk(s) && Enabled(s, DispatchEnd(t, o, kept))
    ensures Kept(s, Do(s, DispatchEnd(t, o, kept)), s.tokens[t].job)
  {
    hide TokenOf, M.Free, OnlyAbout, OneToken;
    assert Ok(LocalOf(s, s.tokens[t].job));
    TokenIs(s, t);
    DispatchEndTokens(s, t, o, kept);
    DispatchEndOthers(s, t, o, kept);
  }

  lemma RepairBeginStep(s: State, t: nat)
    requires OneToken(s) && AllOk(s) && Enabled(s, RepairBegin(t))
    ensures Kept(s, Do(s, RepairBegin(t)), s.tokens[t].job)
  {
    hide TokenOf;
    var id, n := s.tokens[t].job, Do(s, RepairBegin(t));
    assert Ok(LocalOf(s, id));
    TokenIs(s, t);
    if Live(s.locked, id) {
      TokenSet(s, n, t, s.tokens[t].(phase := Calling));
    } else {
      TokenDropped(s, n, t);
    }
  }

  lemma RepairEndOthers(s: State, t: nat, o: AttemptOutcome)
    requires OneToken(s) && Enabled(s, RepairEnd(t, o))
    ensures OnlyAbout(s, DoRepairEnd(s, t, o), s.tokens[t].job)
  {
    hide TokenOf, AfterRepair, OneToken;
    RoutedTokens(s, DoRepairEnd(s, t, o), t, AfterRepair(s.locked, s.tokens[t].job, o, s.tokens[t].attempt).1);
    SectionsTouchOne(s.locked, s.tokens[t].job, o, s.tokens[t].attempt);
  }

  lemma RepairEndStep(s: State, t: nat, o: AttemptOutcome)
    requires OneToken(s) && AllOk(s) && Enabled(s, RepairEnd(t, o))
    ensures Kept(s, Do(s, RepairEnd(t, o)), s.tokens[t].job)
  {
    hide TokenOf, M.Free, OnlyAbout, OneToken;
    assert Ok(LocalOf(s, s.tokens[t].job));
    TokenIs(s, t);
    RepairEndOthers(s, t, o);
    RoutedTokens(s, DoRepairEnd(s, t, o), t, AfterRepair(s.locked, s.tokens[t].job, o, s.tokens[t].attempt).1);
  }

  lemma RescheduleEndStep(s: State, t: nat)
    requires OneToken(s) && AllOk(s) && Enabled(s, RescheduleEnd(t))
    ensures Kept(s, Do(s, RescheduleEnd(t)), s.tokens[t].job)
  {
    hide TokenOf, M.Free;
    var id, n := s.tokens[t].job, Do(s, RescheduleEnd(t));
    assert Ok(LocalOf(s, id));
    TokenIs(s, t);
    TokenDropped(s, n, t);
  }

  lemma PassOnStep(s: State, t: nat)
    requires OneToken(s) && AllOk(s) && Enabled(s, PassOn(t))
    ensures Kept(s, Do(s, PassOn(t)), s.tokens[t].job)
  {
    hide TokenOf;
    var k, n := s.tokens[t], Do(s, PassOn(t));
    assert Ok(LocalOf(s, k.job));
    TokenIs(s, t);
    var mid := Drop(s, t);
    TokenDropped(s, mid, t);
    TokenAdded(mid, n, Token(k.job, k.phase.next, Queued, 1));
  }

  lemma MonitorBeginStep(s: State, t: nat)
    requires OneToken(s) && AllOk(s) && Enabled(s, MonitorBegin(t))
    ensures Kept(s, Do(s, MonitorBegin(t)), s.tokens[t].job)
  {
    hide TokenOf;
    var id, n := s.tokens[t].job, Do(s, MonitorBegin(t));
    assert Ok(LocalOf(s, id));
    TokenIs(s, t);
    if !Live(s.locked, id) {
      TokenDropped(s, n, t);
    } else {
      TokenSet(s, n, t, n.tokens[t]);
    }
  }

  lemma MonitorEndStep(s: State, t: nat, st: Option<JobState>)
    requires OneToken(s) && AllOk(s) && Enabled(s, MonitorEnd(t, st))
    ensures Kept(s, Do(s, MonitorEnd(t, st)), s.tokens[t].job)
  {
    hide TokenOf, M.Free;
    var id, n := s.tokens[t].job, Do(s, MonitorEnd(t, st));
    assert Ok(LocalOf(s, id));
    TokenIs(s, t);
    if st.Some? && st.value.Terminal() {
      TokenDropped(s, n, t);
    } else {
      TokenSet(s, n, t, s.tokens[t].(phase := Passing(Monitor)));
    }
  }

  /** Any step keeps every job's local invariant and the one-entry-per-job rule. */
  lemma LocalStep(s: State, step: Step)
    requires OneToken(s) && AllOk(s) && Enabled(s, step)
    ensures OneToken(Do(s, step)) && AllOk(Do(s, step))
  {
    hide OneToken, AllOk, Do, Kept;
    match step
    case Submit(id, spec) => SubmitStep(s, id, spec); KeptAllOk(s, Do(s, step), id);
    case SchedGet(id) => GetStep(s, id); KeptAllOk(s, Do(s, step), id);
    case SchedSnapshot => SnapshotStep(s);
    case SchedNote(id) => NoteStep(s, id); KeptAllOk(s, Do(s, step), id);
    case SchedInfeasible => InfeasibleStep(s); KeptAllOk(s, Do(s, step), s.sched.id);
    case SchedAllocate(cluster) => AllocateStep(s, cluster); KeptAllOk(s, Do(s, step), s.sched.id);
    case SchedUpdate => UpdateStep(s); KeptAllOk(s, Do(s, step), s.sched.id);
    case SchedInsert => InsertStep(s); KeptAllOk(s, Do(s, step), s.sched.id);
    case SchedRelease => ReleaseStep(s);
    case CancelBegin(id) => CancelBeginStep(s, id); KeptAllOk(s, Do(s, step), id);
    case CancelFinish(id) => CancelFinishStep(s, id); KeptAllOk(s, Do(s, step), id);
    case DispatchBegin(t) => DispatchBeginStep(s, t); KeptAllOk(s, Do(s, step), s.tokens[t].job);
    case DispatchEnd(t, o, kept) => DispatchEndStep(s, t, o, kept); KeptAllOk(s, Do(s, step), s.tokens[t].job);
    case RepairBegin(t) => RepairBeginStep(s, t); KeptAllOk(s, Do(s, step), s.tokens[t].job);
    case RepairEnd(t, o) => RepairEndStep(s, t, o); KeptAllOk(s, Do(s, step), s.tokens[t].job);
    case RescheduleEnd(t) => RescheduleEndStep(s, t); KeptAllOk(s, Do(s, step), s.tokens[t].job);
    case PassOn(t) => PassOnStep(s, t); KeptAllOk(s, Do(s, step), s.tokens[t].job);
    case MonitorBegin(t) => MonitorBeginStep(s, t); KeptAllOk(s, Do(s, step), s.tokens[t].job);
    case MonitorEnd(t, st) => MonitorEndStep(s, t, st); KeptAllOk(s, Do(s, step), s.tokens[t].job);
    case FleetChange(op) => FleetStep(s, op);
  }

  // ---- The global part: who owns which allocation ----

  /** An allocation id is named by a queue record or held by the scheduler's current iteration. */
  datatype Owner = ByJob(id: JobId) | ByScheduler

  ghost predicate Claims(s: State, o: Owner, a: nat) {
    match o
    case ByJob(id) => id in s.locked.jobs && s.locked.jobs[id].alloc == Some(a)
    case ByScheduler => s.sched.Placing? && s.sched.alloc == a
  }

  /** Minted and not yet handed back. */
  predicate Outstanding(s: State, a: nat) {
    1 <= a <= s.locked.ledger.next && s.locked.freed[a] == 0
  }

  ghost predicate ClaimsOutstanding(s: State) { forall o, a: nat :: Claims(s, o, a) ==> Outstanding(s, a) }

  ghost predicate OneOwner(s: State) { forall o, p, a: nat :: Claims(s, o, a) && Claims(s, p, a) ==> o == p }

  ghost predicate NoLeak(s: State) { forall a: nat :: Outstanding(s, a) ==> exists o :: Claims(s, o, a) }

  ghost predicate FreedOnce(s: State) {
    forall a: nat :: s.locked.freed[a] <= 1 && (s.locked.freed[a] > 0 ==> 1 <= a <= s.locked.ledger.next)
  }

  /** The matcher's own invariant, and no live record for a freed id. */
  ghost predicate LedgerOk(s: State) {
    M.Inv(s.locked.ledger) && forall a :: a in s.locked.ledger.live ==> s.locked.freed[a] == 0
  }

  ghost predicate Owned(s: State) {
    ClaimsOutstanding(s) && OneOwner(s) && NoLeak(s) && FreedOnce(s) && LedgerOk(s)
  }

  /** Nothing changes hands. */
  lemma SameClaims(s: State, n: State)
    requires Owned(s)
    requires forall o, a: nat :: Claims(n, o, a) <==> Claims(s, o, a)
    requires n.locked.freed == s.locked.freed && n.locked.ledger.next == s.locked.ledger.next
    requires LedgerOk(n)
    ensures Owned(n)
  {
    hide Claims;
    forall a | Outstanding(n, a) ensures exists o :: Claims(n, o, a) {
      assert Outstanding(s, a);
      var o :| Claims(s, o, a);
      assert Claims(n, o, a);
    }
  }

  /** One owner hands its allocation back. */
  lemma ClaimReleased(s: State, n: State, p: Owner, b: nat)
    requires Owned(s) && Claims(s, p, b)
    requires forall o, a: nat :: Claims(n, o, a) <==> Claims(s, o, a) && a != b
    requires n.locked.freed == s.locked.freed + multiset{b}
    requires n.locked.ledger == M.Free(s.locked.ledger, b)
    ensures Owned(n)
  {
    hide Claims, M.Inv;
    FreeFacts(s.locked.ledger, b);
    assert Outstanding(s, b);
    forall a | Outstanding(n, a) ensures exists o :: Claims(n, o, a) {
      assert Outstanding(s, a) && a != b;
      var o :| Claims(s, o, a);
      assert Claims(n, o, a);
    }
    assert FreedOnce(n);
  }

  lemma FreeFacts(l: M.Ledger, a: nat)
    requires M.Inv(l)
    ensures M.Inv(M.Free(l, a)) && M.Free(l, a).next == l.next && M.Free(l, a).live == l.live - {a}
  {
    M.FreeInv(l, a);
  }

  /** The scheduler is placing the same allocation, or none, in both states. */
  ghost predicate SamePlacing(s: State, n: State) {
    n.sched == s.sched || (!s.sched.Placing? && !n.sched.Placing?)
  }

  /** Releasing whatever a record names, and writing the record back without it. */
  lemma RecordReleased(s: State, n: State, id: JobId, j: Job)
    requires Owned(s) && id in s.locked.jobs && j.alloc == None
    requires n.locked == s.locked.Release(s.locked.jobs[id]).Put(id, j)
    requires SamePlacing(s, n)
    ensures Owned(n)
  {
    hide M.Free, OneOwner, NoLeak, FreedOnce, ClaimsOutstanding, LedgerOk;
    var a := s.locked.jobs[id].alloc;
    if a.None? {
      assert LedgerOk(n) by { LedgerSame(s, n); }
      SameClaims(s, n);
    } else {
      assert Claims(s, ByJob(id), a.value);
      forall o, b: nat ensures Claims(n, o, b) <==> Claims(s, o, b) && b != a.value {
        if Claims(s, o, b) && b == a.value { OwnerUnique(s, o, ByJob(id), b); }
      }
      ClaimReleased(s, n, ByJob(id), a.value);
    }
  }

  lemma OwnerUnique(s: State, o: Owner, p: Owner, a: nat)
    requires OneOwner(s) && Claims(s, o, a) && Claims(s, p, a)
    ensures o == p
  {}

  lemma LedgerSame(s: State, n: State)
    requires LedgerOk(s) && n.locked.ledger == s.locked.ledger && n.locked.freed == s.locked.freed
    ensures LedgerOk(n)
  {}

  /** Writing a record that names the same allocation as before. */
  lemma RecordKept(s: State, n: State, id: JobId, j: Job)
    requires Owned(s)
    requires n.locked == s.locked.Put(id, j) && SamePlacing(s, n)
    requires j.alloc == if id in s.locked.jobs then s.locked.jobs[id].alloc else None
    ensures Owned(n)
  {
    hide OneOwner, NoLeak, FreedOnce, ClaimsOutstanding, LedgerOk;
    LedgerSame(s, n);
    SameClaims(s, n);
  }

  /** Changes to anything but the locked state and what the scheduler is placing. */
  lemma LockedKept(s: State, n: State)
    requires Owned(s) && n.locked == s.locked && SamePlacing(s, n)
    ensures Owned(n)
  {
    hide OneOwner, NoLeak, FreedOnce, ClaimsOutstanding, LedgerOk;
    LedgerSame(s, n);
    SameClaims(s, n);
  }

  lemma AllocateFacts(l: M.Ledger, spec: Spec, cluster: string)
    requires M.Inv(l)
    ensures var (m, grant) := M.Allocate(l, spec, cluster);
      && M.Inv(m)
      && (grant.Granted? ==>
            && grant.id == l.next + 1 && m.next == l.next + 1
            && forall a :: a in m.live ==> a in l.live || a == grant.id)
      && (!grant.Granted? ==> m == l)
  {
    hide M.Inv, M.FittingNodes;
    M.AllocateInv(l, spec, cluster);
  }

  lemma AllocateOwned(s: State, cluster: string)
    requires Owned(s) && s.sched.Looking?
    ensures Owned(DoAllocate(s, cluster))
  {
    hide M.Inv, M.Allocate;
    var n := DoAllocate(s, cluster);
    AllocateFacts(s.locked.ledger, s.sched.copy.spec, cluster);
    if n.sched.Placing? {
      var a := n.sched.alloc;
      assert forall o, b: nat :: Claims(n, o, b) <==> Claims(s, o, b) || (o == ByScheduler && b == a);
      NewClaim(s, n, a);
    }
  }

  /** A freshly minted id with the scheduler as its one owner. */
  lemma NewClaim(s: State, n: State, a: nat)
    requires Owned(s) && a == s.locked.ledger.next + 1 && n.locked.ledger.next == a
    requires n.locked.freed == s.locked.freed
    requires forall o, b: nat :: Claims(n, o, b) <==> Claims(s, o, b) || (o == ByScheduler && b == a)
    requires M.Inv(n.locked.ledger) && forall b :: b in n.locked.ledger.live ==> b in s.locked.ledger.live || b == a
    ensures Owned(n)
  {
    hide Claims, M.Inv;
    assert s.locked.freed[a] == 0;
    assert forall o, b: nat :: Claims(s, o, b) ==> b < a by {
      forall o, b: nat | Claims(s, o, b) ensures b < a { assert Outstanding(s, b); }
    }
    forall b | Outstanding(n, b) ensures exists o :: Claims(n, o, b) {
      if b == a {
        assert Claims(n, ByScheduler, a);
      } else {
        assert Outstanding(s, b);
        var o :| Claims(s, o, b);
        assert Claims(n, o, b);
      }
    }
  }

  /** The scheduler's Update moves the allocation from its iteration to the record. */
  lemma UpdateOwned(s: State)
    requires Owned(s) && s.sched.Placing?
    requires s.sched.id in s.locked.jobs ==> s.locked.jobs[s.sched.id].alloc == None
    ensures Owned(DoUpdate(s))
  {
    hide OneOwner, NoLeak, FreedOnce, ClaimsOutstanding, LedgerOk;
    var n, id, a := DoUpdate(s), s.sched.id, s.sched.alloc;
    assert Claims(s, ByScheduler, a);
    LedgerSame(s, n);
    assert forall o, b: nat :: Claims(n, o, b) <==> (o == ByJob(id) && b == a) || (o != ByScheduler && Claims(s, o, b));
    MovedClaim(s, n, id, a);
  }

  lemma MovedClaim(s: State, n: State, id: JobId, a: nat)
    requires Owned(s) && Claims(s, ByScheduler, a)
    requires forall b: nat :: Claims(s, ByScheduler, b) ==> b == a
    requires forall o, b: nat :: Claims(n, o, b) <==>
        (o == ByJob(id) && b == a) || (o != ByScheduler && Claims(s, o, b))
    requires n.locked.freed == s.locked.freed && n.locked.ledger.next == s.locked.ledger.next && LedgerOk(n)
    ensures Owned(n)
  {
    hide Claims, LedgerOk;
    forall b | Outstanding(n, b) ensures exists o :: Claims(n, o, b) {
      if b == a {
        assert Claims(n, ByJob(id), a);
      } else {
        assert Outstanding(s, b);
        var o :| Claims(s, o, b);
        assert Claims(n, o, b);
      }
    }
  }

  lemma FleetOwned(s: State, op: M.Op)
    requires Owned(s) && Enabled(s, FleetChange(op))
    ensures Owned(s.(locked := s.locked.(ledger := M.Apply(s.locked.ledger, op))))
  {
    hide OneOwner, NoLeak, FreedOnce, ClaimsOutstanding, M.Inv;
    var n := s.(locked := s.locked.(ledger := M.Apply(s.locked.ledger, op)));
    M.ApplyInv(s.locked.ledger, op);
    FleetFacts(s.locked.ledger, op);
    assert LedgerOk(n);
    SameClaims(s, n);
  }

  lemma FleetFacts(l: M.Ledger, op: M.Op)
    requires op.Allowed() && !op.OpAllocate? && !op.OpFree?
    ensures M.Apply(l, op).next == l.next
    ensures forall a :: a in M.Apply(l, op).live ==> a in l.live
  {
    hide M.Without;
  }

  /** A locked section writes one record: either naming the allocation it named before, or
      naming none after releasing it. */
  ghost predicate Writes(c: Locked, d: Locked, id: JobId) {
    || d == c
    || (id in d.jobs && d == c.Put(id, d.jobs[id])
        && d.jobs[id].alloc == (if id in c.jobs then c.jobs[id].alloc else None))
    || (id in d.jobs && id in c.jobs && d == c.Release(c.jobs[id]).Put(id, d.jobs[id]) && d.jobs[id].alloc == None)
  }

  lemma WritesOwned(s: State, n: State, id: JobId)
    requires Owned(s) && Writes(s.locked, n.locked, id) && SamePlacing(s, n)
    ensures Owned(n)
  {
    hide Owned, M.Free;
    var c, d := s.locked, n.locked;
    if d == c {
      LockedKept(s, n);
    } else if d == c.Put(id, d.jobs[id]) && d.jobs[id].alloc == (if id in c.jobs then c.jobs[id].alloc else None) {
      RecordKept(s, n, id, d.jobs[id]);
    } else {
      RecordReleased(s, n, id, d.jobs[id]);
    }
  }

  lemma SectionsWrite(c: Locked, id: JobId, h: string, st: JobState)
    ensures Writes(c, FailJob(c, id), id)
    ensures Writes(c, SetRunning(c, id, h), id)
    ensures Writes(c, RecordStatus(c, id, st), id)
    ensures Writes(c, FinishReschedule(c, id), id)
    ensures Live(c, id) ==> Writes(c, EnterDispatch(c, id), id)
  {
    hide M.Free;
  }

  lemma OutcomesWrite(c: Locked, id: JobId, o: AttemptOutcome, attempt: nat)
    ensures Writes(c, AfterDispatch(c, id, o).0, id)
    ensures Writes(c, AfterRepair(c, id, o, attempt).0, id)
  {
    hide M.Free, Writes, FailJob, SetRunning;
    assert Writes(c, c, id) by { WritesNothing(c, id); }
    SectionsWrite(c, id, if o.Success? then o.handle else "", Running);
  }

  lemma WritesNothing(c: Locked, id: JobId)
    ensures Writes(c, c, id)
  {}

  ghost predicate Inv(s: State) { OneToken(s) && AllOk(s) && Owned(s) }

  /** Stage workers: each step's locked write is one of the sections above. */
  lemma WorkerOwned(s: State, step: Step)
    requires Inv(s) && Enabled(s, step)
    requires WorkerStep(step)
    ensures Owned(Do(s, step))
  {
    hide Owned, AllOk, OneToken, Writes, AfterDispatch, AfterRepair, RecordStatus, FinishReschedule, EnterDispatch;
    var id, c := s.tokens[step.t].job, s.locked;
    WritesNothing(c, id);
    match step {
      case DispatchEnd(t, o, kept) => OutcomesWrite(c, id, o, 0);
      case RepairEnd(t, o) => OutcomesWrite(c, id, o, s.tokens[t].attempt);
      case MonitorEnd(t, st) => SectionsWrite(c, id, "", if st.Some? then st.value else Running);
      case _ => SectionsWrite(c, id, "", Running);
    }
    WritesOwned(s, Do(s, step), id);
  }

  lemma SchedulerOwned(s: State, step: Step)
    requires Inv(s) && Enabled(s, step)
    requires SchedulerStep(step)
    ensures Owned(Do(s, step))
  {
    hide Owned, OneToken, TokenOf;
    match step
    case SchedGet(_) => LockedKept(s, Do(s, step));
    case SchedSnapshot => LockedKept(s, Do(s, step));
    case SchedRelease => LockedKept(s, Do(s, step));
    case SchedInsert => LockedKept(s, Do(s, step));
    case SchedNote(id) =>
      assert Ok(LocalOf(s, id));
      RecordKept(s, Do(s, step), id, CopyHeld(s, id).value);
    case SchedInfeasible =>
      assert Ok(LocalOf(s, s.sched.id));
      RecordKept(s, Do(s, step), s.sched.id, s.sched.copy.(state := Failed));
    case SchedUpdate =>
      assert Ok(LocalOf(s, s.sched.id));
      UpdateOwned(s);
  }

  predicate WorkerStep(step: Step) {
    step.DispatchBegin? || step.DispatchEnd? || step.RepairBegin? || step.RepairEnd?
      || step.RescheduleEnd? || step.PassOn? || step.MonitorBegin? || step.MonitorEnd?
  }

  predicate SchedulerStep(step: Step) {
    step.SchedGet? || step.SchedSnapshot? || step.SchedNote? || step.SchedInfeasible? || step.SchedUpdate?
      || step.SchedInsert? || step.SchedRelease?
  }

  lemma OwnedStep(s: State, step: Step)
    requires Inv(s) && Enabled(s, step)
    ensures Owned(Do(s, step))
  {
    if WorkerStep(step) {
      WorkerOwned(s, step);
    } else if SchedulerStep(step) {
      SchedulerOwned(s, step);
    } else {
      OutsideOwned(s, step);
    }
  }

  /** Submissions, placements, cancellations and fleet changes. */
  lemma OutsideOwned(s: State, step: Step)
    requires Inv(s) && Enabled(s, step) && !WorkerStep(step) && !SchedulerStep(step)
    ensures Owned(Do(s, step))
  {
    hide Owned, OneToken, AllOk, DoAllocate, M.Apply;
    if step.Submit? {
      SubmitOwned(s, step.id, step.spec);
    } else if step.SchedAllocate? {
      AllocateOwned(s, step.cluster);
    } else if step.FleetChange? {
      FleetOwned(s, step.op);
    } else {
      CancelOwned(s, step, step.id);
    }
  }

  lemma SubmitOwned(s: State, id: JobId, spec: Spec)
    requires Inv(s) && Enabled(s, Submit(id, spec))
    ensures Owned(Do(s, Submit(id, spec)))
  {
    hide Owned;
    RecordKept(s, Do(s, Submit(id, spec)), id, Job(Submitted, None, "", "", 0, spec));
  }

  lemma CancelOwned(s: State, step: Step, id: JobId)
    requires Inv(s) && Enabled(s, step) && (step == CancelBegin(id) || step == CancelFinish(id))
    ensures Owned(Do(s, step))
  {
    hide Owned, Writes, FailJob;
    WritesNothing(s.locked, id);
    SectionsWrite(s.locked, id, "", Running);
    WritesOwned(s, Do(s, step), id);
  }

  // ---- Whole runs ----

  ghost predicate IsRun(states: seq<State>, steps: seq<Step>) {
    && |states| == |steps| + 1 && states[0] == INIT
    && forall i :: 0 <= i < |steps| ==> Enabled(states[i], steps[i]) && states[i + 1] == Do(states[i], steps[i])
  }

  lemma InitInv()
    ensures Inv(INIT)
  {
    M.EmptyInv();
    forall x ensures Ok(LocalOf(INIT, x)) { NoTokenIs(INIT, x); }
  }

  /** Every state of every interleaving satisfies the invariant. */
  lemma {:induction false} RunInv(states: seq<State>, steps: seq<Step>, i: nat)
    requires IsRun(states, steps) && i < |states|
    ensures Inv(states[i])
  {
    hide OneToken, AllOk, Owned, Do, Enabled;
    if i == 0 {
      InitInv();
    } else {
      RunInv(states, steps, i - 1);
      assert Enabled(states[i - 1], steps[i - 1]) && states[i - 1 + 1] == Do(states[i - 1], steps[i - 1]);
      LocalStep(states[i - 1], steps[i - 1]);
      OwnedStep(states[i - 1], steps[i - 1]);
    }
  }
}
