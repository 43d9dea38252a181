/** The pieces of the staged pipeline that run under the manager's lock, as functions of
    the queue and the matcher, and the manager object whose methods perform them. */
module CriticalSections {
  import opened Jobspec
  import opened Graphs
  import M = Matcher

  type JobId = string

  datatype JobState = Submitted | Matched | Dispatching | Running | Completed | Failed
  {
    predicate Terminal() { this == Completed || this == Failed }
  }

  /** A queue record. `alloc` is the allocation id ("" is None), `handle` the remote handle. */
  datatype Job = Job(state: JobState, alloc: Option<nat>, cluster: string, handle: string, reschedules: nat, spec: Spec)

  /** What the lock protects, with the history of ids handed to Matcher.Free. */
  datatype Locked = Locked(jobs: map<JobId, Job>, ledger: M.Ledger, freed: multiset<nat>)
  {
    function Put(id: JobId, j: Job): Locked { this.(jobs := jobs[id := j]) }

    /** The matcher half of freeLocked. */
    function Release(j: Job): Locked {
      if j.alloc.None? then this
      else this.(ledger := M.Free(ledger, j.alloc.value), freed := freed + multiset{j.alloc.value})
    }
  }

  const MAX_RESCHEDULES: nat := 3
  const REPAIR_MAX_ATTEMPTS: nat := 3

  predicate Live(c: Locked, id: JobId) { id in c.jobs && !c.jobs[id].state.Terminal() }

  function FailJob(c: Locked, id: JobId): Locked {
    if id in c.jobs then c.Release(c.jobs[id]).Put(id, c.jobs[id].(alloc := None, state := Failed)) else c
  }

  function EnterDispatch(c: Locked, id: JobId): Locked
    requires Live(c, id)
  {
    c.Put(id, c.jobs[id].(state := Dispatching))
  }

  function SetRunning(c: Locked, id: JobId, handle: string): Locked {
    if id in c.jobs then c.Put(id, c.jobs[id].(state := Running, handle := handle)) else c
  }

  /** The status write of handleMonitor: the polled state, and the allocation released if terminal. */
  function RecordStatus(c: Locked, id: JobId, st: JobState): Locked {
    if id !in c.jobs then c
    else if st.Terminal() then c.Release(c.jobs[id]).Put(id, c.jobs[id].(state := st, alloc := None))
    else c.Put(id, c.jobs[id].(state := st))
  }

  /** The second section of reschedule: release, then back to Submitted unless the limit is reached. */
  function FinishReschedule(c: Locked, id: JobId): Locked {
    if id !in c.jobs then c
    else
      var j := c.jobs[id].(alloc := None, handle := "");
      c.Release(c.jobs[id]).Put(id,
        if j.reschedules + 1 > MAX_RESCHEDULES then j.(state := Failed)
        else j.(reschedules := j.reschedules + 1, cluster := "", state := Submitted))
  }

  datatype AttemptOutcome = Success(handle: string) | Repairable | WrongTarget | Transient | HardFail

  /** What handleDispatch and handleRepair tell their caller to do next. */
  datatype Route = Stop | Enqueue(stage: Stage) | Retry | Reschedule

  datatype Stage = Dispatch | Repair | Monitor

  /** The locked section after a dispatch attempt, and the route. */
  function AfterDispatch(c: Locked, id: JobId, o: AttemptOutcome): (Locked, Route) {
    match o
    case Success(h) => (SetRunning(c, id, h), Enqueue(Monitor))
    case Repairable => (c, Enqueue(Repair))
    case Transient => (c, Retry)
    case WrongTarget => (c, if id in c.jobs then Reschedule else Stop)
    case HardFail => (FailJob(c, id), Stop)
  }

  /** The locked section after a repair attempt; a transient outcome is a hard failure here. */
  function AfterRepair(c: Locked, id: JobId, o: AttemptOutcome, attempt: nat): (Locked, Route) {
    match o
    case Success(h) => (SetRunning(c, id, h), Enqueue(Monitor))
    case WrongTarget => (c, if id in c.jobs then Reschedule else Stop)
    case Repairable => if attempt < REPAIR_MAX_ATTEMPTS then (c, Retry) else (FailJob(c, id), Stop)
    case Transient => (FailJob(c, id), Stop)
    case HardFail => (FailJob(c, id), Stop)
  }

  // ---- What every section keeps ----

  /** Records name distinct minted ids that have not been freed, terminal records name none, no id was
      freed twice, and a freed id holds no node. */
  ghost predicate Consistent(jobs: map<JobId, Job>, ledger: M.Ledger, freed: multiset<nat>) {
    && M.Inv(ledger)
    && (forall id :: id in jobs && jobs[id].alloc.Some? ==>
          1 <= jobs[id].alloc.value <= ledger.next && freed[jobs[id].alloc.value] == 0 && !jobs[id].state.Terminal())
    && (forall x, y :: x in jobs && y in jobs && x != y && jobs[x].alloc.Some? ==> jobs[x].alloc != jobs[y].alloc)
    && (forall a :: a in freed ==> freed[a] == 1 && a <= ledger.next && a !in ledger.live)
  }

  /** No record but this one's changed. */
  ghost predicate OnlyJob(jobs0: map<JobId, Job>, jobs: map<JobId, Job>, id: JobId) {
    jobs.Keys == jobs0.Keys && forall x :: x in jobs && x != id ==> jobs[x] == jobs0[x]
  }

  /** Exactly this allocation was handed back, for the first time: its nodes are free, everybody else's
      are held as before. No allocation: nothing happened. */
  ghost predicate HandedBack(l0: M.Ledger, freed0: multiset<nat>, l: M.Ledger, freed: multiset<nat>,
                             alloc: Option<nat>)
  {
    && l.clusters == l0.clusters && l.order == l0.order && l.next == l0.next && l.taken.Keys == l0.taken.Keys
    && match alloc
       case None => l == l0 && freed == freed0
       case Some(a) =>
         && freed0[a] == 0 && freed == freed0 + multiset{a}
         && a !in l.live && (forall b :: b != a ==> (b in l.live <==> b in l0.live))
         && (forall b :: b in l.live ==> b in l0.live && l.live[b] == l0.live[b])
         && (forall c, v :: c in l.taken ==> (v in l.taken[c] <==> v in l0.taken[c] && !M.Holds(l0.live, a, c, v)))
  }

  lemma FreeHandsBack(l: M.Ledger, a: nat)
    requires M.Inv(l)
    ensures var m := M.Free(l, a);
      && M.Inv(m) && m.clusters == l.clusters && m.order == l.order && m.next == l.next && m.taken.Keys == l.taken.Keys
      && a !in m.live && (forall b :: b != a ==> (b in m.live <==> b in l.live))
      && (forall b :: b in m.live ==> b in l.live && m.live[b] == l.live[b])
      && (forall c, v :: c in m.taken ==> (v in m.taken[c] <==> v in l.taken[c] && !M.Holds(l.live, a, c, v)))
  {
    M.FreeInv(l, a);
    hide M.Inv;
  }

  /** Releasing what a record names and storing the record without it. */
  lemma ReleaseKeeps(c: Locked, id: JobId, j: Job)
    requires Consistent(c.jobs, c.ledger, c.freed) && id in c.jobs && j.alloc == None
    ensures var r := c.Release(c.jobs[id]);
      && Consistent(c.jobs[id := j], r.ledger, r.freed)
      && HandedBack(c.ledger, c.freed, r.ledger, r.freed, c.jobs[id].alloc)
  {
    hide M.Inv, M.Free;
    if c.jobs[id].alloc.Some? { FreeHandsBack(c.ledger, c.jobs[id].alloc.value); }
  }

  /** Storing a record that names what it named before. */
  lemma StoreKeeps(jobs: map<JobId, Job>, ledger: M.Ledger, freed: multiset<nat>, id: JobId, j: Job)
    requires Consistent(jobs, ledger, freed) && id in jobs && j.alloc == jobs[id].alloc
    requires j.state.Terminal() ==> j.alloc == None
    ensures Consistent(jobs[id := j], ledger, freed)
  {
    hide M.Inv;
  }

  // ---- What a stage leaves behind, compared with what it found when it took the lock again ----

  /** Running with the handle over whatever state was found; nothing else changes. */
  ghost predicate RanOn(c: Locked, d: Locked, id: JobId, handle: string) {
    && OnlyJob(c.jobs, d.jobs, id) && d.ledger == c.ledger && d.freed == c.freed
    && (id in c.jobs ==> d.jobs[id] == c.jobs[id].(state := Running, handle := handle))
  }

  /** Failed, with what the record named by then handed back once. */
  ghost predicate FailedFrom(c: Locked, d: Locked, id: JobId) {
    && OnlyJob(c.jobs, d.jobs, id)
    && (id in c.jobs ==> d.jobs[id] == c.jobs[id].(state := Failed, alloc := None))
    && HandedBack(c.ledger, c.freed, d.ledger, d.freed, NamedBy(c, id))
  }

  function NamedBy(c: Locked, id: JobId): Option<nat> { if id in c.jobs then c.jobs[id].alloc else None }

  lemma NothingHandedBack(c: Locked)
    ensures HandedBack(c.ledger, c.freed, c.ledger, c.freed, None)
  {}

  /** Back to waiting while reschedules are left and Failed otherwise, in both cases handed back once. */
  ghost predicate MovedOn(c: Locked, d: Locked, id: JobId) {
    && OnlyJob(c.jobs, d.jobs, id)
    && HandedBack(c.ledger, c.freed, d.ledger, d.freed, NamedBy(c, id))
    && (id in c.jobs ==>
          && d.jobs[id].alloc == None && d.jobs[id].handle == "" && d.jobs[id].spec == c.jobs[id].spec
          && d.jobs[id].state == (if c.jobs[id].reschedules < MAX_RESCHEDULES then Submitted else Failed)
          && d.jobs[id].reschedules
             == c.jobs[id].reschedules + if c.jobs[id].reschedules < MAX_RESCHEDULES then 1 else 0)
  }

  /** The polled state over whatever was found; a terminal one hands back what the record names. */
  ghost predicate StatusTaken(c: Locked, d: Locked, id: JobId, st: JobState) {
    && OnlyJob(c.jobs, d.jobs, id)
    && (id in c.jobs ==>
          d.jobs[id] == c.jobs[id].(state := st, alloc := if st.Terminal() then None else c.jobs[id].alloc))
    && HandedBack(c.ledger, c.freed, d.ledger, d.freed, if st.Terminal() then NamedBy(c, id) else None)
  }

  /** The manager's locked state and the sections that update it in place. Each section is the function
      of the same state that the protocol takes as one step, and keeps the state consistent. */
  class Manager {
    var jobs: map<JobId, Job>
    var ledger: M.Ledger
    ghost var freed: multiset<nat>

    ghost function State(): Locked
      reads this
    {
      Locked(jobs, ledger, freed)
    }

    ghost predicate Valid()
      reads this
    {
      Consistent(jobs, ledger, freed)
    }

    constructor ()
      ensures Valid() && State() == Locked(map[], M.EMPTY, multiset{})
    {
      jobs, ledger, freed := map[], M.EMPTY, multiset{};
      new;
      M.EmptyInv();
    }

    /** freeLocked: what the record names is freed once, and storing the record without it is consistent
        again, whatever else is written in it. */
    method FreeLocked(ghost id: JobId, j: Job) returns (cleared: Job)
      requires Valid() && id in jobs && j == jobs[id]
      modifies this`ledger, this`freed
      ensures cleared == j.(alloc := None)
      ensures HandedBack(old(ledger), old(freed), ledger, freed, j.alloc)
      ensures forall k: Job :: k.alloc == None ==> Consistent(jobs[id := k], ledger, freed)
      ensures State() == old(State()).Release(j)
    {
      hide Consistent, HandedBack;
      forall k: Job | k.alloc == None
        ensures var r := State().Release(j);
          Consistent(jobs[id := k], r.ledger, r.freed) && HandedBack(ledger, freed, r.ledger, r.freed, j.alloc)
      {
        ReleaseKeeps(State(), id, k);
      }
      ReleaseKeeps(State(), id, j.(alloc := None));
      cleared := j;
      if j.alloc.None? { return; }
      ledger := M.Free(ledger, j.alloc.value);
      freed := freed + multiset{j.alloc.value};
      cleared := cleared.(alloc := None);
    }

    method FailByID(id: JobId)
      requires Valid()
      modifies this
      ensures Valid() && OnlyJob(old(jobs), jobs, id)
      ensures id in jobs ==>
        && jobs[id] == old(jobs)[id].(alloc := None, state := Failed)
        && HandedBack(old(ledger), old(freed), ledger, freed, old(jobs)[id].alloc)
      ensures id !in jobs ==> ledger == old(ledger) && freed == old(freed)
      ensures State() == FailJob(old(State()), id)
    {
      hide Consistent, HandedBack;
      if id in jobs {
        var j := FreeLocked(id, jobs[id]);
        jobs := jobs[id := j.(state := Failed)];
      }
    }

    /** Only a live job goes on; it keeps its allocation. */
    method DispatchEnter(id: JobId) returns (proceed: bool)
      requires Valid()
      modifies this`jobs
      ensures Valid() && OnlyJob(old(jobs), jobs, id)
      ensures proceed <==> id in old(jobs) && !old(jobs)[id].state.Terminal()
      ensures proceed ==> jobs[id] == old(jobs)[id].(state := Dispatching)
      ensures !proceed ==> jobs == old(jobs)
      ensures proceed ==> State() == EnterDispatch(old(State()), id)
    {
      hide Consistent;
      if id !in jobs || jobs[id].state.Terminal() { return false; }
      StoreKeeps(jobs, ledger, freed, id, jobs[id].(state := Dispatching));
      jobs := jobs[id := jobs[id].(state := Dispatching)];
      proceed := true;
    }

    /** Running with the handle, whatever the state was; the allocation, if any is left, is kept. */
    method MarkRunning(id: JobId, handle: string)
      requires Valid()
      modifies this`jobs
      ensures Valid() && OnlyJob(old(jobs), jobs, id)
      ensures id in jobs ==> jobs[id] == old(jobs)[id].(state := Running, handle := handle)
      ensures State() == SetRunning(old(State()), id, handle)
    {
      hide Consistent;
      if id in jobs {
        StoreKeeps(jobs, ledger, freed, id, jobs[id].(state := Running, handle := handle));
        jobs := jobs[id := jobs[id].(state := Running, handle := handle)];
      }
    }

    /** After a dispatch attempt. Only a hard failure hands anything back here. */
    method DispatchLeave(id: JobId, o: AttemptOutcome) returns (next: Route)
      requires Valid()
      modifies this
      ensures Valid() && OnlyJob(old(jobs), jobs, id)
      ensures !o.HardFail? ==> ledger == old(ledger) && freed == old(freed)
      ensures o.HardFail? && id in jobs ==>
        jobs[id].state == Failed && HandedBack(old(ledger), old(freed), ledger, freed, old(jobs)[id].alloc)
      ensures id in jobs && !o.HardFail? ==> jobs[id].alloc == old(jobs)[id].alloc
      ensures next.Enqueue? <==> o.Success? || o.Repairable?
      ensures next == Retry <==> o.Transient?
      ensures (State(), next) == AfterDispatch(old(State()), id, o)
    {
      hide Consistent, HandedBack;
      match o
      case Success(h) => MarkRunning(id, h); next := Enqueue(Monitor);
      case Repairable => next := Enqueue(Repair);
      case Transient => next := Retry;
      case WrongTarget => next := if id in jobs then Reschedule else Stop;
      case HardFail => FailByID(id); next := Stop;
    }

    /** After a repair attempt: it may be retried only while attempts are left, and every other failure
        but a wrong target fails the job. */
    method RepairLeave(id: JobId, o: AttemptOutcome, attempt: nat) returns (next: Route)
      requires Valid()
      modifies this
      ensures Valid() && OnlyJob(old(jobs), jobs, id)
      ensures next == Retry <==> o.Repairable? && attempt < REPAIR_MAX_ATTEMPTS
      ensures next.Enqueue? <==> o.Success?
      ensures next != Stop ==>
        ledger == old(ledger) && freed == old(freed) && (id in jobs ==> jobs[id].alloc == old(jobs)[id].alloc)
      ensures next == Stop && id in jobs ==>
        jobs[id].state == Failed && HandedBack(old(ledger), old(freed), ledger, freed, old(jobs)[id].alloc)
      ensures (State(), next) == AfterRepair(old(State()), id, o, attempt)
    {
      hide Consistent, HandedBack;
      match o
      case Success(h) => MarkRunning(id, h); next := Enqueue(Monitor);
      case WrongTarget => next := if id in jobs then Reschedule else Stop;
      case Repairable =>
        if attempt < REPAIR_MAX_ATTEMPTS {
          next := Retry;
        } else {
          FailByID(id);
          next := Stop;
        }
      case Transient => FailByID(id); next := Stop;
      case HardFail => FailByID(id); next := Stop;
    }

    /** The polled status is recorded as it is; a terminal one hands the allocation back. */
    method MonitorRecord(id: JobId, st: JobState) returns (done: bool)
      requires Valid()
      modifies this
      ensures Valid() && OnlyJob(old(jobs), jobs, id) && done == st.Terminal()
      ensures id in jobs ==>
        && jobs[id] == old(jobs)[id].(state := st, alloc := if done then None else old(jobs)[id].alloc)
        && HandedBack(old(ledger), old(freed), ledger, freed, if done then old(jobs)[id].alloc else None)
      ensures State() == RecordStatus(old(State()), id, st)
    {
      hide Consistent;
      if id in jobs {
        var j := jobs[id];
        if st != j.state { j := j.(state := st); }
        if st.Terminal() {
          j := FreeLocked(id, jobs[id]);
          j := j.(state := st);
        } else {
          StoreKeeps(jobs, ledger, freed, id, j);
        }
        jobs := jobs[id := j];
      }
      done := st.Terminal();
    }

    /** The allocation goes back and the handle is forgotten; the job waits again, at most three times. */
    method RescheduleFinish(id: JobId)
      requires Valid()
      modifies this
      ensures Valid() && OnlyJob(old(jobs), jobs, id)
      ensures id in jobs ==>
        && HandedBack(old(ledger), old(freed), ledger, freed, old(jobs)[id].alloc)
        && jobs[id].alloc == None && jobs[id].handle == "" && jobs[id].spec == old(jobs)[id].spec
        && (jobs[id].state == Submitted <==> old(jobs)[id].reschedules < MAX_RESCHEDULES)
        && (jobs[id].state == Submitted
            ==> jobs[id].reschedules == old(jobs)[id].reschedules + 1 && jobs[id].cluster == "")
        && (jobs[id].state != Submitted
            ==> jobs[id].state == Failed && jobs[id].reschedules == old(jobs)[id].reschedules)
      ensures State() == FinishReschedule(old(State()), id)
    {
      hide Consistent, HandedBack;
      if id !in jobs { return; }
      var j := FreeLocked(id, jobs[id]);
      j := j.(handle := "");
      if j.reschedules + 1 > MAX_RESCHEDULES {
        jobs := jobs[id := j.(state := Failed)];
        return;
      }
      jobs := jobs[id := j.(reschedules := j.reschedules + 1, cluster := "", state := Submitted)];
    }

    /** Whatever the other actors left behind while the lock was not held. */
    method Reacquire(left: Locked)
      requires Consistent(left.jobs, left.ledger, left.freed)
      modifies this
      ensures Valid() && State() == left
    {
      jobs, ledger, freed := left.jobs, left.ledger, left.freed;
    }

    /** handleDispatch from entry to route. Others leave `attempted` behind during the attempt and
        `cancelled` during the cancellation of a misplaced job; both are arbitrary consistent states. */
    method HandleDispatch(id: JobId, o: AttemptOutcome, attempted: Locked, cancelled: Locked)
        returns (next: Option<Stage>, retry: bool)
      requires Valid()
      requires Consistent(attempted.jobs, attempted.ledger, attempted.freed)
      requires Consistent(cancelled.jobs, cancelled.ledger, cancelled.freed)
      modifies this
      ensures Valid()
      ensures !Live(old(State()), id) ==> State() == old(State()) && next == None && !retry
      ensures Live(old(State()), id) ==>
        && (next == Some(Monitor) <==> o.Success?) && (next == Some(Repair) <==> o.Repairable?)
        && next != Some(Dispatch) && (retry <==> o.Transient?)
        && (o.Repairable? || o.Transient? ==> State() == attempted)
        && (o.Success? ==> RanOn(attempted, State(), id, o.handle))
        && (o.HardFail? ==> FailedFrom(attempted, State(), id))
        && (o.WrongTarget? ==> if id in attempted.jobs then MovedOn(cancelled, State(), id) else State() == attempted)
    {
      hide Consistent, HandedBack;
      NothingHandedBack(attempted);
      NothingHandedBack(cancelled);
      next, retry := None, false;
      var proceed := DispatchEnter(id);
      if !proceed { return; }
      Reacquire(attempted);
      var route := DispatchLeave(id, o);
      match route {
        case Stop =>
        case Enqueue(stage) => next := Some(stage);
        case Retry => retry := true;
        case Reschedule => Reacquire(cancelled); RescheduleFinish(id);
      }
    }

    /** handleRepair from entry to route, with what others leave behind in its gaps. */
    method HandleRepair(id: JobId, o: AttemptOutcome, attempt: nat, attempted: Locked, cancelled: Locked)
        returns (next: Option<Stage>, retry: bool)
      requires Valid()
      requires Consistent(attempted.jobs, attempted.ledger, attempted.freed)
      requires Consistent(cancelled.jobs, cancelled.ledger, cancelled.freed)
      modifies this
      ensures Valid()
      ensures !Live(old(State()), id) ==> State() == old(State()) && next == None && !retry
      ensures Live(old(State()), id) ==>
        && next == (if o.Success? then Some(Monitor) else None)
        && (retry <==> o.Repairable? && attempt < REPAIR_MAX_ATTEMPTS)
        && (retry ==> State() == attempted)
        && (o.Success? ==> RanOn(attempted, State(), id, o.handle))
        && (o.WrongTarget? ==> if id in attempted.jobs then MovedOn(cancelled, State(), id) else State() == attempted)
        && (o.HardFail? || o.Transient? || (o.Repairable? && !retry) ==> FailedFrom(attempted, State(), id))
    {
      hide Consistent, HandedBack;
      NothingHandedBack(attempted);
      NothingHandedBack(cancelled);
      next, retry := None, false;
      if id !in jobs || jobs[id].state.Terminal() { return; }
      Reacquire(attempted);
      var route := RepairLeave(id, o, attempt);
      match route {
        case Stop =>
        case Enqueue(stage) => next := Some(stage);
        case Retry => retry := true;
        case Reschedule => Reacquire(cancelled); RescheduleFinish(id);
      }
    }

    /** handleMonitor, with what others leave behind during the poll; no status is a failed poll. */
    method HandleMonitor(id: JobId, status: Option<JobState>, polled: Locked) returns (done: bool)
      requires Valid() && Consistent(polled.jobs, polled.ledger, polled.freed)
      modifies this
      ensures Valid()
      ensures !Live(old(State()), id) ==> State() == old(State()) && done
      ensures Live(old(State()), id) && old(jobs)[id].handle == "" ==> State() == old(State()) && !done
      ensures Live(old(State()), id) && old(jobs)[id].handle != "" ==>
        && (done <==> status.Some? && status.value.Terminal())
        && (status.None? ==> State() == polled)
        && (status.Some? ==> StatusTaken(polled, State(), id, status.value))
    {
      hide Consistent, HandedBack;
      NothingHandedBack(polled);
      if id !in jobs || jobs[id].state.Terminal() { return true; }
      if jobs[id].handle == "" { return false; }
      Reacquire(polled);
      if status.None? { return false; }
      done := MonitorRecord(id, status.value);
    }
  }
}
