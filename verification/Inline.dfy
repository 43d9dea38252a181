/** The inline manager object, whose methods move the state as the functions of Scheduling do, and what
    holds over all of its runs. */
module Inline {
  import opened Jobspec
  import opened Graphs
  import opened CriticalSections
  import opened Scheduling
  import M = Matcher

  // ---- The other operations as functions of the state ----

  function Fresh(spec: Spec): Job { Job(Submitted, None, "", "", 0, spec) }

  /** What the matcher holds after a job's allocation, if any, is handed back. */
  function Released(l: M.Ledger, j: Job): M.Ledger {
    if j.alloc.Some? then M.Free(l, j.alloc.value) else l
  }

  function Cancelled(s: Snap, i: nat): Snap {
    if i >= |s.jobs| || s.jobs[i].state.Terminal() then s
    else Snap(s.jobs[i := s.jobs[i].(state := JobState.Failed, alloc := None)], Released(s.ledger, s.jobs[i]))
  }

  predicate Pollable(j: Job, st: Option<JobState>, l: M.Ledger) {
    Active(j.state) && j.handle != "" && j.cluster in l.clusters && st.Some?
  }

  function PollOne(s: Snap, i: nat, st: Option<JobState>): Snap {
    if i >= |s.jobs| || !Pollable(s.jobs[i], st, s.ledger) then s
    else
      Snap(s.jobs[i := s.jobs[i].(state := st.value)],
           if st.value.Terminal() then Released(s.ledger, s.jobs[i]) else s.ledger)
  }

  /** The state after polling the first `k` jobs. */
  function PollFirst(s: Snap, status: nat -> Option<JobState>, k: nat): Snap {
    if k == 0 then s else PollOne(PollFirst(s, status, k - 1), k - 1, status(k - 1))
  }

  /** A driver reports running, completed or failed. */
  ghost predicate Honest(status: nat -> Option<JobState>) {
    forall i :: status(i).Some? ==> status(i).value in {Running, Completed, JobState.Failed}
  }

  /** A record after a poll: any answer is taken, for jobs under way that can be asked about. */
  function Polled(j: Job, st: Option<JobState>, l: M.Ledger): Job {
    if st.Some? && j.state in {Matched, Dispatching, Running} && j.handle != "" && j.cluster in l.clusters
    then j.(state := st.value)
    else j
  }

  /** Nobody's nodes but a finished job's are released: an active owner's live record stays. */
  ghost predicate KeepsActive(live0: map<nat, M.Live>, jobs: seq<Job>, live: map<nat, M.Live>) {
    && (forall i, a :: a in live0 && OwnsLive(jobs, i, a) ==> a in live && live[a] == live0[a])
    && (forall a :: a in live ==> a in live0 && live[a] == live0[a])
  }

  lemma StillKept(live0: map<nat, M.Live>, jobs: seq<Job>, l: M.Ledger, i: nat, j: Job)
    requires Accounted(jobs, l) && KeepsActive(live0, jobs, l.live) && i < |jobs| && j.alloc == jobs[i].alloc
    requires Active(jobs[i].state)
    ensures KeepsActive(live0, jobs[i := j], if j.state.Terminal() then Released(l, jobs[i]).live else l.live)
  {
    var after, m := jobs[i := j], Released(l, jobs[i]);
    forall k: nat, a | a in live0 && OwnsLive(after, k, a)
      ensures var live := if j.state.Terminal() then m.live else l.live; a in live && live[a] == live0[a]
    {
      assert OwnsLive(jobs, k, a);
    }
  }

  lemma FreeKeepsFleet(l: M.Ledger, j: Job)
    ensures var m := Released(l, j); m.clusters == l.clusters && m.order == l.order && m.next == l.next
  {}

  /** Polling job by job: each record takes its polled state once, and only finished jobs' nodes go. */
  lemma {:induction false} PollFacts(s: Snap, status: nat -> Option<JobState>, k: nat)
    requires Books(s) && Honest(status) && k <= |s.jobs|
    ensures var t := PollFirst(s, status, k);
      && Books(t) && |t.jobs| == |s.jobs|
      && t.ledger.clusters == s.ledger.clusters && t.ledger.order == s.ledger.order && t.ledger.next == s.ledger.next
      && (forall i :: 0 <= i < k ==> t.jobs[i] == Polled(s.jobs[i], status(i), s.ledger))
      && (forall i :: k <= i < |s.jobs| ==> t.jobs[i] == s.jobs[i])
      && KeepsActive(s.ledger.live, t.jobs, t.ledger.live)
  {
    hide M.Inv, M.Free, Accounted, KeepsActive;
    if k == 0 {
      AllKept(s);
    } else {
      PollFacts(s, status, k - 1);
      var b, i, st := PollFirst(s, status, k - 1), k - 1, status(k - 1);
      if Pollable(b.jobs[i], st, b.ledger) {
        var j := b.jobs[i].(state := st.value);
        if st.value.Terminal() { Ended(b.jobs, b.ledger, i, j); } else { RecordOnly(b.jobs, b.ledger, i, j); }
        StillKept(s.ledger.live, b.jobs, b.ledger, i, j);
        FreeKeepsFleet(b.ledger, b.jobs[i]);
      }
    }
  }

  lemma PollNone(s: Snap, status: nat -> Option<JobState>)
    ensures PollFirst(s, status, 0) == s
  {}

  lemma PollNext(s: Snap, status: nat -> Option<JobState>, k: nat)
    ensures PollFirst(s, status, k + 1) == PollOne(PollFirst(s, status, k), k, status(k))
  {}

  lemma AllKept(s: Snap)
    ensures KeepsActive(s.ledger.live, s.jobs, s.ledger.live)
  {}

  // ---- Events and runs ----

  /** Everything that can happen to the inline manager, in any order. */
  datatype Event =
    | Submission(spec: Spec)
    | Pass(policy: Policy)
    | Poll(status: nat -> Option<JobState>)
    | Cancellation(i: nat)
    | Registration(c: M.Cluster)
    | Removal(id: string)
  {
    ghost predicate Allowed() { Poll? ==> Honest(status) }
  }

  ghost function Apply(s: Snap, e: Event): Snap {
    match e
    case Submission(spec) => s.(jobs := s.jobs + [Fresh(spec)])
    case Pass(p) => PassOf(s, p)
    case Poll(status) => PollFirst(s, status, |s.jobs|)
    case Cancellation(i) => Cancelled(s, i)
    case Registration(c) => s.(ledger := M.AddCluster(s.ledger, c))
    case Removal(id) => s.(ledger := M.RemoveCluster(s.ledger, id))
  }

  /** The state a run of events leads to. */
  ghost function After(events: seq<Event>): Snap {
    if events == [] then NOTHING_YET else Apply(After(events[..|events| - 1]), events[|events| - 1])
  }

  lemma SubmitBooks(s: Snap, spec: Spec)
    requires Books(s)
    ensures Books(s.(jobs := s.jobs + [Fresh(spec)]))
  {
    hide M.Inv;
    var after := s.jobs + [Fresh(spec)];
    forall a | a in s.ledger.live ensures exists k :: OwnsLive(after, k, a) {
      var k :| OwnsLive(s.jobs, k, a);
      assert OwnsLive(after, k, a);
    }
  }

  lemma CancelBooks(s: Snap, i: nat)
    requires Books(s)
    ensures Books(Cancelled(s, i))
  {
    hide M.Inv, M.Free, Accounted;
    if i < |s.jobs| && !s.jobs[i].state.Terminal() {
      Ended(s.jobs, s.ledger, i, s.jobs[i].(state := JobState.Failed, alloc := None));
    }
  }

  /** Of the live allocations exactly this one, if any, is gone. */
  ghost predicate HandsBackOnly(l0: M.Ledger, l: M.Ledger, alloc: Option<nat>) {
    && l.clusters == l0.clusters && l.order == l0.order && l.next == l0.next
    && (forall a :: a in l.live <==> a in l0.live && alloc != Some(a))
    && (forall a :: a in l.live ==> l.live[a] == l0.live[a])
  }

  /** Cancelling touches no job that is over; a job that is not ends Failed, naming nothing, with exactly its
      own allocation handed back. */
  lemma CancelMeaning(s: Snap, i: nat)
    ensures i >= |s.jobs| || s.jobs[i].state in {Completed, JobState.Failed} ==> Cancelled(s, i) == s
    ensures i < |s.jobs| && s.jobs[i].state !in {Completed, JobState.Failed} ==>
      var t := Cancelled(s, i);
      && t.jobs == s.jobs[i := s.jobs[i].(state := JobState.Failed, alloc := None)]
      && HandsBackOnly(s.ledger, t.ledger, s.jobs[i].alloc)
  {}

  lemma ApplyBooks(s: Snap, e: Event)
    requires Books(s) && e.Allowed()
    ensures Books(Apply(s, e))
  {
    hide M.Inv, M.Without, Accounted, PassOf, PollFirst, Onward;
    match e
    case Submission(spec) => SubmitBooks(s, spec);
    case Pass(p) => PassKeeps(s, p);
    case Poll(status) => PollFacts(s, status, |s.jobs|);
    case Cancellation(i) => CancelBooks(s, i);
    case Registration(c) =>
      M.AddClusterInv(s.ledger, c);
      FleetChanged(s.jobs, s.ledger, M.AddCluster(s.ledger, c));
    case Removal(id) =>
      M.RemoveClusterInv(s.ledger, id);
      FleetChanged(s.jobs, s.ledger, M.RemoveCluster(s.ledger, id));
  }

  /** At the end of every run, so at every point of every run: the ledger is exact, records name distinct
      minted ids, and every live allocation belongs to exactly one active job. */
  lemma {:induction false} RunBooks(events: seq<Event>)
    requires forall e :: e in events ==> e.Allowed()
    ensures Books(After(events))
  {
    hide Books, Apply;
    if events == [] {
      NothingBooked();
    } else {
      var front, last := events[..|events| - 1], events[|events| - 1];
      assert last in events && forall e :: e in front ==> e in events;
      RunBooks(front);
      ApplyBooks(After(front), last);
    }
  }

  lemma NothingBooked()
    ensures Books(NOTHING_YET)
  {
    M.EmptyInv();
  }

  /** In every run, once all jobs are terminal every node of every cluster is free. */
  lemma RunAllFree(events: seq<Event>, cluster: string, spec: Spec)
    requires forall e :: e in events ==> e.Allowed()
    requires cluster in After(events).ledger.clusters && forall j :: j in After(events).jobs ==> j.state.Terminal()
    ensures var l := After(events).ledger;
      && cluster in l.taken && l.taken[cluster] == {}
      && M.EvaluateOne(l, cluster, spec).freeNodes
           == |M.FittingNodes(l.clusters[cluster], spec.NeedPerNode(), {})|
  {
    hide M.FittingNodes, Books, Apply;
    RunBooks(events);
    AllTerminalAllFree(After(events), cluster, spec);
  }

  /** In every run under either policy: at the turn in which a pass grants nodes, every earlier job still
      waiting is stuck at that moment, and under blocking no earlier job is waiting. */
  lemma RunFair(events: seq<Event>, p: Policy, k: nat)
    requires forall e :: e in events ==> e.Allowed()
    requires k < Visited(After(events), p)
    ensures var s := After(events);
      var a, i := PassState(s, p, k), WaitingIn(s.jobs)[k];
      && i < |a.jobs| == |s.jobs| && a.jobs[i].state == Submitted
      && (forall e :: 0 <= e < i && a.jobs[e].state == Submitted ==> Stuck(a.ledger, a.jobs[e].spec))
      && (p.block ==> forall e :: 0 <= e < i ==> a.jobs[e].state != Submitted)
  {
    hide Books, Apply, Stuck, PassState, Visited;
    RunBooks(events);
    PassFair(After(events), p, k);
  }

  /** First come, first served, read off the records: ids rise with the job number, and nothing behind a
      waiting job names an id. */
  ghost predicate InLine(jobs: seq<Job>) {
    && (forall i, k :: 0 <= i < k < |jobs| && jobs[i].alloc.Some? && jobs[k].alloc.Some? ==>
          jobs[i].alloc.value < jobs[k].alloc.value)
    && (forall i, k :: 0 <= i < k < |jobs| && jobs[i].state == Submitted ==> jobs[k].alloc == None)
  }

  lemma PassInLine(s: Snap, p: Policy)
    requires Books(s) && p.block && InLine(s.jobs)
    ensures InLine(PassOf(s, p).jobs)
  {
    hide M.Inv, PassOf, Onward;
    var t := PassOf(s, p);
    PassKeeps(s, p);
    SameCount(s, t);
    PassIds(s, p);
    forall i: nat, k: nat | i < k < |t.jobs| && t.jobs[i].state == Submitted ensures t.jobs[k].alloc == None {
      PassBlocks(s, p, i, k);
      assert s.jobs[i].state == Submitted;
    }
    forall i: nat, k: nat | i < k < |t.jobs| && t.jobs[i].alloc.Some? && t.jobs[k].alloc.Some?
      ensures t.jobs[i].alloc.value < t.jobs[k].alloc.value
    {
      if s.jobs[i].state == Submitted { assert GrantedNow(s, t, i); }
      if s.jobs[k].state == Submitted { assert GrantedNow(s, t, k); }
    }
  }

  lemma PollInLine(s: Snap, status: nat -> Option<JobState>)
    requires Books(s) && Honest(status) && InLine(s.jobs)
    ensures InLine(PollFirst(s, status, |s.jobs|).jobs)
  {
    hide Books, PollFirst, KeepsActive;
    PollFacts(s, status, |s.jobs|);
    var t := PollFirst(s, status, |s.jobs|);
    forall i | 0 <= i < |s.jobs|
      ensures t.jobs[i].alloc == s.jobs[i].alloc && (t.jobs[i].state == Submitted ==> s.jobs[i].state == Submitted)
    {
      assert t.jobs[i] == Polled(s.jobs[i], status(i), s.ledger);
    }
  }

  /** Over every run whose passes all block, mixed with every other event: allocation ids rise with the
      job number, and no job behind a waiting one has ever been granted nodes it still names. */
  lemma {:induction false} RunFirstCome(events: seq<Event>)
    requires forall e :: e in events ==> e.Allowed() && (e.Pass? ==> e.policy.block)
    ensures InLine(After(events).jobs)
  {
    hide Books, PassOf, PollFirst, M.AddCluster, M.RemoveCluster, Released;
    if events != [] {
      var front, last := events[..|events| - 1], events[|events| - 1];
      assert last in events && forall e :: e in front ==> e in events;
      RunFirstCome(front);
      RunBooks(front);
      match last {
        case Pass(p) => PassInLine(After(front), p);
        case Poll(status) => PollInLine(After(front), status);
        case _ =>
      }
    }
  }

  // ---- A job's whole way ----

  /** Submitted when nobody waits and some cluster has room: the next pass, whatever its policy, scorer and
      shuffle, starts the job under the handle its dispatch returns. */
  lemma SubmittedRuns(s: Snap, spec: Spec, p: Policy, h: string)
    requires Books(s) && (forall j :: j in s.jobs ==> j.state != Submitted) && SomeRoom(s.ledger, spec)
    requires p.outcome(|s.jobs|) == Some(h) && s.ledger.order != []
    ensures var t := Apply(Apply(s, Submission(spec)), Pass(p));
      && |t.jobs| == |s.jobs| + 1 && t.jobs[|s.jobs|].state == Running && t.jobs[|s.jobs|].handle == h
      && t.jobs[|s.jobs|].spec == spec && t.jobs[|s.jobs|].alloc.Some? && t.jobs[|s.jobs|].cluster in t.ledger.clusters
      && forall i :: 0 <= i < |s.jobs| ==> t.jobs[i] == s.jobs[i]
  {
    hide Books, SomeRoom, PassOf, Onward, Visited, VisitOf, Stuck, SomeFeasible;
    var s1, i := s.(jobs := s.jobs + [Fresh(spec)]), |s.jobs|;
    var t := PassOf(s1, p);
    SubmitBooks(s, spec);
    PassKeeps(s1, p);
    SameCount(s1, t);
    SameFleet(s1, t);
    OnlyNewWaits(s, spec);
    FirstTurn(s1, p);
    TurnResult(s1, p, 0);
    TurnFacts(s1, i, p);
    RoomDecides(s.ledger, spec);
    PassTreats(s1, p, i);
    forall k | 0 <= k < |s.jobs| ensures t.jobs[k] == s.jobs[k] {
      assert s1.jobs[k] == s.jobs[k] && s.jobs[k] in s.jobs;
    }
  }

  lemma SameFleet(s: Snap, t: Snap)
    requires Onward(s, t)
    ensures t.ledger.clusters == s.ledger.clusters
  {}

  lemma OnlyNewWaits(s: Snap, spec: Spec)
    requires forall j :: j in s.jobs ==> j.state != Submitted
    ensures WaitingIn(s.jobs + [Fresh(spec)]) == [|s.jobs|]
  {
    var jobs := s.jobs + [Fresh(spec)];
    assert jobs[..|s.jobs|] == s.jobs;
    NobodyWaits(s.jobs);
  }

  lemma {:induction false} NobodyWaits(jobs: seq<Job>)
    requires forall j :: j in jobs ==> j.state != Submitted
    ensures WaitingIn(jobs) == []
  {
    if jobs != [] {
      assert jobs[|jobs| - 1] in jobs && forall j :: j in jobs[..|jobs| - 1] ==> j in jobs;
      NobodyWaits(jobs[..|jobs| - 1]);
    }
  }

  lemma FirstTurn(s: Snap, p: Policy)
    requires s.ledger.order != [] && WaitingIn(s.jobs) != []
    ensures Visited(s, p) > 0 && PassState(s, p, 0) == s
  {}

  lemma RoomDecides(l: M.Ledger, spec: Spec)
    requires SomeRoom(l, spec)
    ensures SomeFeasible(l, spec) && !Stuck(l, spec)
  {
    hide M.Feasible;
    var id :| HasRoom(l, id, spec);
    assert id in l.clusters && M.Feasible(l.clusters[id], spec);
  }

  /** A running job that can be asked about and is reported completed at the next poll is Completed then, and
      its nodes are free. */
  lemma RunningCompletes(s: Snap, status: nat -> Option<JobState>, i: nat)
    requires Books(s) && Honest(status) && i < |s.jobs| && status(i) == Some(Completed)
    requires s.jobs[i].state == Running && s.jobs[i].handle != "" && s.jobs[i].cluster in s.ledger.clusters
    ensures var t := Apply(s, Poll(status));
      && i < |t.jobs| && t.jobs[i].state == Completed
      && (s.jobs[i].alloc.Some? ==> s.jobs[i].alloc.value !in t.ledger.live)
  {
    hide M.Inv, PollFirst, KeepsActive;
    var t := PollFirst(s, status, |s.jobs|);
    PollFacts(s, status, |s.jobs|);
    assert t.jobs[i].alloc == s.jobs[i].alloc;
    OverHoldsNothing(t, i);
  }

  lemma OverHoldsNothing(s: Snap, i: nat)
    requires Books(s) && i < |s.jobs| && s.jobs[i].state.Terminal()
    ensures s.jobs[i].alloc.Some? ==> s.jobs[i].alloc.value !in s.ledger.live
  {
    hide M.Inv;
    assert s.jobs[i].alloc.Some? ==> forall k: nat :: !OwnsLive(s.jobs, k, s.jobs[i].alloc.value);
  }

  // ---- The object ----

  class InlineManager {
    var jobs: seq<Job>
    var ledger: M.Ledger

    function State(): Snap
      reads this
    {
      Snap(jobs, ledger)
    }

    ghost predicate Valid()
      reads this
    {
      Books(State())
    }

    constructor ()
      ensures Valid() && State() == NOTHING_YET
    {
      jobs, ledger := [], M.EMPTY;
      new;
      NothingBooked();
    }

    method Submit(spec: Spec) returns (i: nat)
      requires Valid()
      modifies this`jobs
      ensures Valid() && i == |old(jobs)| && State() == Apply(old(State()), Submission(spec))
      ensures jobs == old(jobs) + [Job(Submitted, None, "", "", 0, spec)]
    {
      hide Books;
      SubmitBooks(State(), spec);
      i := |jobs|;
      jobs := jobs + [Job(Submitted, None, "", "", 0, spec)];
    }

    method Register(c: M.Cluster)
      requires Valid()
      modifies this`ledger
      ensures Valid() && State() == Apply(old(State()), Registration(c))
      ensures ledger.clusters == old(ledger).clusters[c.id := c] && ledger.live == old(ledger).live
    {
      hide Books;
      ApplyBooks(State(), Registration(c));
      ledger := M.AddCluster(ledger, c);
    }

    method Unregister(id: string)
      requires Valid()
      modifies this`ledger
      ensures Valid() && State() == Apply(old(State()), Removal(id))
      ensures ledger.clusters == old(ledger).clusters - {id}
      ensures forall a :: a in ledger.live <==> a in old(ledger).live && old(ledger).live[a].cluster != id
    {
      hide Books, M.Without;
      ApplyBooks(State(), Removal(id));
      ledger := M.RemoveCluster(ledger, id);
    }

    /** failJob: frees the allocation but leaves its id in the record. */
    method FailJob(i: nat)
      requires Valid() && i < |jobs|
      modifies this`jobs, this`ledger
      ensures Valid() && jobs == old(jobs)[i := old(jobs)[i].(state := JobState.Failed)]
      ensures ledger == Released(old(ledger), old(jobs)[i])
    {
      hide M.Inv;
      Ended(jobs, ledger, i, jobs[i].(state := JobState.Failed));
      if jobs[i].alloc.Some? { ledger := M.Free(ledger, jobs[i].alloc.value); }
      jobs := jobs[i := jobs[i].(state := JobState.Failed)];
    }

    /** Cancel: nothing for a terminal job; otherwise free, clear and fail. */
    method Cancel(i: nat)
      requires Valid()
      modifies this`jobs, this`ledger
      ensures Valid() && State() == Apply(old(State()), Cancellation(i))
      ensures i >= |old(jobs)| || old(jobs)[i].state in {Completed, JobState.Failed} ==> State() == old(State())
      ensures i < |old(jobs)| && old(jobs)[i].state !in {Completed, JobState.Failed} ==>
        && jobs == old(jobs)[i := old(jobs)[i].(state := JobState.Failed, alloc := None)]
        && HandsBackOnly(old(ledger), ledger, old(jobs)[i].alloc)
    {
      hide Books, M.Free;
      CancelBooks(State(), i);
      CancelMeaning(State(), i);
      if i >= |jobs| || jobs[i].state.Terminal() { return; }
      var j := jobs[i].(state := JobState.Failed, alloc := None);
      if jobs[i].alloc.Some? { ledger := M.Free(ledger, jobs[i].alloc.value); }
      jobs := jobs[i := j];
    }

    /** dispatchNow: the transform and submit outcome is given; a None handle is any failure. */
    method DispatchNow(i: nat, outcome: Option<string>)
      requires Valid() && i < |jobs| && Active(jobs[i].state)
      modifies this`jobs, this`ledger
      ensures Valid()
      ensures jobs == old(jobs)[i := match outcome
        case None => old(jobs)[i].(state := JobState.Failed)
        case Some(h) => old(jobs)[i].(state := Running, handle := h)]
      ensures ledger == if outcome.Some? then old(ledger) else Released(old(ledger), old(jobs)[i])
    {
      hide M.Inv;
      RecordOnly(jobs, ledger, i, jobs[i].(state := Dispatching));
      jobs := jobs[i := jobs[i].(state := Dispatching)];
      match outcome
      case None => FailJob(i);
      case Some(h) =>
        RecordOnly(jobs, ledger, i, jobs[i].(state := Running, handle := h));
        jobs := jobs[i := jobs[i].(state := Running, handle := h)];
    }

    /** One placement attempt: allocate, record the match, dispatch. Nothing changes without room. */
    method Place(i: nat, cluster: string, outcome: Option<string>) returns (ok: bool)
      requires Valid() && i < |jobs| && jobs[i].state == Submitted
      requires cluster in ledger.clusters && !ledger.clusters[cluster].emulated
      requires M.Feasible(ledger.clusters[cluster], jobs[i].spec)
      modifies this
      ensures Valid()
      ensures ok <==> HasRoom(old(ledger), cluster, old(jobs)[i].spec)
      ensures State() == if ok then AfterVisit(old(State()), i, Placed(cluster), outcome) else old(State())
      ensures ok ==> i < |jobs| && Started(old(jobs)[i], jobs[i], outcome, old(ledger).next + 1, cluster)
    {
      hide M.Inv, M.Feasible, HasRoom, M.Allocate, M.Free;
      var spec := jobs[i].spec;
      AllocateIffRoom(ledger, cluster, spec);
      var (l, grant) := M.Allocate(ledger, spec, cluster);
      ok := grant.Granted?;
      if ok {
        var j := jobs[i].(state := Matched, alloc := Some(grant.id), cluster := cluster);
        Granted(jobs, ledger, i, spec, cluster, j);
        M.FreeUndoesAllocate(ledger, spec, cluster);
        ledger := l;
        jobs := jobs[i := j];
        DispatchNow(i, outcome);
      }
    }

    /** One job's turn in a schedule pass: the targets are tried in rank order. */
    method VisitJob(i: nat, p: Policy) returns (v: Visit)
      requires Valid() && i < |jobs| && jobs[i].state == Submitted
      modifies this
      ensures Valid() && v == VisitOf(old(State()), i, p) && State() == TurnOf(old(State()), i, p)
    {
      hide M.Inv, M.Feasible, HasRoom, RanksFeasible, Ranked, AfterVisit, Accounted, Targets;
      var spec := jobs[i].spec;
      InvRegistered(ledger);
      TurnFacts(State(), i, p);
      var ranked := Rank(ledger, spec, p, i);
      if ranked == [] {
        jobs := jobs[i := jobs[i].(state := JobState.Failed)];
        FailedVisit(old(State()), i, p.outcome(i));
        return Visit.Failed;
      }
      var targets := Dispatchable(ledger, ranked);
      for k := 0 to |targets|
        invariant State() == old(State()) && Valid()
        invariant FirstWithRoom(ledger, targets, spec) == FirstWithRoom(ledger, targets[k..], spec)
      {
        assert targets[k] in targets && targets[k..][1..] == targets[k + 1..];
        RankedFeasible(ledger, spec, ranked, targets[k]);
        var ok := Place(i, targets[k], p.outcome(i));
        if ok { return Placed(targets[k]); }
      }
      WaitingLeaves(State(), i, p);
      v := Waiting;
    }

    /** Queue.Provisional: the waiting jobs, oldest first. */
    method Provisional() returns (waiting: seq<nat>)
      ensures waiting == WaitingIn(jobs) && WaitingAt(jobs, waiting)
    {
      waiting := [];
      for i := 0 to |jobs|
        invariant waiting == WaitingIn(jobs[..i])
      {
        assert jobs[..i + 1][..i] == jobs[..i];
        if jobs[i].state == Submitted { waiting := waiting + [i]; }
      }
      assert jobs[..|jobs|] == jobs;
      WaitingExact(jobs);
    }

    /** scheduleOnce. What it means for each job is in the lemmas about PassOf. */
    method ScheduleOnce(p: Policy)
      requires Valid()
      modifies this
      ensures Valid() && State() == Apply(old(State()), Pass(p))
      ensures forall i: nat :: i < |old(jobs)| && old(jobs)[i].state == Submitted ==>
        i < |jobs| && Treated(old(jobs)[i], jobs[i], old(ledger), ledger, p.outcome(i))
      ensures old(ledger).order != [] ==> forall i: nat :: Reached(jobs, i, p.block) ==> Stuck(ledger, jobs[i].spec)
      ensures IdsRise(old(State()), State())
    {
      hide Books, VisitOf, AfterVisit, TurnOf, StateAfter, Between, Onward, StopAt, Treated, Stuck, IdsRise, Reached;
      ghost var s := State();
      PassKeeps(s, p);
      PassResults(s, p);
      var w := Provisional();
      StateZero(s, w, p);
      if ledger.order == [] { return; }
      for k := 0 to |w|
        invariant Valid() && State() == StateAfter(s, w, p, k) && StopAt(s, w, p, k) == StopAt(s, w, p, 0)
      {
        TurnsBetween(s, w, p, 0, k);
        NotYetItsTurn(s, State(), w, k);
        TurnIsNext(s, w, p, k);
        StopHere(s, w, p, k);
        var v := VisitJob(w[k], p);
        if v.Waiting? && p.block { return; }
      }
      StopHere(s, w, p, |w|);
    }

    /** monitorOnce: polls every active job that has a handle and a registered cluster. */
    method MonitorOnce(status: nat -> Option<JobState>)
      requires Valid() && Honest(status)
      modifies this`jobs, this`ledger
      ensures Valid() && State() == Apply(old(State()), Poll(status)) && |jobs| == |old(jobs)|
      ensures forall i :: 0 <= i < |jobs| ==> jobs[i] == Polled(old(jobs)[i], status(i), old(ledger))
      ensures ledger.clusters == old(ledger).clusters && ledger.order == old(ledger).order
      ensures KeepsActive(old(ledger).live, jobs, ledger.live)
    {
      hide Books, KeepsActive, M.Free, PollFirst, Polled;
      ghost var s := State();
      PollFacts(s, status, |jobs|);
      PollNone(s, status);
      for i := 0 to |jobs|
        invariant State() == PollFirst(s, status, i) && |jobs| == |s.jobs|
      {
        PollNext(s, status, i);
        var j, st := jobs[i], status(i);
        if !Active(j.state) || j.handle == "" || j.cluster !in ledger.clusters || st.None? { continue; }
        if st.value.Terminal() && j.alloc.Some? { ledger := M.Free(ledger, j.alloc.value); }
        jobs := jobs[i := j.(state := st.value)];
      }
    }

    /** One event, whichever it is. */
    method Handle(e: Event)
      requires Valid() && e.Allowed()
      modifies this
      ensures Valid() && State() == Apply(old(State()), e)
    {
      hide Books, Apply, Treated, Stuck, IdsRise, Reached, KeepsActive;
      match e
      case Submission(spec) => var _ := Submit(spec);
      case Pass(p) => ScheduleOnce(p);
      case Poll(status) => MonitorOnce(status);
      case Cancellation(i) => Cancel(i);
      case Registration(c) => Register(c);
      case Removal(id) => Unregister(id);
    }
  }

  lemma FailedVisit(s: Snap, i: nat, outcome: Option<string>)
    requires i < |s.jobs|
    ensures AfterVisit(s, i, Visit.Failed, outcome) == s.(jobs := s.jobs[i := s.jobs[i].(state := JobState.Failed)])
  {}

  lemma StopHere(s: Snap, w: seq<nat>, p: Policy, k: nat)
    requires k <= |w|
    ensures StopAt(s, w, p, k)
         == if k == |w| then k
            else if p.block && VisitOf(StateAfter(s, w, p, k), w[k], p).Waiting? then k + 1 else StopAt(s, w, p, k + 1)
  {}

  /** What a pass means for every job, gathered. */
  lemma PassResults(s: Snap, p: Policy)
    requires Books(s)
    ensures var t := PassOf(s, p);
      && (forall i: nat :: i < |s.jobs| && s.jobs[i].state == Submitted ==>
            i < |t.jobs| && Treated(s.jobs[i], t.jobs[i], s.ledger, t.ledger, p.outcome(i)))
      && (s.ledger.order != [] ==> forall i: nat :: Reached(t.jobs, i, p.block) ==> Stuck(t.ledger, t.jobs[i].spec))
      && IdsRise(s, t)
  {
    hide Books, PassOf, Treated, Stuck, IdsRise, Reached;
    var t := PassOf(s, p);
    forall i: nat | i < |s.jobs| && s.jobs[i].state == Submitted
      ensures i < |t.jobs| && Treated(s.jobs[i], t.jobs[i], s.ledger, t.ledger, p.outcome(i))
    {
      PassTreats(s, p, i);
    }
    forall i: nat | s.ledger.order != [] && Reached(t.jobs, i, p.block)
      ensures i < |t.jobs| && Stuck(t.ledger, t.jobs[i].spec)
    {
      ReachedIn(t.jobs, i, p.block);
      PassLeavesStuck(s, p, i);
    }
    PassIds(s, p);
  }

  lemma ReachedIn(jobs: seq<Job>, i: nat, block: bool)
    requires Reached(jobs, i, block)
    ensures i < |jobs|
  {}

  lemma AfterNothing()
    ensures After([]) == NOTHING_YET
  {}

  lemma AfterNext(events: seq<Event>, n: nat)
    requires n < |events|
    ensures After(events[..n + 1]) == Apply(After(events[..n]), events[n])
  {
    assert events[..n + 1][..n] == events[..n];
  }

  /** A whole run on the object: event by event its state is the one the lemmas above speak of. */
  method RunInline(events: seq<Event>) returns (m: InlineManager, ghost trace: seq<Snap>)
    requires forall e :: e in events ==> e.Allowed()
    ensures fresh(m) && m.Valid() && m.State() == After(events)
    ensures |trace| == |events| + 1 && trace[0] == NOTHING_YET && trace[|events|] == m.State()
    ensures forall n :: 0 <= n < |events| ==> trace[n + 1] == Apply(trace[n], events[n])
    ensures forall n :: 0 <= n <= |events| ==> trace[n] == After(events[..n]) && Books(trace[n])
  {
    hide Books, Apply, After;
    AfterNothing();
    m := new InlineManager();
    trace := [m.State()];
    for n := 0 to |events|
      invariant fresh(m) && m.Valid() && |trace| == n + 1 && trace[0] == NOTHING_YET && trace[n] == m.State()
      invariant forall k :: 0 <= k < n ==> trace[k + 1] == Apply(trace[k], events[k])
      invariant forall k :: 0 <= k <= n ==> trace[k] == After(events[..k]) && Books(trace[k])
    {
      assert events[n] in events;
      AfterNext(events, n);
      m.Handle(events[n]);
      trace := trace + [m.State()];
    }
    assert events[..|events|] == events;
  }
}
