/** The sequential inline path: the books of queue and ledger, what one turn decides, and what one
    schedule pass does to every job. Jobs are numbered by submission and submit times increase with the
    number; ids stand for these numbers, so there are at most 10000 submissions
    (JobIds.QueueIntactIff). */
module Scheduling {
  import opened Jobspec
  import opened Graphs
  import opened CriticalSections
  import M = Matcher
  import Score

  // ---- What a cluster can do for a job ----

  /** Could a placement on this cluster succeed at this moment? */
  predicate HasRoom(l: M.Ledger, id: string, spec: Spec) {
    && id in l.clusters && !l.clusters[id].emulated && M.Feasible(l.clusters[id], spec)
    && (!l.clusters[id].reserves || |M.FreeFitting(l, id, spec)| >= spec.Nodes())
  }

  ghost predicate SomeFeasible(l: M.Ledger, spec: Spec) {
    exists id :: id in l.clusters && M.Feasible(l.clusters[id], spec)
  }

  ghost predicate SomeRoom(l: M.Ledger, spec: Spec) { exists id :: HasRoom(l, id, spec) }

  /** Possible but full: the job can only wait. */
  ghost predicate Stuck(l: M.Ledger, spec: Spec) { SomeFeasible(l, spec) && !SomeRoom(l, spec) }

  /** The same clusters, with nothing given back. */
  ghost predicate Tighter(l0: M.Ledger, l1: M.Ledger) {
    && l1.clusters == l0.clusters && l1.taken.Keys == l0.taken.Keys
    && forall id :: id in l0.taken ==> l0.taken[id] <= l1.taken[id]
  }

  lemma {:induction false} FittingShrinks(g: Graph, ids: seq<nat>, need: Need, busy0: set<nat>, busy1: set<nat>)
    requires Acyclic(g) && busy0 <= busy1
    ensures |M.Fitting(g, ids, need, busy1)| <= |M.Fitting(g, ids, need, busy0)|
  {
    if ids != [] { FittingShrinks(g, ids[..|ids| - 1], need, busy0, busy1); }
  }

  /** A stuck job stays stuck while the pass only takes nodes: skipping it was no loss. */
  lemma StuckStays(l0: M.Ledger, l1: M.Ledger, spec: Spec)
    requires Stuck(l0, spec) && Tighter(l0, l1)
    ensures Stuck(l1, spec)
  {
    hide M.Feasible, M.Fitting;
    forall id ensures !HasRoom(l1, id, spec) {
      assert !HasRoom(l0, id, spec);
      if id in l0.clusters && M.CONTAINMENT in l0.clusters[id].subsystems {
        var g := l0.clusters[id].subsystems[M.CONTAINMENT];
        var busy0, busy1 := if id in l0.taken then l0.taken[id] else {}, if id in l1.taken then l1.taken[id] else {};
        FittingShrinks(g, NodeIds(g), spec.NeedPerNode(), busy0, busy1);
      }
    }
  }

  function Emptied(l: M.Ledger): M.Ledger { l.(taken := map id | id in l.taken :: {}, live := map[]) }

  /** Feasible is the same as free now on an empty ledger: load plays no part in it. */
  lemma FeasibleIsFreeWhenIdle(l: M.Ledger, id: string, spec: Spec)
    requires id in l.clusters
    ensures M.EvaluateOne(Emptied(l), id, spec).freeNow <==> M.Feasible(l.clusters[id], spec)
  {
    hide M.FittingNodes;
    M.EvaluateFeasible(Emptied(l), id, spec);
  }

  // ---- Ledger and records together ----

  predicate Active(st: JobState) { st == Matched || st == Dispatching || st == Running }

  /** Records name distinct minted ids, and every live allocation belongs to an active job. */
  ghost predicate Accounted(jobs: seq<Job>, l: M.Ledger) {
    && (forall i :: 0 <= i < |jobs| && jobs[i].alloc.Some? ==>
        1 <= jobs[i].alloc.value <= l.next && jobs[i].state != Submitted)
    && (forall i, k :: 0 <= i < k < |jobs| && jobs[i].alloc.Some? ==> jobs[k].alloc != jobs[i].alloc)
    && (forall a :: a in l.live ==> exists i :: OwnsLive(jobs, i, a))
  }

  ghost predicate OwnsLive(jobs: seq<Job>, i: nat, a: nat) {
    i < |jobs| && jobs[i].alloc == Some(a) && Active(jobs[i].state)
  }

  // ---- States ----

  /** The queue in submission order, and the matcher's ledger. */
  datatype Snap = Snap(jobs: seq<Job>, ledger: M.Ledger)

  const NOTHING_YET := Snap([], M.EMPTY)

  ghost predicate Books(s: Snap) { M.Inv(s.ledger) && Accounted(s.jobs, s.ledger) }

  lemma RecordOnly(jobs: seq<Job>, l: M.Ledger, i: nat, j: Job)
    requires Accounted(jobs, l) && i < |jobs| && j.alloc == jobs[i].alloc
    requires Active(jobs[i].state) ==> Active(j.state)
    requires j.state == Submitted ==> j.alloc == None
    ensures Accounted(jobs[i := j], l)
  {
    var after := jobs[i := j];
    forall a | a in l.live ensures exists k :: OwnsLive(after, k, a) {
      var k :| OwnsLive(jobs, k, a);
      assert OwnsLive(after, k, a);
    }
  }

  /** Ending a job: its allocation is freed; the record may keep or clear the dead id. */
  lemma Ended(jobs: seq<Job>, l: M.Ledger, i: nat, j: Job)
    requires M.Inv(l) && Accounted(jobs, l) && i < |jobs| && j.state.Terminal()
    requires j.alloc == jobs[i].alloc || j.alloc == None
    ensures var m := if jobs[i].alloc.Some? then M.Free(l, jobs[i].alloc.value) else l;
      M.Inv(m) && Accounted(jobs[i := j], m)
  {
    hide M.Inv;
    var m := if jobs[i].alloc.Some? then M.Free(l, jobs[i].alloc.value) else l;
    if jobs[i].alloc.Some? {
      M.FreeInv(l, jobs[i].alloc.value);
      assert m.next == l.next && m.live == l.live - {jobs[i].alloc.value} by { FreeLive(l, jobs[i].alloc.value); }
    }
    hide M.Free;
    var after := jobs[i := j];
    forall a | a in m.live ensures exists k :: OwnsLive(after, k, a) {
      var k :| OwnsLive(jobs, k, a);
      assert OwnsLive(after, k, a);
    }
  }

  lemma FreeLive(l: M.Ledger, a: nat)
    ensures M.Free(l, a).next == l.next && M.Free(l, a).live == l.live - {a}
  {}

  lemma Granted(jobs: seq<Job>, l: M.Ledger, i: nat, spec: Spec, cluster: string, j: Job)
    requires M.Inv(l) && Accounted(jobs, l) && i < |jobs| && jobs[i].alloc == None
    requires M.Allocate(l, spec, cluster).1.Granted?
    requires j.alloc == Some(M.Allocate(l, spec, cluster).1.id) && Active(j.state)
    ensures M.Inv(M.Allocate(l, spec, cluster).0) && Accounted(jobs[i := j], M.Allocate(l, spec, cluster).0)
  {
    hide M.Inv, M.FittingNodes;
    M.AllocateInv(l, spec, cluster);
    var m, n := M.Allocate(l, spec, cluster).0, l.next + 1;
    assert m.next == n && forall a :: a in m.live ==> a in l.live || a == n;
    var after := jobs[i := j];
    forall a | a in m.live ensures exists k :: OwnsLive(after, k, a) {
      if a == n {
        assert OwnsLive(after, i, a);
      } else {
        var k :| OwnsLive(jobs, k, a);
        assert OwnsLive(after, k, a);
      }
    }
  }

  lemma FleetChanged(jobs: seq<Job>, l: M.Ledger, m: M.Ledger)
    requires Accounted(jobs, l) && m.next == l.next && forall a :: a in m.live ==> a in l.live
    ensures Accounted(jobs, m)
  {}

  /** Conservation: when every job is terminal, every node of every cluster is free again. */
  lemma AllTerminalAllFree(s: Snap, cluster: string, spec: Spec)
    requires Books(s) && cluster in s.ledger.clusters
    requires forall j :: j in s.jobs ==> j.state.Terminal()
    ensures cluster in s.ledger.taken && s.ledger.taken[cluster] == {}
    ensures M.EvaluateOne(s.ledger, cluster, spec).freeNodes
         == |M.FittingNodes(s.ledger.clusters[cluster], spec.NeedPerNode(), {})|
  {
    hide M.FittingNodes, M.Inv;
    forall i: nat, a ensures !OwnsLive(s.jobs, i, a) { assert i < |s.jobs| ==> s.jobs[i] in s.jobs; }
    assert forall a :: a !in s.ledger.live;
    M.NothingHeldNothingTaken(s.ledger, cluster, spec);
  }

  /** What one pass is given: the policy, the scorer, the shuffle and the dispatch outcome for each job. */
  datatype Policy = Policy(
    block: bool, needsFullSet: bool, score: (Spec, M.Candidate) -> real,
    swaps: nat -> seq<(nat, nat)>, outcome: nat -> Option<string>)
  {
    function ScoreFor(spec: Spec): M.Candidate -> real { c => score(spec, c) }
  }

  // ---- Ranking for one visit ----

  lemma CandidateFacts(l: M.Ledger, spec: Spec)
    requires M.Registered(l)
    ensures forall c :: c in M.Evaluate(l, spec) ==>
        c.cluster in l.clusters && (c.feasible <==> M.Feasible(l.clusters[c.cluster], spec))
    ensures forall id :: id in l.clusters ==> exists c :: c in M.Evaluate(l, spec) && c.cluster == id
  {
    hide M.Feasible, M.EvaluateOne;
    var cands := M.Evaluate(l, spec);
    forall c | c in cands ensures c.cluster in l.clusters && (c.feasible <==> M.Feasible(l.clusters[c.cluster], spec)) {
      var i :| 0 <= i < |cands| && cands[i] == c;
      assert l.order[i] in l.clusters;
      OneCandidate(l, l.order[i], spec);
    }
    forall id | id in l.clusters ensures exists c :: c in cands && c.cluster == id {
      assert id in l.order;
      var i :| 0 <= i < |l.order| && l.order[i] == id;
      OneCandidate(l, id, spec);
      assert cands[i] in cands;
    }
  }

  lemma OneCandidate(l: M.Ledger, id: string, spec: Spec)
    requires id in l.clusters
    ensures M.EvaluateOne(l, id, spec).cluster == id
    ensures M.EvaluateOne(l, id, spec).feasible <==> M.Feasible(l.clusters[id], spec)
  {
    hide M.FittingNodes;
  }

  /** Exactly the feasible clusters, in some order. */
  ghost predicate RanksFeasible(l: M.Ledger, spec: Spec, ranked: seq<string>) {
    forall id :: id in ranked <==> id in l.clusters && M.Feasible(l.clusters[id], spec)
  }

  function ClustersOf(cs: seq<M.Candidate>): (ids: seq<string>)
    ensures |ids| == |cs| && forall i :: 0 <= i < |cs| ==> ids[i] == cs[i].cluster
  {
    seq(|cs|, i requires 0 <= i < |cs| => cs[i].cluster)
  }

  lemma ChosenRank(l: M.Ledger, spec: Spec, cands: seq<M.Candidate>, chosen: seq<M.Candidate>, ranked: seq<string>)
    requires forall c :: c in cands ==>
        c.cluster in l.clusters && (c.feasible <==> M.Feasible(l.clusters[c.cluster], spec))
    requires forall id :: id in l.clusters ==> exists c :: c in cands && c.cluster == id
    requires forall c :: c in chosen <==> c in cands && c.feasible
    requires ranked == ClustersOf(chosen)
    ensures RanksFeasible(l, spec, ranked)
  {
    hide M.Feasible;
    forall id ensures id in ranked <==> id in l.clusters && M.Feasible(l.clusters[id], spec) {
      if id in ranked {
        var i :| 0 <= i < |ranked| && ranked[i] == id;
        assert chosen[i] in chosen;
      }
      if id in l.clusters && M.Feasible(l.clusters[id], spec) {
        var c :| c in cands && c.cluster == id;
        assert c in chosen;
        var i :| 0 <= i < |chosen| && chosen[i] == c;
        assert ranked[i] == id;
      }
    }
  }

  /** The feasible clusters in the order they are tried. */
  function Ranked(l: M.Ledger, spec: Spec, p: Policy, i: nat): seq<string>
    requires forall id :: id in l.order ==> id in l.clusters
  {
    ClustersOf(if p.needsFullSet then Score.Cands(Score.Ranking(p.ScoreFor(spec), M.Evaluate(l, spec), p.swaps(i)))
               else Score.FeasibleOnly(M.Evaluate(l, spec), true))
  }

  lemma RankedAreFeasible(l: M.Ledger, spec: Spec, p: Policy, i: nat)
    requires M.Registered(l)
    ensures RanksFeasible(l, spec, Ranked(l, spec, p, i))
  {
    hide M.Feasible, M.EvaluateOne, Score.Ranking, M.Evaluate, Score.FeasibleOnly, RanksFeasible;
    var cands := M.Evaluate(l, spec);
    CandidateFacts(l, spec);
    Score.FeasibleOnlyMembers(cands, true);
    Score.RankingMembers(p.ScoreFor(spec), cands, p.swaps(i));
    var chosen := if p.needsFullSet then Score.Cands(Score.Ranking(p.ScoreFor(spec), cands, p.swaps(i)))
                  else Score.FeasibleOnly(cands, true);
    assert forall c :: c in chosen <==> c in cands && c.feasible;
    ChosenRank(l, spec, cands, chosen, Ranked(l, spec, p, i));
  }

  method Rank(l: M.Ledger, spec: Spec, p: Policy, i: nat) returns (ranked: seq<string>)
    requires M.Registered(l)
    ensures ranked == Ranked(l, spec, p, i) && RanksFeasible(l, spec, ranked)
  {
    hide M.Feasible, M.EvaluateOne, Score.Ranking, M.Evaluate, Score.FeasibleOnly, RanksFeasible, Score.Tied;
    var cands := M.Evaluate(l, spec);
    var chosen := Score.FeasibleOnly(cands, true);
    if p.needsFullSet {
      var r, _ := Score.RankWithTrace(p.ScoreFor(spec), cands, p.swaps(i));
      chosen := Score.Cands(r);
    }
    ranked := ClustersOf(chosen);
    RankedAreFeasible(l, spec, p, i);
  }

  /** The clusters that can really dispatch, in order. */
  function Targets(l: M.Ledger, ranked: seq<string>): seq<string> {
    if ranked == [] then []
    else
      var last := ranked[|ranked| - 1];
      Targets(l, ranked[..|ranked| - 1]) + if last in l.clusters && !l.clusters[last].emulated then [last] else []
  }

  lemma {:induction false} TargetsMembers(l: M.Ledger, ranked: seq<string>)
    ensures forall id :: id in Targets(l, ranked) <==> id in ranked && id in l.clusters && !l.clusters[id].emulated
  {
    if ranked != [] {
      TargetsMembers(l, ranked[..|ranked| - 1]);
      assert ranked == ranked[..|ranked| - 1] + [ranked[|ranked| - 1]];
    }
  }

  method Dispatchable(l: M.Ledger, ranked: seq<string>) returns (targets: seq<string>)
    ensures targets == Targets(l, ranked)
    ensures forall id :: id in targets <==> id in ranked && id in l.clusters && !l.clusters[id].emulated
  {
    targets := [];
    for i := 0 to |ranked|
      invariant targets == Targets(l, ranked[..i])
    {
      assert ranked[..i + 1][..i] == ranked[..i];
      if ranked[i] in l.clusters && !l.clusters[ranked[i]].emulated { targets := targets + [ranked[i]]; }
    }
    assert ranked[..|ranked|] == ranked;
    TargetsMembers(l, ranked);
  }

  function FirstWithRoom(l: M.Ledger, targets: seq<string>, spec: Spec): Option<string> {
    if targets == [] then None
    else if HasRoom(l, targets[0], spec) then Some(targets[0])
    else FirstWithRoom(l, targets[1..], spec)
  }

  lemma {:induction false} FirstWithRoomFacts(l: M.Ledger, targets: seq<string>, spec: Spec)
    ensures match FirstWithRoom(l, targets, spec)
      case Some(id) => id in targets && HasRoom(l, id, spec)
      case None => forall id :: id in targets ==> !HasRoom(l, id, spec)
  {
    hide HasRoom;
    if targets != [] && !HasRoom(l, targets[0], spec) {
      FirstWithRoomFacts(l, targets[1..], spec);
      assert targets == [targets[0]] + targets[1..];
    }
  }

  datatype Visit = Failed | Waiting | Placed(cluster: string)

  /** What a visit does with a waiting job: the best-ranked dispatch target with room gets it. */
  function Choice(l: M.Ledger, spec: Spec, p: Policy, i: nat): Visit
    requires forall id :: id in l.order ==> id in l.clusters
  {
    var ranked := Ranked(l, spec, p, i);
    if ranked == [] then Visit.Failed
    else match FirstWithRoom(l, Targets(l, ranked), spec)
      case None => Waiting
      case Some(id) => Placed(id)
  }

  /** For every scorer and shuffle a job fails iff no cluster could ever hold it, is placed iff some
      feasible dispatch target has room at this moment, and otherwise waits. */
  lemma ChoiceMeaning(l: M.Ledger, spec: Spec, p: Policy, i: nat)
    requires M.Registered(l)
    ensures Choice(l, spec, p, i).Failed? <==> !SomeFeasible(l, spec)
    ensures Choice(l, spec, p, i).Placed? <==> SomeRoom(l, spec)
    ensures Choice(l, spec, p, i).Placed? ==> HasRoom(l, Choice(l, spec, p, i).cluster, spec)
    ensures Choice(l, spec, p, i).Waiting? <==> Stuck(l, spec)
  {
    hide M.Feasible, Ranked;
    var ranked := Ranked(l, spec, p, i);
    RankedAreFeasible(l, spec, p, i);
    TargetsMembers(l, ranked);
    FirstWithRoomFacts(l, Targets(l, ranked), spec);
    if ranked == [] {
      NoneFeasible(l, spec, ranked);
    } else {
      RankedFeasible(l, spec, ranked, ranked[0]);
      TargetsHaveRoom(l, spec, ranked);
    }
  }

  /** Whatever has room is among the targets. */
  lemma TargetsHaveRoom(l: M.Ledger, spec: Spec, ranked: seq<string>)
    requires RanksFeasible(l, spec, ranked)
    ensures forall id :: HasRoom(l, id, spec) ==> id in Targets(l, ranked)
  {
    hide M.Feasible;
    TargetsMembers(l, ranked);
  }

  lemma AllocateIffRoom(l: M.Ledger, id: string, spec: Spec)
    requires id in l.clusters && !l.clusters[id].emulated && M.Feasible(l.clusters[id], spec)
    ensures M.Allocate(l, spec, id).1.Granted? <==> HasRoom(l, id, spec)
    ensures M.Allocate(l, spec, id).1.Granted? ==> M.Allocate(l, spec, id).1.id == l.next + 1
    ensures M.Allocate(l, spec, id).0.clusters == l.clusters && M.Allocate(l, spec, id).0.order == l.order
  {
    hide M.FittingNodes;
  }

  /** What the matcher holds after a placement: a failed dispatch has handed its nodes back. */
  function Taken(l: M.Ledger, spec: Spec, cluster: string, outcome: Option<string>): M.Ledger {
    if outcome.Some? then M.Allocate(l, spec, cluster).0 else l.(next := l.next + 1)
  }

  // ---- One turn ----

  /** A placed job's record after its dispatch attempt. */
  function Dispatched(j: Job, a: nat, cluster: string, outcome: Option<string>): Job {
    var placed := j.(alloc := Some(a), cluster := cluster);
    match outcome
    case None => placed.(state := JobState.Failed)
    case Some(h) => placed.(state := Running, handle := h)
  }

  function AfterVisit(s: Snap, i: nat, v: Visit, outcome: Option<string>): Snap {
    if i >= |s.jobs| then s
    else match v
      case Waiting => s
      case Failed => s.(jobs := s.jobs[i := s.jobs[i].(state := JobState.Failed)])
      case Placed(id) =>
        Snap(s.jobs[i := Dispatched(s.jobs[i], s.ledger.next + 1, id, outcome)],
             Taken(s.ledger, s.jobs[i].spec, id, outcome))
  }

  ghost function VisitOf(s: Snap, i: nat, p: Policy): Visit {
    if i < |s.jobs| && forall id :: id in s.ledger.order ==> id in s.ledger.clusters
    then Choice(s.ledger, s.jobs[i].spec, p, i) else Waiting
  }

  ghost function TurnOf(s: Snap, i: nat, p: Policy): Snap { AfterVisit(s, i, VisitOf(s, i, p), p.outcome(i)) }

  ghost predicate Keeps(live0: map<nat, M.Live>, live: map<nat, M.Live>) {
    forall a :: a in live0 ==> a in live && live[a] == live0[a]
  }

  /** From one state of a pass to a later one: nothing is given back. */
  ghost predicate Onward(s: Snap, t: Snap) {
    && |t.jobs| == |s.jobs| && Tighter(s.ledger, t.ledger) && t.ledger.order == s.ledger.order
    && Keeps(s.ledger.live, t.ledger.live) && s.ledger.next <= t.ledger.next
  }

  lemma TakenTightens(l: M.Ledger, spec: Spec, id: string, outcome: Option<string>)
    requires M.Inv(l)
    ensures var m := Taken(l, spec, id, outcome); Tighter(l, m) && m.order == l.order && Keeps(l.live, m.live)
  {
    hide M.FittingNodes;
  }

  lemma OnwardTrans(s: Snap, t: Snap, u: Snap)
    requires Onward(s, t) && Onward(t, u)
    ensures Onward(s, u)
  {}

  lemma StayPut(s: Snap)
    ensures Onward(s, s)
  {}

  /** A placement keeps the books, whether its dispatch succeeds or not. */
  lemma PlacedBooks(s: Snap, i: nat, id: string, outcome: Option<string>)
    requires Books(s) && i < |s.jobs| && s.jobs[i].alloc == None && HasRoom(s.ledger, id, s.jobs[i].spec)
    ensures Books(AfterVisit(s, i, Placed(id), outcome)) && Onward(s, AfterVisit(s, i, Placed(id), outcome))
    ensures AfterVisit(s, i, Placed(id), outcome).ledger.next == s.ledger.next + 1
  {
    hide M.Inv, M.Feasible, HasRoom, M.Allocate, M.Free, Accounted;
    var spec, l := s.jobs[i].spec, s.ledger;
    RoomIsFeasible(l, id, spec);
    AllocateIffRoom(l, id, spec);
    GrantNext(l, spec, id);
    var m, a := M.Allocate(l, spec, id).0, M.Allocate(l, spec, id).1.id;
    var j := s.jobs[i].(state := Matched, alloc := Some(a), cluster := id);
    Granted(s.jobs, l, i, spec, id, j);
    TakenTightens(l, spec, id, outcome);
    var jobs := s.jobs[i := j];
    match outcome {
      case Some(h) =>
        RecordOnly(jobs, m, i, j.(state := Running, handle := h));
        assert jobs[i := j.(state := Running, handle := h)] == s.jobs[i := j.(state := Running, handle := h)];
      case None =>
        Ended(jobs, m, i, j.(state := JobState.Failed));
        M.FreeUndoesAllocate(l, spec, id);
        assert jobs[i := j.(state := JobState.Failed)] == s.jobs[i := j.(state := JobState.Failed)];
    }
  }

  lemma RoomIsFeasible(l: M.Ledger, id: string, spec: Spec)
    requires HasRoom(l, id, spec)
    ensures id in l.clusters && !l.clusters[id].emulated && M.Feasible(l.clusters[id], spec)
  {}

  lemma GrantNext(l: M.Ledger, spec: Spec, id: string)
    requires M.Allocate(l, spec, id).1.Granted?
    ensures M.Allocate(l, spec, id).0.next == l.next + 1
  {}

  /** What one turn does and what it leaves alone. */
  lemma TurnFacts(s: Snap, i: nat, p: Policy)
    requires Books(s) && i < |s.jobs| && s.jobs[i].state == Submitted
    ensures var t, v := TurnOf(s, i, p), VisitOf(s, i, p);
      && Books(t) && Onward(s, t) && (forall x :: 0 <= x < |s.jobs| && x != i ==> t.jobs[x] == s.jobs[x])
      && (v.Failed? <==> !SomeFeasible(s.ledger, s.jobs[i].spec))
      && (v.Placed? ==> HasRoom(s.ledger, v.cluster, s.jobs[i].spec) && t.ledger.next == s.ledger.next + 1)
      && (v.Waiting? <==> Stuck(s.ledger, s.jobs[i].spec))
      && (t.jobs[i].state == Submitted <==> v.Waiting?) && (t.jobs[i].alloc.Some? <==> v.Placed?)
  {
    hide M.Inv, M.Feasible, HasRoom, Choice, Accounted, SomeFeasible, SomeRoom, Onward, Taken;
    assert M.Registered(s.ledger) by { InvRegistered(s.ledger); }
    NoneYet(s, i);
    ChoiceMeaning(s.ledger, s.jobs[i].spec, p, i);
    StayPut(s);
    match VisitOf(s, i, p) {
      case Waiting =>
      case Failed =>
        RecordOnly(s.jobs, s.ledger, i, s.jobs[i].(state := JobState.Failed));
        OnlyRecords(s, s.jobs[i := s.jobs[i].(state := JobState.Failed)]);
      case Placed(id) => PlacedBooks(s, i, id, p.outcome(i));
    }
  }

  lemma OnlyRecords(s: Snap, jobs: seq<Job>)
    requires |jobs| == |s.jobs|
    ensures Onward(s, s.(jobs := jobs))
  {}

  lemma NoneYet(s: Snap, i: nat)
    requires Books(s) && i < |s.jobs| && s.jobs[i].state == Submitted
    ensures s.jobs[i].alloc == None
  {}

  // ---- A pass ----

  /** The waiting jobs, oldest first. */
  function WaitingIn(jobs: seq<Job>): seq<nat> {
    if jobs == [] then []
    else WaitingIn(jobs[..|jobs| - 1]) + if jobs[|jobs| - 1].state == Submitted then [|jobs| - 1] else []
  }

  ghost predicate WaitingAt(jobs: seq<Job>, waiting: seq<nat>) {
    && (forall q :: 0 <= q < |waiting| ==> waiting[q] < |jobs| && jobs[waiting[q]].state == Submitted)
    && (forall q, r :: 0 <= q < r < |waiting| ==> waiting[q] < waiting[r])
    && (forall k :: 0 <= k < |jobs| && jobs[k].state == Submitted ==> k in waiting)
  }

  lemma {:induction false} WaitingExact(jobs: seq<Job>)
    ensures WaitingAt(jobs, WaitingIn(jobs))
  {
    if jobs != [] {
      var front := jobs[..|jobs| - 1];
      WaitingExact(front);
      forall k | 0 <= k < |jobs| && jobs[k].state == Submitted ensures k in WaitingIn(jobs) {
        if k < |front| { assert front[k] == jobs[k] && k in WaitingIn(front); }
      }
    }
  }

  /** The state after the first `k` turns. */
  ghost function StateAfter(s: Snap, w: seq<nat>, p: Policy, k: nat): Snap
    requires k <= |w|
  {
    if k == 0 then s else TurnOf(StateAfter(s, w, p, k - 1), w[k - 1], p)
  }

  /** How many jobs get a turn: with head-of-line blocking the first job left waiting ends the pass. */
  ghost function StopAt(s: Snap, w: seq<nat>, p: Policy, k: nat): (n: nat)
    requires k <= |w|
    ensures k <= n <= |w|
    decreases |w| - k
  {
    if k == |w| then k
    else if p.block && VisitOf(StateAfter(s, w, p, k), w[k], p).Waiting? then k + 1
    else StopAt(s, w, p, k + 1)
  }

  ghost function Visited(s: Snap, p: Policy): (n: nat)
    ensures n <= |WaitingIn(s.jobs)|
  {
    if s.ledger.order == [] then 0 else StopAt(s, WaitingIn(s.jobs), p, 0)
  }

  /** The k-th state of a pass, and the state it ends in. */
  ghost function PassState(s: Snap, p: Policy, k: nat): Snap
    requires k <= |WaitingIn(s.jobs)|
  {
    StateAfter(s, WaitingIn(s.jobs), p, k)
  }

  ghost function PassOf(s: Snap, p: Policy): Snap { PassState(s, p, Visited(s, p)) }

  lemma {:induction false} StopFacts(s: Snap, w: seq<nat>, p: Policy, k: nat)
    requires k <= |w|
    ensures var n := StopAt(s, w, p, k);
      && (p.block ==> forall q :: k <= q < n - 1 ==> !VisitOf(StateAfter(s, w, p, q), w[q], p).Waiting?)
      && (n < |w| ==> p.block && n > k && VisitOf(StateAfter(s, w, p, n - 1), w[n - 1], p).Waiting?)
    decreases |w| - k
  {
    hide StateAfter, VisitOf;
    if k < |w| && !(p.block && VisitOf(StateAfter(s, w, p, k), w[k], p).Waiting?) { StopFacts(s, w, p, k + 1); }
  }

  /** Between two states of a pass nothing is given back, and only the jobs between `j` and `k` in the
      waiting list have changed. */
  ghost predicate Between(s: Snap, a: Snap, b: Snap, w: seq<nat>, j: nat, k: nat) {
    && j <= k <= |w| && |a.jobs| == |b.jobs| == |s.jobs| && Onward(a, b)
    && forall x :: 0 <= x < |s.jobs| && x !in w[j..k] ==> b.jobs[x] == a.jobs[x]
  }

  lemma BetweenStep(s: Snap, a: Snap, b: Snap, c: Snap, w: seq<nat>, j: nat, k: nat)
    requires k < |w| && Between(s, a, b, w, j, k) && Onward(b, c) && |c.jobs| == |s.jobs|
    requires forall x :: 0 <= x < |s.jobs| && x != w[k] ==> c.jobs[x] == b.jobs[x]
    ensures Between(s, a, c, w, j, k + 1)
  {
    hide Onward;
    OnwardTrans(a, b, c);
    assert w[j..k + 1] == w[j..k] + [w[k]];
  }

  lemma BetweenSame(s: Snap, a: Snap, w: seq<nat>, j: nat)
    requires j <= |w| && |a.jobs| == |s.jobs|
    ensures Between(s, a, a, w, j, j)
  {
    StayPut(a);
  }

  lemma NotYetItsTurn(s: Snap, b: Snap, w: seq<nat>, k: nat)
    requires WaitingAt(s.jobs, w) && k < |w| && Between(s, s, b, w, 0, k)
    ensures w[k] < |b.jobs| && b.jobs[w[k]] == s.jobs[w[k]] && b.jobs[w[k]].state == Submitted
  {
    assert w[k] !in w[0..k];
  }

  lemma {:induction false} TurnsBetween(s: Snap, w: seq<nat>, p: Policy, j: nat, k: nat)
    requires Books(s) && WaitingAt(s.jobs, w) && j <= k <= |w|
    ensures var a, b := StateAfter(s, w, p, j), StateAfter(s, w, p, k);
      StateAfter(s, w, p, 0) == s && Books(a) && Books(b) && Between(s, a, b, w, j, k)
    decreases k, j
  {
    hide Books, TurnOf, VisitOf, Between, Onward, StateAfter, WaitingAt, SomeFeasible, Stuck, HasRoom;
    StateZero(s, w, p);
    if j < k {
      TurnsBetween(s, w, p, j, k - 1);
      TurnsBetween(s, w, p, 0, k - 1);
      TurnIsNext(s, w, p, k - 1);
      var a, b := StateAfter(s, w, p, j), StateAfter(s, w, p, k - 1);
      NotYetItsTurn(s, b, w, k - 1);
      TurnFacts(b, w[k - 1], p);
      SameCount(b, StateAfter(s, w, p, k));
      BetweenCount(s, a, b, w, j, k - 1);
      BetweenStep(s, a, b, StateAfter(s, w, p, k), w, j, k - 1);
    } else if j > 0 {
      TurnsBetween(s, w, p, 0, k);
      BetweenCount(s, s, StateAfter(s, w, p, k), w, 0, k);
      BetweenSame(s, StateAfter(s, w, p, k), w, k);
    } else {
      BetweenSame(s, s, w, 0);
    }
  }

  lemma StateZero(s: Snap, w: seq<nat>, p: Policy)
    ensures StateAfter(s, w, p, 0) == s
  {}

  lemma BetweenCount(s: Snap, a: Snap, b: Snap, w: seq<nat>, j: nat, k: nat)
    requires Between(s, a, b, w, j, k)
    ensures |a.jobs| == |b.jobs| == |s.jobs|
  {}

  lemma SameCount(s: Snap, t: Snap)
    requires Onward(s, t)
    ensures |t.jobs| == |s.jobs|
  {}

  // ---- What a pass does ----

  /** At a job's turn, every earlier job still waiting is stuck at that very moment, and under blocking
      there is none. A grant is made in a turn, so this is the order of grants. */
  lemma PassFair(s: Snap, p: Policy, k: nat)
    requires Books(s) && k < Visited(s, p)
    ensures var a, i := PassState(s, p, k), WaitingIn(s.jobs)[k];
      && i < |a.jobs| == |s.jobs| && a.jobs[i] == s.jobs[i] && a.jobs[i].state == Submitted
      && (forall e :: 0 <= e < i && a.jobs[e].state == Submitted ==> Stuck(a.ledger, a.jobs[e].spec))
      && (p.block ==> forall e :: 0 <= e < i ==> a.jobs[e].state != Submitted)
  {
    hide Books, Onward, TurnOf, StopAt, Stuck, StateAfter, Between;
    var w := WaitingIn(s.jobs);
    WaitingExact(s.jobs);
    TurnsBetween(s, w, p, 0, k);
    var a := PassState(s, p, k);
    NotYetItsTurn(s, a, w, k);
    BetweenCount(s, s, a, w, 0, k);
    forall e: nat | e < w[k] && a.jobs[e].state == Submitted ensures Stuck(a.ledger, a.jobs[e].spec) && !p.block {
      StillWaiting(s, p, k, e);
    }
  }

  /** Whoever waits in a later state of the pass was waiting at its start. */
  lemma WaitersKnown(s: Snap, b: Snap, w: seq<nat>, k: nat)
    requires WaitingAt(s.jobs, w) && Between(s, s, b, w, 0, k)
    ensures forall e :: 0 <= e < |s.jobs| && b.jobs[e].state == Submitted ==> e in w
  {
    forall e: nat | e < |s.jobs| && e !in w ensures b.jobs[e].state != Submitted {
      assert e !in w[0..k];
    }
  }

  /** A job that waits at a later job's turn was left waiting at its own. */
  lemma StillWaiting(s: Snap, p: Policy, k: nat, e: nat)
    requires Books(s) && k < Visited(s, p) && e < WaitingIn(s.jobs)[k]
    requires e < |s.jobs| == |PassState(s, p, k).jobs| && PassState(s, p, k).jobs[e].state == Submitted
    ensures Stuck(PassState(s, p, k).ledger, PassState(s, p, k).jobs[e].spec)
    ensures !p.block
  {
    hide Books, Onward, TurnOf, StopAt, Stuck, Between, StateAfter;
    var w, a := WaitingIn(s.jobs), PassState(s, p, k);
    WaitingExact(s.jobs);
    TurnsBetween(s, w, p, 0, k);
    WaitersKnown(s, a, w, k);
    var q :| 0 <= q < |w| && w[q] == e;
    OwnTurn(s, p, q, k);
    StopFacts(s, w, p, 0);
  }

  /** After its turn a job's record stays as the turn left it, and stuck jobs stay stuck. */
  lemma OwnTurn(s: Snap, p: Policy, q: nat, k: nat)
    requires Books(s) && q < k <= |WaitingIn(s.jobs)|
    ensures var w, a, b := WaitingIn(s.jobs), PassState(s, p, q), PassState(s, p, k);
      && Books(a) && w[q] < |s.jobs| == |a.jobs| == |b.jobs|
      && a.jobs[w[q]] == s.jobs[w[q]] && s.jobs[w[q]].state == Submitted
      && b.jobs[w[q]] == TurnOf(a, w[q], p).jobs[w[q]]
      && (b.jobs[w[q]].state == Submitted <==> VisitOf(a, w[q], p).Waiting?)
      && (VisitOf(a, w[q], p).Waiting? ==> Stuck(b.ledger, b.jobs[w[q]].spec))
  {
    hide Books, VisitOf, AfterVisit, TurnOf, Stuck, Choice, StateAfter, Between, Onward, SomeFeasible, HasRoom;
    var w := WaitingIn(s.jobs);
    WaitingExact(s.jobs);
    TurnsBetween(s, w, p, 0, q);
    var a, c, b := PassState(s, p, q), PassState(s, p, q + 1), PassState(s, p, k);
    NotYetItsTurn(s, a, w, q);
    TurnFacts(a, w[q], p);
    TurnIsNext(s, w, p, q);
    TurnsBetween(s, w, p, q + 1, k);
    NoMoreTurns(s, c, b, w, q, k);
    BetweenCount(s, s, a, w, 0, q);
    if VisitOf(a, w[q], p).Waiting? {
      WaitingLeaves(a, w[q], p);
      BetweenTighter(s, c, b, w, q + 1, k);
      StuckStays(c.ledger, b.ledger, s.jobs[w[q]].spec);
    }
  }

  lemma NoMoreTurns(s: Snap, c: Snap, b: Snap, w: seq<nat>, q: nat, k: nat)
    requires WaitingAt(s.jobs, w) && q < k && Between(s, c, b, w, q + 1, k)
    ensures w[q] < |s.jobs| == |c.jobs| == |b.jobs| && b.jobs[w[q]] == c.jobs[w[q]]
  {
    assert w[q] !in w[q + 1..k];
  }

  lemma BetweenTighter(s: Snap, a: Snap, b: Snap, w: seq<nat>, j: nat, k: nat)
    requires Between(s, a, b, w, j, k)
    ensures Tighter(a.ledger, b.ledger) && Keeps(a.ledger.live, b.ledger.live) && a.ledger.next <= b.ledger.next
    ensures a.ledger.clusters == b.ledger.clusters && Onward(a, b)
  {}

  lemma WaitingLeaves(s: Snap, i: nat, p: Policy)
    ensures VisitOf(s, i, p).Waiting? ==> TurnOf(s, i, p) == s
  {}

  /** Before job `i` no job waits, where that matters. */
  ghost predicate Clear(jobs: seq<Job>, i: nat, block: bool) {
    block ==> forall e :: 0 <= e < i && e < |jobs| ==> jobs[e].state != Submitted
  }

  /** Waiting, and not behind another waiting job when the policy blocks. */
  ghost predicate Reached(jobs: seq<Job>, i: nat, block: bool) {
    i < |jobs| && jobs[i].state == Submitted && Clear(jobs, i, block)
  }

  /** A placed job names its allocation and cluster, and is Running under the handle its dispatch returned,
      or Failed if the dispatch failed; the rest of its record is what it was. */
  predicate Started(j0: Job, j: Job, outcome: Option<string>, a: nat, cluster: string) {
    && j.alloc == Some(a) && j.cluster == cluster && j.spec == j0.spec && j.reschedules == j0.reschedules
    && j.state == (if outcome.Some? then Running else JobState.Failed)
    && j.handle == (if outcome.Some? then outcome.value else j0.handle)
  }

  /** Nodes granted in a pass that ended in `l`: a fresh id, on a cluster that could hold the job and
      does so now if the dispatch succeeded. */
  ghost predicate GrantedIn(j0: Job, j: Job, l0: M.Ledger, l: M.Ledger, outcome: Option<string>, a: nat,
                            cluster: string) {
    && l0.next < a <= l.next && Started(j0, j, outcome, a, cluster)
    && cluster in l0.clusters && !l0.clusters[cluster].emulated && M.Feasible(l0.clusters[cluster], j0.spec)
    && (outcome.Some? && l0.clusters[cluster].reserves ==>
          a in l.live && l.live[a].cluster == cluster && |l.live[a].nodes| == j0.spec.Nodes())
  }

  /** The three things a pass may do to a waiting job. */
  ghost predicate Treated(j0: Job, j: Job, l0: M.Ledger, l: M.Ledger, outcome: Option<string>) {
    || j == j0
    || (j == j0.(state := JobState.Failed) && !SomeFeasible(l0, j0.spec))
    || (exists a, cluster :: GrantedIn(j0, j, l0, l, outcome, a, cluster))
  }

  ghost predicate GrantedNow(s: Snap, t: Snap, i: nat) {
    i < |s.jobs| == |t.jobs| && s.jobs[i].state == Submitted && t.jobs[i].alloc.Some?
  }

  /** Of two jobs granted in the pass the lower-numbered one has the smaller id, and all are new. */
  ghost predicate IdsRise(s: Snap, t: Snap) {
    && |t.jobs| == |s.jobs|
    && (forall i: nat :: GrantedNow(s, t, i) ==> s.ledger.next < t.jobs[i].alloc.value <= t.ledger.next)
    && (forall i, k :: 0 <= i < k < |s.jobs| && GrantedNow(s, t, i) && GrantedNow(s, t, k) ==>
          t.jobs[i].alloc.value < t.jobs[k].alloc.value)
  }

  /** The position of a waiting job, and whether it got a turn. */
  lemma TurnNumber(s: Snap, p: Policy, i: nat) returns (q: nat)
    requires i < |s.jobs| && s.jobs[i].state == Submitted
    ensures q < |WaitingIn(s.jobs)| && WaitingIn(s.jobs)[q] == i
  {
    WaitingExact(s.jobs);
    q :| q < |WaitingIn(s.jobs)| && WaitingIn(s.jobs)[q] == i;
  }

  lemma PassKeeps(s: Snap, p: Policy)
    requires Books(s)
    ensures var t := PassOf(s, p);
      && Books(t) && Onward(s, t)
      && (forall i :: 0 <= i < |s.jobs| && s.jobs[i].state != Submitted ==> t.jobs[i] == s.jobs[i])
      && (s.ledger.order == [] ==> t == s)
  {
    hide Books, Onward, TurnOf, StopAt, StateAfter;
    var w, n := WaitingIn(s.jobs), Visited(s, p);
    WaitingExact(s.jobs);
    TurnsBetween(s, w, p, 0, n);
    forall i: nat | i < |s.jobs| && s.jobs[i].state != Submitted ensures i !in w[0..n] {
      assert i in w[0..n] ==> i in w;
    }
  }

  /** No turn for this job: its record is as it was. */
  lemma NoTurn(s: Snap, p: Policy, q: nat)
    requires Books(s) && Visited(s, p) <= q < |WaitingIn(s.jobs)|
    ensures var i := WaitingIn(s.jobs)[q]; i < |s.jobs| == |PassOf(s, p).jobs| && PassOf(s, p).jobs[i] == s.jobs[i]
  {
    hide Books, Onward, TurnOf, StopAt, StateAfter;
    var w, n := WaitingIn(s.jobs), Visited(s, p);
    WaitingExact(s.jobs);
    TurnsBetween(s, w, p, 0, n);
    assert w[q] !in w[0..n];
  }

  /** A turn that grants nodes: the id is the next one, and what was granted is still held afterwards. */
  lemma TurnGrants(a: Snap, i: nat, p: Policy, l: M.Ledger)
    requires Books(a) && i < |a.jobs| && a.jobs[i].state == Submitted && VisitOf(a, i, p).Placed?
    requires l.clusters == a.ledger.clusters && Keeps(TurnOf(a, i, p).ledger.live, l.live) && a.ledger.next < l.next
    ensures forall l0: M.Ledger :: l0.clusters == a.ledger.clusters && l0.next <= a.ledger.next ==>
      GrantedIn(a.jobs[i], TurnOf(a, i, p).jobs[i], l0, l, p.outcome(i), a.ledger.next + 1, VisitOf(a, i, p).cluster)
  {
    hide M.Inv, M.Feasible, Choice, Accounted, HasRoom, M.FittingNodes, Dispatched, VisitOf, M.Allocate, Started;
    var id, spec := VisitOf(a, i, p).cluster, a.jobs[i].spec;
    TurnFacts(a, i, p);
    DispatchedStarts(a.jobs[i], a.ledger.next + 1, id, p.outcome(i));
    RoomIsFeasible(a.ledger, id, spec);
    if p.outcome(i).Some? && a.ledger.clusters[id].reserves { HeldAfter(a.ledger, spec, id); }
  }

  lemma DispatchedStarts(j: Job, a: nat, cluster: string, outcome: Option<string>)
    ensures Started(j, Dispatched(j, a, cluster, outcome), outcome, a, cluster)
  {}

  lemma HeldAfter(l: M.Ledger, spec: Spec, id: string)
    requires M.Inv(l) && HasRoom(l, id, spec) && l.clusters[id].reserves
    ensures var m, a := M.Allocate(l, spec, id).0, l.next + 1;
      a in m.live && m.live[a].cluster == id && |m.live[a].nodes| == spec.Nodes()
  {
    hide M.FittingNodes, M.Inv, M.Feasible;
  }

  /** What becomes of each waiting job. */
  lemma PassTreats(s: Snap, p: Policy, i: nat)
    requires Books(s) && i < |s.jobs| && s.jobs[i].state == Submitted
    ensures var t := PassOf(s, p);
      i < |t.jobs| && Treated(s.jobs[i], t.jobs[i], s.ledger, t.ledger, p.outcome(i))
  {
    hide Books, Onward, StopAt, GrantedIn, SomeFeasible, Stuck, VisitOf, AfterVisit, Dispatched;
    var w, n, t := WaitingIn(s.jobs), Visited(s, p), PassOf(s, p);
    var q := TurnNumber(s, p, i);
    if q >= n {
      NoTurn(s, p, q);
    } else {
      OwnTurn(s, p, q, n);
      TurnResult(s, p, q);
    }
  }

  lemma TurnResult(s: Snap, p: Policy, q: nat)
    requires Books(s) && q < Visited(s, p)
    ensures var i, t := WaitingIn(s.jobs)[q], PassOf(s, p);
      && i < |s.jobs| == |t.jobs| && Treated(s.jobs[i], t.jobs[i], s.ledger, t.ledger, p.outcome(i))
      && (VisitOf(PassState(s, p, q), i, p).Placed? ==>
            t.jobs[i].alloc == Some(PassState(s, p, q).ledger.next + 1)
            && PassState(s, p, q).ledger.next < PassState(s, p, q + 1).ledger.next)
      && (t.jobs[i].alloc.Some? ==> VisitOf(PassState(s, p, q), i, p).Placed?)
      && (t.jobs[i].state == Submitted <==> VisitOf(PassState(s, p, q), i, p).Waiting?)
      && (VisitOf(PassState(s, p, q), i, p).Failed? ==> t.jobs[i] == s.jobs[i].(state := JobState.Failed))
      && (VisitOf(PassState(s, p, q), i, p).Failed? <==> !SomeFeasible(s.ledger, s.jobs[i].spec))
  {
    hide Books, StopAt, GrantedIn, SomeFeasible, Stuck, VisitOf, StateAfter, Tighter, HasRoom, Keeps, Taken, Between,
         Onward;
    var w, n, t, a := WaitingIn(s.jobs), Visited(s, p), PassOf(s, p), PassState(s, p, q);
    var i, v := w[q], VisitOf(a, w[q], p);
    WaitingExact(s.jobs);
    OwnTurn(s, p, q, n);
    TurnFacts(a, i, p);
    TurnIsNext(s, w, p, q);
    TurnsBetween(s, w, p, 0, q);
    BetweenTighter(s, s, a, w, 0, q);
    TurnsBetween(s, w, p, q + 1, n);
    BetweenTighter(s, PassState(s, p, q + 1), t, w, q + 1, n);
    TurnsBetween(s, w, p, q, n);
    BetweenTighter(s, a, t, w, q, n);
    SameFeasible(s.ledger, a.ledger, s.jobs[i].spec);
    NoneYet(s, i);
    if v.Placed? {
      TurnGrants(a, i, p, t.ledger);
      assert GrantedIn(s.jobs[i], t.jobs[i], s.ledger, t.ledger, p.outcome(i), a.ledger.next + 1, v.cluster);
    }
  }

  lemma TurnIsNext(s: Snap, w: seq<nat>, p: Policy, q: nat)
    requires q < |w|
    ensures StateAfter(s, w, p, q + 1) == TurnOf(StateAfter(s, w, p, q), w[q], p)
  {}

  /** A pass leaves no work undone: a job still waiting that the policy let it reach is stuck, with
      everything the pass placed in place. */
  lemma PassLeavesStuck(s: Snap, p: Policy, i: nat)
    requires Books(s) && s.ledger.order != [] && Reached(PassOf(s, p).jobs, i, p.block)
    ensures Stuck(PassOf(s, p).ledger, PassOf(s, p).jobs[i].spec)
  {
    hide Books, Onward, StopAt, Stuck, VisitOf, AfterVisit, StateAfter, TurnOf;
    var t := PassOf(s, p);
    PassKeeps(s, p);
    SameCount(s, t);
    assert s.jobs[i].state == Submitted;
    var q := TurnNumber(s, p, i);
    if q < Visited(s, p) { OwnTurn(s, p, q, Visited(s, p)); } else { BehindTheBlocker(s, p, q); }
  }

  /** Jobs without a turn stand behind the one the pass stopped at. */
  lemma BehindTheBlocker(s: Snap, p: Policy, q: nat)
    requires Books(s) && s.ledger.order != [] && Visited(s, p) <= q < |WaitingIn(s.jobs)|
    ensures p.block && !Reached(PassOf(s, p).jobs, WaitingIn(s.jobs)[q], true)
  {
    hide Books, Onward, StopAt, Stuck, VisitOf, AfterVisit, StateAfter, TurnOf;
    var w, n := WaitingIn(s.jobs), Visited(s, p);
    WaitingExact(s.jobs);
    StopFacts(s, w, p, 0);
    OwnTurn(s, p, n - 1, n);
    assert w[n - 1] < w[q];
  }

  /** A job fails in a pass exactly when no cluster could ever hold it and no blocked job stands before it. */
  lemma PassFails(s: Snap, p: Policy, i: nat)
    requires Books(s) && s.ledger.order != [] && i < |s.jobs| && s.jobs[i].state == Submitted
    ensures var t := PassOf(s, p);
      && i < |t.jobs|
      && (t.jobs[i] == s.jobs[i].(state := JobState.Failed)
          <==> !SomeFeasible(s.ledger, s.jobs[i].spec) && Clear(t.jobs, i, p.block))
  {
    hide Books, Onward, StopAt, SomeFeasible, SomeRoom, VisitOf, AfterVisit, StateAfter, Treated, Tighter;
    var t := PassOf(s, p);
    PassKeeps(s, p);
    SameCount(s, t);
    NoneYet(s, i);
    StillFeasible(s, t, s.jobs[i].spec);
    var q := TurnNumber(s, p, i);
    if q < Visited(s, p) { TurnResult(s, p, q); } else { NoTurn(s, p, q); }
    if t.jobs[i] == s.jobs[i] && Clear(t.jobs, i, p.block) { PassLeavesStuck(s, p, i); }
    if t.jobs[i] != s.jobs[i] && p.block {
      forall e: nat | e < i ensures t.jobs[e].state != Submitted {
        if t.jobs[e].state == Submitted { PassBlocks(s, p, e, i); }
      }
    }
  }

  lemma StillFeasible(s: Snap, t: Snap, spec: Spec)
    requires Onward(s, t)
    ensures SomeFeasible(s.ledger, spec) == SomeFeasible(t.ledger, spec)
  {}

  /** Under blocking, nothing behind a job that still waits has changed. */
  lemma PassBlocks(s: Snap, p: Policy, i: nat, k: nat)
    requires Books(s) && p.block && i < k < |s.jobs| == |PassOf(s, p).jobs| && PassOf(s, p).jobs[i].state == Submitted
    ensures PassOf(s, p).jobs[k] == s.jobs[k]
  {
    hide Books, Onward, StopAt, VisitOf, AfterVisit, StateAfter;
    var w, n := WaitingIn(s.jobs), Visited(s, p);
    PassKeeps(s, p);
    WaitingExact(s.jobs);
    if s.jobs[k].state == Submitted {
      var q := TurnNumber(s, p, i);
      var r := TurnNumber(s, p, k);
      StopFacts(s, w, p, 0);
      if q < n { OwnTurn(s, p, q, n); }
      assert q < r;
      NoTurn(s, p, r);
    }
  }

  /** Ids rise with the job number within a pass. */
  lemma PassIds(s: Snap, p: Policy)
    requires Books(s)
    ensures IdsRise(s, PassOf(s, p))
  {
    hide Books, StopAt, VisitOf, AfterVisit, StateAfter, Treated, Tighter, Keeps, SomeFeasible;
    var w, t := WaitingIn(s.jobs), PassOf(s, p);
    PassKeeps(s, p);
    WaitingExact(s.jobs);
    forall i: nat | i < |s.jobs| && s.jobs[i].state == Submitted && t.jobs[i].alloc.Some?
      ensures s.ledger.next < t.jobs[i].alloc.value <= t.ledger.next
    {
      var q := GrantTurn(s, p, i);
    }
    forall i: nat, k: nat | i < k < |s.jobs| && s.jobs[i].state == Submitted && s.jobs[k].state == Submitted
      && t.jobs[i].alloc.Some? && t.jobs[k].alloc.Some?
      ensures t.jobs[i].alloc.value < t.jobs[k].alloc.value
    {
      var q := GrantTurn(s, p, i);
      var r := GrantTurn(s, p, k);
      assert q < r;
      TurnsBetween(s, w, p, q + 1, r);
      BetweenTighter(s, PassState(s, p, q + 1), PassState(s, p, r), w, q + 1, r);
    }
  }

  /** The turn in which a job was granted its id. */
  lemma GrantTurn(s: Snap, p: Policy, i: nat) returns (q: nat)
    requires Books(s) && i < |s.jobs| == |PassOf(s, p).jobs| && s.jobs[i].state == Submitted
    requires PassOf(s, p).jobs[i].alloc.Some?
    ensures q < Visited(s, p) && WaitingIn(s.jobs)[q] == i
    ensures PassOf(s, p).jobs[i].alloc == Some(PassState(s, p, q).ledger.next + 1)
    ensures s.ledger.next <= PassState(s, p, q).ledger.next < PassState(s, p, q + 1).ledger.next
    ensures PassState(s, p, q + 1).ledger.next <= PassOf(s, p).ledger.next
  {
    hide Books, StopAt, VisitOf, AfterVisit, StateAfter, Treated, Tighter, Keeps, SomeFeasible;
    var w, n := WaitingIn(s.jobs), Visited(s, p);
    WaitingExact(s.jobs);
    NoneYet(s, i);
    q := TurnNumber(s, p, i);
    if q >= n { NoTurn(s, p, q); }
    TurnResult(s, p, q);
    TurnsBetween(s, w, p, 0, q);
    BetweenTighter(s, s, PassState(s, p, q), w, 0, q);
    TurnsBetween(s, w, p, q + 1, n);
    BetweenTighter(s, PassState(s, p, q + 1), PassOf(s, p), w, q + 1, n);
  }

  lemma InvRegistered(l: M.Ledger)
    requires M.Inv(l)
    ensures M.Registered(l)
  {}

  lemma RankedFeasible(l: M.Ledger, spec: Spec, ranked: seq<string>, id: string)
    requires RanksFeasible(l, spec, ranked) && id in ranked
    ensures id in l.clusters && M.Feasible(l.clusters[id], spec) && SomeFeasible(l, spec)
  {
    hide M.Feasible;
  }

  lemma NoneFeasible(l: M.Ledger, spec: Spec, ranked: seq<string>)
    requires RanksFeasible(l, spec, ranked) && ranked == []
    ensures !SomeFeasible(l, spec) && !SomeRoom(l, spec)
  {
    hide M.Feasible;
    forall id | id in l.clusters ensures !M.Feasible(l.clusters[id], spec) { assert id !in ranked; }
  }

  lemma SameFeasible(l0: M.Ledger, l1: M.Ledger, spec: Spec)
    requires l0.clusters == l1.clusters
    ensures SomeFeasible(l0, spec) == SomeFeasible(l1, spec)
  {}
}
