/** Which cluster a placed job gets: the best-scoring one with room, or, unranked, the first registered. */
module Placement {
  import opened Jobspec
  import opened Graphs
  import opened Scheduling
  import M = Matcher
  import Score

  lemma {:induction false} FirstInAppend(l: M.Ledger, a: seq<string>, b: seq<string>, spec: Spec)
    ensures FirstWithRoom(l, a + b, spec)
         == if FirstWithRoom(l, a, spec).Some? then FirstWithRoom(l, a, spec) else FirstWithRoom(l, b, spec)
  {
    hide HasRoom;
    if a == [] {
      assert a + b == b;
    } else {
      assert (a + b)[1..] == a[1..] + b;
      FirstInAppend(l, a[1..], b, spec);
    }
  }

  /** Emulated clusters have no room to offer, so leaving them out loses no choice. */
  lemma {:induction false} FirstTarget(l: M.Ledger, ranked: seq<string>, spec: Spec)
    ensures FirstWithRoom(l, Targets(l, ranked), spec) == FirstWithRoom(l, ranked, spec)
  {
    hide M.Feasible, M.FreeFitting;
    if ranked != [] {
      var front, last := ranked[..|ranked| - 1], ranked[|ranked| - 1];
      FirstTarget(l, front, spec);
      FirstInAppend(l, front, [last], spec);
      var target := if last in l.clusters && !l.clusters[last].emulated then [last] else [];
      FirstInAppend(l, Targets(l, front), target, spec);
      assert ranked == front + [last];
    }
  }

  /** The first cluster with room, by position. */
  ghost predicate FirstAt(l: M.Ledger, ids: seq<string>, spec: Spec, id: string, k: nat) {
    k < |ids| && ids[k] == id && HasRoom(l, id, spec) && forall q :: 0 <= q < k ==> !HasRoom(l, ids[q], spec)
  }

  lemma {:induction false} FirstPosition(l: M.Ledger, ids: seq<string>, spec: Spec, id: string)
    requires FirstWithRoom(l, ids, spec) == Some(id)
    ensures exists k :: FirstAt(l, ids, spec, id, k)
  {
    hide HasRoom;
    if HasRoom(l, ids[0], spec) {
      assert FirstAt(l, ids, spec, id, 0);
    } else {
      FirstPosition(l, ids[1..], spec, id);
      var k: nat :| FirstAt(l, ids[1..], spec, id, k);
      forall q | 0 <= q < k + 1 ensures !HasRoom(l, ids[q], spec) {
        if q > 0 { assert ids[q] == ids[1..][q - 1]; }
      }
      assert FirstAt(l, ids, spec, id, k + 1);
    }
  }

  lemma ChoiceIsFirst(l: M.Ledger, spec: Spec, p: Policy, i: nat)
    requires M.Registered(l) && Choice(l, spec, p, i).Placed?
    ensures exists k :: FirstAt(l, Ranked(l, spec, p, i), spec, Choice(l, spec, p, i).cluster, k)
  {
    hide Ranked, HasRoom;
    var ranked := Ranked(l, spec, p, i);
    FirstTarget(l, ranked, spec);
    FirstPosition(l, ranked, spec, Choice(l, spec, p, i).cluster);
  }

  /** With a ranking scorer, whatever the shuffle: a placed job is on a best-scoring cluster among those
      that have room for it, as the matcher sees them at that moment. */
  lemma PlacedOnBest(l: M.Ledger, spec: Spec, p: Policy, i: nat, other: string)
    requires M.Registered(l) && p.needsFullSet && Choice(l, spec, p, i).Placed? && HasRoom(l, other, spec)
    ensures var id := Choice(l, spec, p, i).cluster;
      && id in l.clusters && other in l.clusters
      && p.score(spec, M.EvaluateOne(l, id, spec)) >= p.score(spec, M.EvaluateOne(l, other, spec))
  {
    hide M.Feasible, M.EvaluateOne, Ranked, Choice, HasRoom;
    var id, ranked := Choice(l, spec, p, i).cluster, Ranked(l, spec, p, i);
    RoomIsFeasible(l, other, spec);
    RankedAreFeasible(l, spec, p, i);
    ChoiceIsFirst(l, spec, p, i);
    var k: nat :| FirstAt(l, ranked, spec, id, k);
    var q: nat :| q < |ranked| && ranked[q] == other;
    ScoresFall(l, spec, p, i, k, q);
  }

  /** Ranked by a scorer, the clusters stand in descending order of their scores. */
  lemma ScoresFall(l: M.Ledger, spec: Spec, p: Policy, i: nat, k: nat, q: nat)
    requires M.Registered(l) && p.needsFullSet && k <= q < |Ranked(l, spec, p, i)|
    ensures var a, b := Ranked(l, spec, p, i)[k], Ranked(l, spec, p, i)[q];
      && a in l.clusters && b in l.clusters
      && p.score(spec, M.EvaluateOne(l, a, spec)) >= p.score(spec, M.EvaluateOne(l, b, spec))
  {
    hide M.Feasible, M.EvaluateOne, M.Evaluate, Score.Ranking, Score.FeasibleOnly, Ranked, Score.Cands;
    var r := Score.Ranking(p.ScoreFor(spec), M.Evaluate(l, spec), p.swaps(i));
    RankedFrom(l, spec, p, i);
    ScoredAt(l, spec, p, i, k);
    ScoredAt(l, spec, p, i, q);
    Score.RankingFacts(p.ScoreFor(spec), M.Evaluate(l, spec), p.swaps(i));
    assert r[k].score >= r[q].score;
  }

  lemma RankedFrom(l: M.Ledger, spec: Spec, p: Policy, i: nat)
    requires M.Registered(l) && p.needsFullSet
    ensures var r := Score.Ranking(p.ScoreFor(spec), M.Evaluate(l, spec), p.swaps(i));
      |Ranked(l, spec, p, i)| == |r| && forall k :: 0 <= k < |r| ==> Ranked(l, spec, p, i)[k] == r[k].cand.cluster
  {
    hide M.Evaluate, Score.Ranking;
  }

  /** A place in the ranking holds the matcher's own candidate, with its score. */
  lemma ScoredAt(l: M.Ledger, spec: Spec, p: Policy, i: nat, k: nat)
    requires M.Registered(l) && k < |Score.Ranking(p.ScoreFor(spec), M.Evaluate(l, spec), p.swaps(i))|
    ensures var x := Score.Ranking(p.ScoreFor(spec), M.Evaluate(l, spec), p.swaps(i))[k];
      x.cand.cluster in l.clusters && x.score == p.score(spec, M.EvaluateOne(l, x.cand.cluster, spec))
  {
    hide M.Feasible, M.EvaluateOne, M.Evaluate, Score.Ranking, Score.Cands;
    var r := Score.Ranking(p.ScoreFor(spec), M.Evaluate(l, spec), p.swaps(i));
    Score.RankingFacts(p.ScoreFor(spec), M.Evaluate(l, spec), p.swaps(i));
    Score.RankingMembers(p.ScoreFor(spec), M.Evaluate(l, spec), p.swaps(i));
    RankedIs(l, spec, r, k);
    assert r[k] in r;
  }

  lemma RankedIs(l: M.Ledger, spec: Spec, r: seq<Score.Scored>, k: nat)
    requires M.Registered(l) && k < |r| && forall c :: c in Score.Cands(r) ==> c in M.Evaluate(l, spec)
    ensures r[k].cand.cluster in l.clusters && r[k].cand == M.EvaluateOne(l, r[k].cand.cluster, spec)
  {
    hide M.Feasible, M.FittingNodes;
    assert Score.Cands(r)[k] == r[k].cand;
    assert r[k].cand in M.Evaluate(l, spec);
  }

  /** Dropping the infeasible candidates changes nothing about which has room first. */
  lemma {:induction false} FirstFeasible(l: M.Ledger, cands: seq<M.Candidate>, spec: Spec)
    requires forall c :: c in cands ==>
        c.cluster in l.clusters && (c.feasible <==> M.Feasible(l.clusters[c.cluster], spec))
    ensures FirstWithRoom(l, ClustersOf(Score.FeasibleOnly(cands, true)), spec)
         == FirstWithRoom(l, ClustersOf(cands), spec)
  {
    hide M.Feasible, M.FreeFitting;
    if cands != [] {
      var front, last := cands[..|cands| - 1], cands[|cands| - 1];
      assert last in cands && forall c :: c in front ==> c in cands;
      FirstFeasible(l, front, spec);
      assert ClustersOf(cands) == ClustersOf(front) + [last.cluster];
      FirstInAppend(l, ClustersOf(front), [last.cluster], spec);
      var kept := Score.FeasibleOnly(front, true);
      if last.feasible {
        assert ClustersOf(kept + [last]) == ClustersOf(kept) + [last.cluster];
        FirstInAppend(l, ClustersOf(kept), [last.cluster], spec);
      } else {
        assert kept + [] == kept;
      }
    }
  }

  /** Without a ranking: a placed job is on the first cluster, in registration order, that has room. */
  lemma PlacedOnFirst(l: M.Ledger, spec: Spec, p: Policy, i: nat)
    requires M.Registered(l) && !p.needsFullSet && Choice(l, spec, p, i).Placed?
    ensures exists k :: FirstAt(l, l.order, spec, Choice(l, spec, p, i).cluster, k)
  {
    hide M.Feasible, M.EvaluateOne, HasRoom, M.Evaluate, Score.FeasibleOnly;
    var ranked, cands := Ranked(l, spec, p, i), M.Evaluate(l, spec);
    CandidateFacts(l, spec);
    FirstTarget(l, ranked, spec);
    FirstFeasible(l, cands, spec);
    InOrder(l, spec);
    FirstPosition(l, l.order, spec, Choice(l, spec, p, i).cluster);
  }

  lemma InOrder(l: M.Ledger, spec: Spec)
    requires M.Registered(l)
    ensures ClustersOf(M.Evaluate(l, spec)) == l.order
  {
    hide M.FittingNodes, M.Feasible;
    forall k | 0 <= k < |l.order| ensures M.Evaluate(l, spec)[k].cluster == l.order[k] {
      assert l.order[k] in l.order;
    }
  }
}
