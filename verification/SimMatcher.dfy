/** The matcher object: the maps and slices SimMatcher updates in place, each method
    proved to move the state as the ledger function of the same name does. */
module SimMatching {
  import opened Jobspec
  import opened Graphs
  import opened Satisfaction
  import M = Matcher

  class SimMatcher {
    var clusters: map<string, M.Cluster>
    var order: seq<string>
    var taken: map<string, set<nat>>
    var live: map<nat, M.Live>
    var nextId: nat

    function State(): M.Ledger
      reads this
    {
      M.Ledger(clusters, order, taken, live, nextId)
    }

    ghost predicate Valid()
      reads this
    {
      M.Inv(State())
    }

    /** NewSim: an empty matcher, then every cluster of the fleet in order. */
    constructor (fleet: seq<M.Cluster>)
      ensures Valid() && State() == M.Load(fleet)
    {
      clusters, order, taken, live, nextId := map[], [], map[], map[], 0;
      new;
      M.EmptyInv();
      for i := 0 to |fleet|
        invariant Valid() && State() == M.Load(fleet[..i])
      {
        assert fleet[..i + 1][..i] == fleet[..i];
        AddCluster(fleet[i]);
      }
      assert fleet[..|fleet|] == fleet;
    }

    method AddCluster(c: M.Cluster)
      requires Valid()
      modifies this
      ensures Valid() && State() == M.AddCluster(old(State()), c)
    {
      hide M.Inv;
      M.AddClusterInv(State(), c);
      if c.id !in clusters {
        order := order + [c.id];
        taken := taken[c.id := {}];
      }
      clusters := clusters[c.id := c];
    }

    method RemoveCluster(id: string)
      requires Valid()
      modifies this
      ensures Valid() && State() == M.RemoveCluster(old(State()), id)
    {
      hide M.Inv;
      M.RemoveClusterInv(State(), id);
      clusters := clusters - {id};
      DropFromOrder(id);
      DropLive(id);
      taken := taken - {id};
      assert State() == M.RemoveCluster(old(State()), id);
    }

    method DropFromOrder(id: string)
      modifies this`order
      ensures order == M.Without(old(order), id)
    {
      for i := 0 to |order|
        invariant order == old(order)
        invariant M.Without(order, id) == order[..i] + M.Without(order[i..], id)
      {
        if order[i] == id {
          order := order[..i] + order[i + 1..];
          return;
        }
        assert order[i..][1..] == order[i + 1..];
      }
      assert order[..|order|] + [] == order;
    }

    method DropLive(id: string)
      modifies this`live
      ensures live == map a | a in old(live) && old(live)[a].cluster != id :: old(live)[a]
    {
      var todo := live.Keys;
      while todo != {}
        invariant todo <= live.Keys <= old(live).Keys
        invariant forall a :: a in live ==> live[a] == old(live)[a]
        invariant forall a :: a in old(live) ==> a in live || old(live)[a].cluster == id
        invariant forall a :: a in live && a !in todo ==> live[a].cluster != id
      {
        var a :| a in todo;
        todo := todo - {a};
        if live[a].cluster == id { live := live - {a}; }
      }
    }

    method AddSubsystem(id: string, name: string, g: Graph, descriptive: bool) returns (ok: bool)
      requires Valid() && (name == M.CONTAINMENT ==> Acyclic(g))
      modifies this
      ensures Valid()
      ensures var r := M.AddSubsystem(old(State()), id, name, g, descriptive);
        ok == r.Some? && State() == if ok then r.value else old(State())
    {
      hide M.Inv;
      M.AttachInv(State(), id, name, g, descriptive);
      ok := id in clusters;
      if ok {
        var c: M.AnyCluster := clusters[id];
        c := c.(subsystems := c.subsystems[name := g], flags := c.flags[name := descriptive]);
        clusters := clusters[id := c];
      }
    }

    method RemoveSubsystem(id: string, name: string) returns (ok: bool)
      requires Valid()
      modifies this
      ensures Valid()
      ensures var r := M.RemoveSubsystem(old(State()), id, name);
        ok == r.Some? && State() == if ok then r.value else old(State())
    {
      hide M.Inv;
      M.DetachInv(State(), id, name);
      ok := id in clusters && name != M.CONTAINMENT && name in clusters[id].subsystems;
      if ok {
        var c: M.AnyCluster := clusters[id];
        c := c.(subsystems := c.subsystems - {name}, flags := c.flags - {name});
        clusters := clusters[id := c];
      }
    }

    method FittingNodes(c: M.Cluster, need: Need, busy: set<nat>) returns (fit: seq<nat>)
      ensures fit == M.FittingNodes(c, need, busy)
    {
      fit := [];
      if M.CONTAINMENT in c.subsystems {
        var g := c.subsystems[M.CONTAINMENT];
        var ids := NodeIds(g);
        for i := 0 to |ids|
          invariant fit == M.Fitting(g, ids[..i], need, busy)
        {
          assert ids[..i + 1][..i] == ids[..i];
          if ids[i] !in busy {
            var offered := NodeCapacity(g, ids[i]);
            if offered.Covers(need) { fit := fit + [ids[i]]; }
          }
        }
        assert ids[..|ids|] == ids;
      }
    }

    method SplitRequirements(c: M.Cluster, spec: Spec) returns (matched: set<string>, missing: set<string>)
      ensures matched == M.MatchedSubsystems(c, spec)
      ensures missing == spec.requirements.Keys - matched
    {
      hide SubsystemSatisfies;
      matched, missing := {}, {};
      var todo := spec.requirements.Keys;
      while todo != {}
        invariant todo <= spec.requirements.Keys
        invariant forall s :: s in matched <==>
            s in spec.requirements && s !in todo && SubsystemSatisfies(c.Subsystem(s), spec.requirements[s])
        invariant forall s :: s in missing <==> s in spec.requirements && s !in todo && s !in matched
      {
        var sub :| sub in todo;
        todo := todo - {sub};
        if SubsystemSatisfies(c.Subsystem(sub), spec.requirements[sub]) {
          matched := matched + {sub};
        } else {
          missing := missing + {sub};
        }
      }
    }

    method Evaluate(spec: Spec) returns (cands: seq<M.Candidate>)
      requires Valid()
      ensures cands == M.Evaluate(State(), spec)
    {
      hide M.FittingNodes, M.MatchedSubsystems;
      cands := [];
      for i := 0 to |order|
        invariant |cands| == i
        invariant forall k :: 0 <= k < i ==> cands[k] == M.EvaluateOne(State(), order[k], spec)
      {
        var id := order[i];
        var c := clusters[id];
        var matched, missing := SplitRequirements(c, spec);
        var idle := FittingNodes(c, spec.NeedPerNode(), {});
        var structOK := |idle| >= spec.Nodes();
        if !structOK { missing := missing + {M.CONTAINMENT}; }
        var feasible := matched == spec.requirements.Keys && structOK;
        var free := FittingNodes(c, spec.NeedPerNode(), taken[id]);
        cands := cands + [M.Candidate(id, feasible, feasible && |free| >= spec.Nodes(), |free|, matched, missing)];
      }
    }

    method Allocate(spec: Spec, id: string) returns (grant: M.Grant)
      requires Valid()
      modifies this
      ensures Valid() && (State(), grant) == M.Allocate(old(State()), spec, id)
    {
      hide M.Inv, M.FittingNodes;
      M.AllocateInv(State(), spec, id);
      assert id in clusters ==> id in taken by { RegisteredTaken(State(), id); }
      if id !in clusters { return M.NotRegistered; }
      if !clusters[id].reserves {
        nextId := nextId + 1;
        return M.Granted(nextId, []);
      }
      var free := FittingNodes(clusters[id], spec.NeedPerNode(), taken[id]);
      if |free| < spec.Nodes() { return M.Full; }
      var chosen := free[..spec.Nodes()];
      nextId := nextId + 1;
      Occupy(id, chosen);
      live := live[nextId := M.Live(id, chosen)];
      grant := M.Granted(nextId, chosen);
    }

    lemma RegisteredTaken(l: M.Ledger, id: string)
      requires M.Inv(l)
      ensures id in l.clusters ==> id in l.taken
    {
      assert l.clusters.Keys == l.taken.Keys;
    }

    method Occupy(id: string, chosen: seq<nat>)
      requires id in taken
      modifies this`taken
      ensures taken == old(taken)[id := old(taken)[id] + M.Elements(chosen)]
    {
      for i := 0 to |chosen|
        invariant id in taken && taken == old(taken)[id := taken[id]]
        invariant taken[id] == old(taken)[id] + M.Elements(chosen[..i])
      {
        assert M.Elements(chosen[..i + 1]) == M.Elements(chosen[..i]) + {chosen[i]};
        taken := taken[id := taken[id] + {chosen[i]}];
      }
      assert chosen[..|chosen|] == chosen;
    }

    method Free(a: nat)
      requires Valid()
      modifies this
      ensures Valid() && State() == M.Free(old(State()), a)
    {
      hide M.Inv;
      M.FreeInv(State(), a);
      if a !in live { return; }
      var rec := live[a];
      if rec.cluster in taken { Vacate(rec.cluster, rec.nodes); }
      live := live - {a};
    }

    method Vacate(id: string, nodes: seq<nat>)
      requires id in taken
      modifies this`taken
      ensures taken == old(taken)[id := old(taken)[id] - M.Elements(nodes)]
    {
      for i := 0 to |nodes|
        invariant id in taken && taken == old(taken)[id := taken[id]]
        invariant taken[id] == old(taken)[id] - M.Elements(nodes[..i])
      {
        assert M.Elements(nodes[..i + 1]) == M.Elements(nodes[..i]) + {nodes[i]};
        taken := taken[id := taken[id] - {nodes[i]}];
      }
      assert nodes[..|nodes|] == nodes;
    }
  }
}
