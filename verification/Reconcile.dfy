/** Repacking a job that fits nowhere as submitted: the node shapes of a cluster, the
    exact-divisor search, and why the matcher accepts what is proposed. */
module Reconcile {
  import opened Jobspec
  import opened Graphs
  import opened Builder
  import opened Discovery
  import opened Matcher
  import Satisfaction

  datatype Shape = Shape(need: Need, count: nat)

  /** One cluster as the reconciler sees it. `screened` is the advisory capability check. */
  datatype ClusterView = ClusterView(id: string, screened: bool, shapes: seq<Shape>)

  // ---- Shapes ----

  function Shapes(caps: seq<Need>): (ss: seq<Shape>)
    ensures |ss| == |Distinct(caps)|
  {
    var order := Distinct(caps);
    seq(|order|, i requires 0 <= i < |order| => Shape(order[i], Occurs(caps, order[i])))
  }

  function ShapesOfCluster(c: Cluster): seq<Shape> {
    if CONTAINMENT in c.subsystems then Shapes(NodeCapacities(c.subsystems[CONTAINMENT])) else []
  }

  /** shapesOf: walk every node, count equal capacities, keep first-seen order. */
  method ShapesOf(g: Graph) returns (shapes: seq<Shape>)
    requires Acyclic(g)
    ensures shapes == Shapes(NodeCapacities(g))
  {
    hide Occurs, Distinct;
    var ids := NodeIds(g);
    var caps: seq<Need> := [];
    for i := 0 to |ids|
      invariant |caps| == i && forall k :: 0 <= k < i ==> caps[k] == Capacity(g, ids[k])
    {
      var n := NodeCapacity(g, ids[i]);
      caps := caps + [n];
    }
    assert caps == NodeCapacities(g);
    var order, count := Tally(caps);
    DistinctMembers(caps);
    shapes := [];
    for i := 0 to |order|
      invariant shapes == Shapes(caps)[..i]
    {
      assert order[i] in order;
      shapes := shapes + [Shape(order[i], count[order[i]])];
    }
    assert Shapes(caps)[..|order|] == Shapes(caps);
  }

  // ---- The exact-divisor search ----

  /** `n` nodes split the cores exactly and each share fits the shape. */
  predicate Splits(total: nat, s: Shape, n: nat) {
    1 <= n <= s.count && total % n == 0 && total / n <= s.need.cores
  }

  function LeastSplit(total: nat, s: Shape, from: nat): (r: Option<nat>)
    requires from >= 1
    ensures r.Some? ==> r.value >= from
    decreases s.count + 1 - from
  {
    if from > s.count then None
    else if Splits(total, s, from) then Some(from)
    else LeastSplit(total, s, from + 1)
  }

  /** The search finds the least splitting node count, and fails only when there is none. */
  lemma {:induction false} LeastSplitExact(total: nat, s: Shape, from: nat)
    requires from >= 1
    ensures match LeastSplit(total, s, from)
      case Some(n) => n >= from && Splits(total, s, n) && forall k: nat :: from <= k < n ==> !Splits(total, s, k)
      case None => forall k: nat :: k >= from ==> !Splits(total, s, k)
    decreases s.count + 1 - from
  {
    if from <= s.count && !Splits(total, s, from) { LeastSplitExact(total, s, from + 1); }
  }

  lemma ShareOfCores(total: nat, n: nat)
    requires n >= 1 && total % n == 0
    ensures n * (total / n) == total
    ensures total >= 1 ==> total / n >= 1
  {}

  lemma BeyondTotal(total: nat, s: Shape, n: nat)
    requires total >= 1 && n > total
    ensures !Splits(total, s, n)
  {
    assert total % n == total;
  }

  /** repackOntoShape: stops at min(count, total), which loses nothing. */
  method RepackOntoShape(total: int, s: Shape) returns (split: Option<(nat, nat)>)
    ensures total >= 1 ==>
      split == match LeastSplit(total, s, 1) case Some(n) => Some((n, total / n)) case None => None
    ensures total < 1 ==> split == None
  {
    if total < 1 { return None; }
    LeastSplitExact(total, s, 1);
    if s.need.cores < 1 {
      forall n: nat | Splits(total, s, n) ensures false { ShareOfCores(total, n); }
      return None;
    }
    var hi := if total < s.count then total else s.count;
    var n := 1;
    while n <= hi
      invariant 1 <= n
      invariant forall k: nat :: 1 <= k < n ==> !Splits(total, s, k)
      decreases hi + 1 - n
    {
      if total % n == 0 && total / n <= s.need.cores {
        assert Splits(total, s, n);
        return Some((n, total / n));
      }
      n := n + 1;
    }
    forall k: nat | k >= 1 ensures !Splits(total, s, k) {
      if k > total { BeyondTotal(total, s, k); }
    }
    split := None;
  }

  // ---- Proposals ----

  datatype Proposal = Proposal(cluster: string, shape: Shape, nodes: nat, spec: Spec)

  function TotalCores(spec: Spec): nat { spec.Nodes() * AtLeast1(spec.NeedPerNode().cores) }

  function Repacked(spec: Spec, nodes: nat): Spec
    requires nodes >= 1
  {
    spec.(resources := Containment(nodes, TotalCores(spec) / nodes, spec.NeedPerNode().gpus, spec.NeedPerNode().mem))
  }

  /** A shape can take the job's gpus and memory, and some node count splits its cores. */
  predicate Usable(spec: Spec, s: Shape) {
    && s.need.gpus >= spec.NeedPerNode().gpus
    && s.need.mem >= spec.NeedPerNode().mem
    && LeastSplit(TotalCores(spec), s, 1).Some?
  }

  function ProposeOn(spec: Spec, cluster: string, shapes: seq<Shape>): Option<Proposal> {
    if shapes == [] then None
    else if Usable(spec, shapes[0]) then
      var n := LeastSplit(TotalCores(spec), shapes[0], 1).value;
      LeastSplitExact(TotalCores(spec), shapes[0], 1);
      Some(Proposal(cluster, shapes[0], n, Repacked(spec, n)))
    else ProposeOn(spec, cluster, shapes[1..])
  }

  function Propose(spec: Spec, view: seq<ClusterView>): Option<Proposal> {
    if view == [] then None
    else
      var here := if view[0].screened then ProposeOn(spec, view[0].id, view[0].shapes) else None;
      if here.Some? then here else Propose(spec, view[1..])
  }

  method ProposeShape(spec: Spec, cluster: string, shapes: seq<Shape>) returns (p: Option<Proposal>)
    ensures p == ProposeOn(spec, cluster, shapes)
    ensures p.Some? <==> exists s, n :: s in shapes && Hosts(spec, s, n)
  {
    hide CountsOf, LeastSplit, Containment, Hosts;
    ProposeOnIff(spec, cluster, shapes);
    TotalPositive(spec);
    for i := 0 to |shapes|
      invariant ProposeOn(spec, cluster, shapes) == ProposeOn(spec, cluster, shapes[i..])
    {
      var s, need := shapes[i], spec.NeedPerNode();
      assert shapes[i..][1..] == shapes[i + 1..];
      if need.gpus > 0 && s.need.gpus < need.gpus { continue; }
      if s.need.mem < need.mem { continue; }
      var split := RepackOntoShape(TotalCores(spec), s);
      LeastSplitExact(TotalCores(spec), s, 1);
      if split.Some? {
        return Some(Proposal(cluster, s, split.value.0,
            spec.(resources := Containment(split.value.0, split.value.1, need.gpus, need.mem))));
      }
    }
    p := None;
  }

  method RepackPropose(spec: Spec, view: seq<ClusterView>) returns (p: Option<Proposal>)
    ensures p == Propose(spec, view)
    ensures p.Some? <==> exists v, s, n :: v in view && v.screened && s in v.shapes && Hosts(spec, s, n)
  {
    hide ProposeOn, Hosts;
    ProposalIff(spec, view);
    for i := 0 to |view|
      invariant Propose(spec, view) == Propose(spec, view[i..])
    {
      assert view[i..][1..] == view[i + 1..];
      if !view[i].screened { continue; }
      p := ProposeShape(spec, view[i].id, view[i].shapes);
      if p.Some? { return; }
    }
    p := None;
  }

  lemma TotalPositive(spec: Spec)
    ensures TotalCores(spec) >= 1
  {
    MulPositive(spec.Nodes(), AtLeast1(spec.NeedPerNode().cores));
  }

  lemma MulPositive(a: nat, b: nat)
    requires a >= 1 && b >= 1
    ensures a * b >= 1
  {}

  lemma {:induction false} ProposeOnExact(spec: Spec, cluster: string, shapes: seq<Shape>)
    ensures match ProposeOn(spec, cluster, shapes)
      case Some(p) => p.cluster == cluster && p.shape in shapes && Usable(spec, p.shape) && p.nodes >= 1
                      && LeastSplit(TotalCores(spec), p.shape, 1) == Some(p.nodes) && p.spec == Repacked(spec, p.nodes)
      case None => forall s :: s in shapes ==> !Usable(spec, s)
  {
    hide LeastSplit, Repacked;
    if shapes != [] && !Usable(spec, shapes[0]) {
      ProposeOnExact(spec, cluster, shapes[1..]);
      assert shapes == [shapes[0]] + shapes[1..];
    } else if shapes != [] {
      LeastSplitExact(TotalCores(spec), shapes[0], 1);
    }
  }

  /** A proposal names a screened cluster and a usable shape of it, repacked to the least node count;
      there is none exactly when no screened cluster has a usable shape. */
  lemma {:induction false} ProposeExact(spec: Spec, view: seq<ClusterView>)
    ensures match Propose(spec, view)
      case Some(p) => (exists v :: v in view && v.screened && v.id == p.cluster && p.shape in v.shapes)
                      && Usable(spec, p.shape) && p.nodes >= 1
                      && LeastSplit(TotalCores(spec), p.shape, 1) == Some(p.nodes)
                      && p.spec == Repacked(spec, p.nodes)
      case None => forall v, s :: v in view && v.screened && s in v.shapes ==> !Usable(spec, s)
  {
    hide ProposeOn, Usable, Repacked, LeastSplit;
    if view != [] {
      ProposeOnExact(spec, view[0].id, view[0].shapes);
      ProposeExact(spec, view[1..]);
      assert view == [view[0]] + view[1..];
    }
  }

  // ---- When there is a proposal, read off the shapes ----

  /** What one of `n` nodes would have to offer if they shared the job's cores. */
  function Share(spec: Spec, n: nat): Need
    requires n >= 1
  {
    var need := spec.NeedPerNode();
    Need((spec.Nodes() * (if need.cores < 1 then 1 else need.cores)) / n, need.gpus, need.mem)
  }

  /** `n` nodes of this shape split the job's cores exactly, and each is large enough for its share. */
  predicate Hosts(spec: Spec, s: Shape, n: nat) {
    && 1 <= n <= s.count
    && (spec.Nodes() * (if spec.NeedPerNode().cores < 1 then 1 else spec.NeedPerNode().cores)) % n == 0
    && s.need.cores >= Share(spec, n).cores && s.need.gpus >= Share(spec, n).gpus && s.need.mem >= Share(spec, n).mem
  }

  lemma HostsSplits(spec: Spec, s: Shape, n: nat)
    ensures Hosts(spec, s, n) <==>
      Splits(TotalCores(spec), s, n) && s.need.gpus >= spec.NeedPerNode().gpus && s.need.mem >= spec.NeedPerNode().mem
  {
    hide CountsOf;
  }

  lemma UsableIff(spec: Spec, s: Shape)
    ensures Usable(spec, s) <==> exists n :: Hosts(spec, s, n)
  {
    hide CountsOf, LeastSplit, Hosts, Splits;
    LeastSplitExact(TotalCores(spec), s, 1);
    forall n: nat ensures Hosts(spec, s, n) <==>
        Splits(TotalCores(spec), s, n) && s.need.gpus >= spec.NeedPerNode().gpus
        && s.need.mem >= spec.NeedPerNode().mem
    {
      HostsSplits(spec, s, n);
    }
    if Usable(spec, s) { assert Hosts(spec, s, LeastSplit(TotalCores(spec), s, 1).value); }
    if n :| Hosts(spec, s, n) { SplitsIsPositive(TotalCores(spec), s, n); }
  }

  lemma SplitsIsPositive(total: nat, s: Shape, n: nat)
    requires Splits(total, s, n)
    ensures n >= 1
  {}

  lemma ProposeOnIff(spec: Spec, cluster: string, shapes: seq<Shape>)
    ensures ProposeOn(spec, cluster, shapes).Some? <==> exists s, n :: s in shapes && Hosts(spec, s, n)
  {
    hide ProposeOn, Usable, Hosts, LeastSplit, Repacked;
    ProposeOnExact(spec, cluster, shapes);
    forall s ensures Usable(spec, s) <==> exists n :: Hosts(spec, s, n) { UsableIff(spec, s); }
    if s, n :| s in shapes && Hosts(spec, s, n) { assert Usable(spec, s); }
    if p :| ProposeOn(spec, cluster, shapes) == Some(p) { var n :| Hosts(spec, p.shape, n); }
  }

  /** There is a proposal if and only if some shape of some screened cluster hosts the job at some node count. */
  lemma ProposalIff(spec: Spec, view: seq<ClusterView>)
    ensures Propose(spec, view).Some? <==>
      exists v, s, n :: v in view && v.screened && s in v.shapes && Hosts(spec, s, n)
  {
    hide Propose, Usable, Hosts, LeastSplit, Repacked;
    ProposeExact(spec, view);
    forall s ensures Usable(spec, s) <==> exists n :: Hosts(spec, s, n) { UsableIff(spec, s); }
    if v, s, n :| v in view && v.screened && s in v.shapes && Hosts(spec, s, n) { assert Usable(spec, s); }
    if p :| Propose(spec, view) == Some(p) {
      var v :| v in view && v.screened && v.id == p.cluster && p.shape in v.shapes;
      var n :| Hosts(spec, p.shape, n);
    }
  }

  /** What is proposed hosts the job, and at the fewest nodes at which its shape does. */
  lemma ProposalHosts(spec: Spec, view: seq<ClusterView>, p: Proposal)
    requires Propose(spec, view) == Some(p)
    ensures Hosts(spec, p.shape, p.nodes) && forall n: nat :: n < p.nodes ==> !Hosts(spec, p.shape, n)
    ensures p.spec.Counts() == Count(p.nodes, Share(spec, p.nodes))
  {
    hide Propose, Hosts, LeastSplit, CountsOf, Splits;
    ProposeExact(spec, view);
    LeastSplitExact(TotalCores(spec), p.shape, 1);
    forall n: nat ensures Hosts(spec, p.shape, n) ==> Splits(TotalCores(spec), p.shape, n) && n >= 1 {
      HostsSplits(spec, p.shape, n);
      if Hosts(spec, p.shape, n) { SplitsIsPositive(TotalCores(spec), p.shape, n); }
    }
    HostsSplits(spec, p.shape, p.nodes);
    SplitsExactly(TotalCores(spec), p.shape, p.nodes);
    RepackedCounts(spec, p.nodes);
  }

  lemma SplitsExactly(total: nat, s: Shape, n: nat)
    requires Splits(total, s, n)
    ensures n >= 1 && total % n == 0
  {}

  /** The shapes of a list of capacities: one for each distinct capacity, with its multiplicity. */
  lemma ShapesExact(caps: seq<Need>, s: Shape)
    ensures s in Shapes(caps) <==> s.need in caps && s.count == multiset(caps)[s.need]
  {
    DistinctMembers(caps);
    OccursIsMultiplicity(caps, s.need);
    if s.need in caps {
      var i :| 0 <= i < |Distinct(caps)| && Distinct(caps)[i] == s.need;
      assert Shapes(caps)[i] == Shape(s.need, Occurs(caps, s.need));
    }
  }

  /** On this cluster `n` nodes of one same capacity host the job. */
  ghost predicate ClusterHosts(spec: Spec, c: Cluster, cap: Need, n: nat) {
    && CONTAINMENT in c.subsystems
    && Hosts(spec, Shape(cap, multiset(NodeCapacities(c.subsystems[CONTAINMENT]))[cap]), n)
  }

  lemma ShapeHosts(spec: Spec, c: Cluster)
    ensures (exists s, n :: s in ShapesOfCluster(c) && Hosts(spec, s, n)) <==>
      exists cap, n :: ClusterHosts(spec, c, cap, n)
  {
    hide Hosts, Shapes, NodeCapacities;
    if CONTAINMENT in c.subsystems {
      var caps := NodeCapacities(c.subsystems[CONTAINMENT]);
      if s, n :| s in Shapes(caps) && Hosts(spec, s, n) {
        ShapesExact(caps, s);
        assert s == Shape(s.need, multiset(caps)[s.need]);
        assert ClusterHosts(spec, c, s.need, n);
      }
      if cap, n :| ClusterHosts(spec, c, cap, n) {
        var s := Shape(cap, multiset(caps)[cap]);
        HostsSome(spec, s, n);
        ShapesExact(caps, s);
        assert s in ShapesOfCluster(c) && Hosts(spec, s, n);
      }
    }
  }

  lemma HostsSome(spec: Spec, s: Shape, n: nat)
    requires Hosts(spec, s, n)
    ensures s.count >= 1
  {}

  /** Over a fleet: there is a proposal if and only if some screened cluster has enough nodes of one same
      capacity that host the job. */
  lemma FleetProposalIff(spec: Spec, cs: seq<Cluster>, screened: Cluster -> bool)
    ensures Propose(spec, ViewOf(cs, screened)).Some? <==>
      exists c, cap, n :: c in cs && screened(c) && ClusterHosts(spec, c, cap, n)
  {
    hide Propose, Hosts, ShapesOfCluster, ClusterHosts;
    var view := ViewOf(cs, screened);
    ProposalIff(spec, view);
    ViewMembers(cs, screened);
    if v, s, n :| v in view && v.screened && s in v.shapes && Hosts(spec, s, n) {
      var c :| c in cs && v == ClusterView(c.id, screened(c), ShapesOfCluster(c));
      ShapeHosts(spec, c);
      var cap, m :| ClusterHosts(spec, c, cap, m);
    }
    if c, cap, n :| c in cs && screened(c) && ClusterHosts(spec, c, cap, n) {
      ShapeHosts(spec, c);
      var s, m :| s in ShapesOfCluster(c) && Hosts(spec, s, m);
      assert ClusterView(c.id, screened(c), ShapesOfCluster(c)) in view;
    }
  }

  lemma {:induction false} ViewMembers(cs: seq<Cluster>, screened: Cluster -> bool)
    ensures forall v :: v in ViewOf(cs, screened) <==>
      exists c :: c in cs && v == ClusterView(c.id, screened(c), ShapesOfCluster(c))
  {
    hide ShapesOfCluster;
    if cs != [] {
      ViewMembers(cs[1..], screened);
      assert cs == [cs[0]] + cs[1..];
    }
  }

  // ---- Why the matcher accepts a proposal ----

  lemma {:induction false} FittingAtLeast(g: Graph, ids: seq<nat>, need: Need, offered: Need)
    requires Acyclic(g) && offered.Covers(need)
    ensures |Fitting(g, ids, need, {})| >= Occurs(CapacitiesOf(g, ids), offered)
  {
    if ids != [] {
      FittingAtLeast(g, ids[..|ids| - 1], need, offered);
      assert CapacitiesOf(g, ids)[..|ids| - 1] == CapacitiesOf(g, ids[..|ids| - 1]);
    }
  }

  lemma ShapeCount(caps: seq<Need>, s: Shape)
    requires s in Shapes(caps)
    ensures s.count == Occurs(caps, s.need)
  {}

  lemma RepackedCounts(spec: Spec, n: nat)
    requires n >= 1 && TotalCores(spec) % n == 0
    ensures Repacked(spec, n).Counts()
        == Count(n, Need(TotalCores(spec) / n, spec.NeedPerNode().gpus, spec.NeedPerNode().mem))
    ensures Repacked(spec, n).Nodes() * Repacked(spec, n).NeedPerNode().cores == TotalCores(spec)
  {
    hide CountsOf, Containment;
    var need := spec.NeedPerNode();
    TotalPositive(spec);
    ShareOfCores(TotalCores(spec), n);
    ContainmentCounts(n, TotalCores(spec) / n, need.gpus, need.mem);
  }

  /** The proposed spec keeps total cores, per-node gpus and memory, requirements and tasks, and
      the matcher finds enough fitting nodes for it on the proposed cluster. */
  lemma ProposalAccepted(spec: Spec, c: Cluster, p: Proposal)
    requires ProposeOn(spec, c.id, ShapesOfCluster(c)) == Some(p)
    ensures p.spec.Nodes() * p.spec.NeedPerNode().cores == TotalCores(spec)
    ensures p.spec.NeedPerNode().gpus == spec.NeedPerNode().gpus && p.spec.NeedPerNode().mem == spec.NeedPerNode().mem
    ensures p.spec.requirements == spec.requirements && p.spec.tasks == spec.tasks
    ensures |FittingNodes(c, p.spec.NeedPerNode(), {})| >= p.spec.Nodes()
    ensures Feasible(c, p.spec) <==>
      forall sub :: sub in spec.requirements
          ==> Satisfaction.SubsystemSatisfies(c.Subsystem(sub), spec.requirements[sub])
  {
    hide CountsOf, Containment, Fitting, Occurs, Satisfaction.SubsystemSatisfies, LeastSplit, Capacity;
    ProposeOnExact(spec, c.id, ShapesOfCluster(c));
    LeastSplitExact(TotalCores(spec), p.shape, 1);
    RepackedCounts(spec, p.nodes);
    var g := c.subsystems[CONTAINMENT];
    ShapeCount(NodeCapacities(g), p.shape);
    FittingAtLeast(g, NodeIds(g), p.spec.NeedPerNode(), p.shape.need);
  }

  /** The fleet as the reconciler sees it: every cluster with its shapes and its advisory screening. */
  function ViewOf(cs: seq<Cluster>, screened: Cluster -> bool): (view: seq<ClusterView>)
    ensures |view| == |cs|
  {
    if cs == [] then []
        else [ClusterView(cs[0].id, screened(cs[0]), ShapesOfCluster(cs[0]))] + ViewOf(cs[1..], screened)
  }

  /** Over a whole fleet: whatever is proposed comes from a screened cluster of the named id, and that
      cluster has enough fitting nodes for it when idle. */
  lemma {:induction false} FleetProposalAccepted(spec: Spec, cs: seq<Cluster>, screened: Cluster -> bool, p: Proposal)
    requires Propose(spec, ViewOf(cs, screened)) == Some(p)
    ensures exists c ::
      c in cs && c.id == p.cluster && screened(c) && |FittingNodes(c, p.spec.NeedPerNode(), {})| >= p.spec.Nodes()
    ensures p.spec.Nodes() * p.spec.NeedPerNode().cores == TotalCores(spec)
  {
    hide ProposeOn, ShapesOfCluster, FittingNodes, CountsOf;
    var view := ViewOf(cs, screened);
    assert view[1..] == ViewOf(cs[1..], screened);
    if view[0].screened && ProposeOn(spec, view[0].id, view[0].shapes).Some? {
      ProposeOnExact(spec, cs[0].id, ShapesOfCluster(cs[0]));
      ProposalAccepted(spec, cs[0], p);
    } else {
      FleetProposalAccepted(spec, cs[1..], screened, p);
      var c :| c in cs[1..] && c.id == p.cluster && screened(c)
          && |FittingNodes(c, p.spec.NeedPerNode(), {})| >= p.spec.Nodes();
      assert c in cs;
    }
  }

  /** From discovered facts to shapes: each shape counts exactly the nodes whose facts offer it. */
  lemma ShapesOfFacts(cluster: string, facts: seq<NodeFacts>)
    ensures var g := Built(cluster, Flatten(GroupsOf(Distinct(facts), facts)));
      Acyclic(g) && forall s :: s in Shapes(NodeCapacities(g)) ==> s.count == Occurs(OffersAll(facts), s.need) > 0
  {
    hide Occurs, Flatten, Built, GroupsOf, OffersAll, NodeCapacities;
    FactsRoundTrip(cluster, facts);
    var g := Built(cluster, Flatten(GroupsOf(Distinct(facts), facts)));
    var caps := NodeCapacities(g);
    DistinctMembers(caps);
    forall s | s in Shapes(caps) ensures s.count == Occurs(OffersAll(facts), s.need) > 0 {
      OccursIsMultiplicity(caps, s.need);
      OccursIsMultiplicity(OffersAll(facts), s.need);
      assert s.need in Distinct(caps);
    }
  }

  // ---- What repacking does not keep ----

  /** The best-effort total rank count of TasksTotal. */
  function TasksTotal(spec: Spec): int {
    var n := spec.Nodes();
    if spec.tasks == [] then n
    else
      var count := spec.tasks[0].count;
      if "total" in count && count["total"] > 0 then count["total"]
      else if "per_slot" in count && count["per_slot"] > 0 then n * count["per_slot"]
      else n
  }

  predicate CountedPerSlot(spec: Spec) {
    spec.tasks != [] && "per_slot" in spec.tasks[0].count && spec.tasks[0].count["per_slot"] > 0
  }

  /** A written-out total is taken; otherwise one node has as many ranks as its slots ask for, and without
      such a count there is one rank a node. */
  lemma TasksByNode(spec: Spec)
    ensures FixedTaskTotal(spec) ==> TasksTotal(spec) == spec.tasks[0].count["total"]
    ensures !FixedTaskTotal(spec) && CountedPerSlot(spec) && spec.Nodes() == 1 ==>
      TasksTotal(spec) == spec.tasks[0].count["per_slot"]
    ensures !FixedTaskTotal(spec) && !CountedPerSlot(spec) ==> TasksTotal(spec) == spec.Nodes()
  {
    hide CountsOf;
  }

  /** And laid out on another number of nodes, the job has ranks in proportion. */
  lemma TasksProportional(spec: Spec, rs: seq<Resource>)
    requires !FixedTaskTotal(spec)
    ensures TasksTotal(spec.(resources := rs)) * spec.Nodes() == TasksTotal(spec) * spec.(resources := rs).Nodes()
  {
    hide CountsOf;
  }

  predicate FixedTaskTotal(spec: Spec) {
    spec.tasks != [] && "total" in spec.tasks[0].count && spec.tasks[0].count["total"] > 0
  }

  /** The shapes in the order they are tried: those of the screened clusters. */
  function Tried(view: seq<ClusterView>): seq<Shape> {
    if view == [] then [] else (if view[0].screened then view[0].shapes else []) + Tried(view[1..])
  }

  function FirstUsable(spec: Spec, shapes: seq<Shape>): Option<Shape> {
    if shapes == [] then None else if Usable(spec, shapes[0]) then Some(shapes[0]) else FirstUsable(spec, shapes[1..])
  }

  lemma {:induction false} FirstUsableAppend(spec: Spec, a: seq<Shape>, b: seq<Shape>)
    ensures FirstUsable(spec, a + b)
         == if FirstUsable(spec, a).Some? then FirstUsable(spec, a) else FirstUsable(spec, b)
  {
    hide Usable;
    if a == [] {
      assert a + b == b;
    } else {
      FirstUsableAppend(spec, a[1..], b);
      assert (a + b)[1..] == a[1..] + b;
    }
  }

  lemma {:induction false} ProposeOnFirst(spec: Spec, cluster: string, shapes: seq<Shape>)
    ensures match ProposeOn(spec, cluster, shapes)
      case Some(p) => FirstUsable(spec, shapes) == Some(p.shape)
      case None => FirstUsable(spec, shapes) == None
  {
    hide Usable, Repacked, LeastSplit;
    if shapes != [] && !Usable(spec, shapes[0]) { ProposeOnFirst(spec, cluster, shapes[1..]); }
  }

  lemma {:induction false} ProposeFirst(spec: Spec, view: seq<ClusterView>)
    ensures match Propose(spec, view)
      case Some(p) => FirstUsable(spec, Tried(view)) == Some(p.shape)
      case None => FirstUsable(spec, Tried(view)) == None
  {
    hide ProposeOn, FirstUsable;
    if view == [] {
      NothingUsable(spec);
    } else {
      ProposeOnFirst(spec, view[0].id, view[0].shapes);
      ProposeFirst(spec, view[1..]);
      NothingUsable(spec);
      FirstUsableAppend(spec, if view[0].screened then view[0].shapes else [], Tried(view[1..]));
    }
  }

  lemma NothingUsable(spec: Spec)
    ensures FirstUsable(spec, []) == None
  {}

  /** The job's own layout fits the shape, and no smaller node count splits its cores onto it. */
  predicate KeepsLayout(spec: Spec, s: Shape) {
    && spec.Nodes() <= s.count && AtLeast1(spec.NeedPerNode().cores) <= s.need.cores
    && forall n | 1 <= n < spec.Nodes() :: !Splits(TotalCores(spec), s, n)
  }

  lemma OwnSplit(spec: Spec, s: Shape)
    ensures Splits(TotalCores(spec), s, spec.Nodes())
      <==> spec.Nodes() <= s.count && AtLeast1(spec.NeedPerNode().cores) <= s.need.cores
  {
    hide CountsOf;
    WholeShare(spec.Nodes(), AtLeast1(spec.NeedPerNode().cores));
  }

  lemma WholeShare(n: nat, c: nat)
    requires n >= 1
    ensures (n * c) % n == 0 && (n * c) / n == c
  {
    ShareIs(n * c, n, c);
  }

  lemma ShareIs(total: nat, n: nat, c: nat)
    requires n >= 1 && total == n * c
    ensures total % n == 0 && total / n == c
  {
    var apart: int := c as int - total / n;
    MulApart(n, apart);
    assert n * apart == total % n;
  }

  lemma MulApart(n: nat, k: int)
    ensures k >= 1 ==> n * k >= n
    ensures k <= -1 ==> n * k + n <= 0
  {
    assert n * (k - 1) == n * k - n && n * (k + 1) == n * k + n;
  }

  lemma LeastIsOwn(spec: Spec, s: Shape)
    requires LeastSplit(TotalCores(spec), s, 1).Some?
    ensures LeastSplit(TotalCores(spec), s, 1).value == spec.Nodes() <==> KeepsLayout(spec, s)
  {
    hide CountsOf, LeastSplit, Splits;
    LeastSplitExact(TotalCores(spec), s, 1);
    OwnSplit(spec, s);
  }

  /** What a proposal makes of the job, and when its node count is the job's own: a condition on the
      job and the first usable shape. */
  lemma ProposedNodes(spec: Spec, view: seq<ClusterView>, p: Proposal)
    requires Propose(spec, view) == Some(p)
    ensures FirstUsable(spec, Tried(view)).Some?
    ensures p.nodes >= 1 && TotalCores(spec) % p.nodes == 0 && p.spec == Repacked(spec, p.nodes)
    ensures p.nodes == spec.Nodes() <==> KeepsLayout(spec, FirstUsable(spec, Tried(view)).value)
  {
    hide CountsOf, LeastSplit, Propose, FirstUsable, KeepsLayout;
    ProposeFirst(spec, view);
    ProposeExact(spec, view);
    LeastSplitExact(TotalCores(spec), p.shape, 1);
    LeastIsOwn(spec, p.shape);
  }

  function GpuTotal(spec: Spec): nat { spec.Nodes() * spec.NeedPerNode().gpus }

  /** Total gpus survive a proposal exactly when none is asked for, or the job's own layout is the least
      that fits the first usable shape. */
  lemma GpuTotalKept(spec: Spec, view: seq<ClusterView>, p: Proposal)
    requires Propose(spec, view) == Some(p)
    ensures FirstUsable(spec, Tried(view)).Some?
    ensures GpuTotal(p.spec) == GpuTotal(spec)
      <==> spec.NeedPerNode().gpus == 0 || KeepsLayout(spec, FirstUsable(spec, Tried(view)).value)
  {
    hide CountsOf, Propose, FirstUsable, KeepsLayout, Repacked;
    ProposedNodes(spec, view, p);
    GpusRepacked(spec, p.nodes);
  }

  lemma GpusRepacked(spec: Spec, n: nat)
    requires n >= 1 && TotalCores(spec) % n == 0
    ensures GpuTotal(Repacked(spec, n)) == GpuTotal(spec) <==> n == spec.Nodes() || spec.NeedPerNode().gpus == 0
  {
    hide CountsOf, Containment;
    RepackedCounts(spec, n);
    MulCancel(n, spec.Nodes(), spec.NeedPerNode().gpus);
  }

  lemma MulCancel(a: nat, b: nat, k: nat)
    ensures a * k == b * k <==> a == b || k == 0
  {
    if a < b { assert b * k == a * k + (b - a) * k; }
    if b < a { assert a * k == b * k + (a - b) * k; }
  }

  /** The task total survives exactly when it is written out, or under that same layout condition. */
  lemma TaskTotalKept(spec: Spec, view: seq<ClusterView>, p: Proposal)
    requires Propose(spec, view) == Some(p)
    ensures FirstUsable(spec, Tried(view)).Some?
    ensures TasksTotal(p.spec) == TasksTotal(spec)
      <==> FixedTaskTotal(spec) || KeepsLayout(spec, FirstUsable(spec, Tried(view)).value)
  {
    hide CountsOf, Propose, FirstUsable, KeepsLayout, Repacked, TasksTotal;
    ProposedNodes(spec, view, p);
    TasksRepacked(spec, p.nodes);
  }

  lemma TasksRepacked(spec: Spec, n: nat)
    requires n >= 1 && TotalCores(spec) % n == 0
    ensures TasksTotal(Repacked(spec, n)) == TasksTotal(spec) <==> n == spec.Nodes() || FixedTaskTotal(spec)
  {
    hide CountsOf, Containment;
    RepackedCounts(spec, n);
    if spec.tasks != [] && "per_slot" in spec.tasks[0].count && spec.tasks[0].count["per_slot"] > 0 {
      MulCancel(n, spec.Nodes(), spec.tasks[0].count["per_slot"]);
    }
  }

  lemma {:induction false} FittingMore(g: Graph, ids: seq<nat>, small: Need, large: Need)
    requires Acyclic(g) && large.Covers(small)
    ensures |Fitting(g, ids, large, {})| <= |Fitting(g, ids, small, {})|
  {
    if ids != [] { FittingMore(g, ids[..|ids| - 1], small, large); }
  }

  lemma FittingNodesMore(c: Cluster, small: Need, large: Need)
    requires large.Covers(small)
    ensures |FittingNodes(c, large, {})| <= |FittingNodes(c, small, {})|
  {
    hide Fitting;
    if CONTAINMENT in c.subsystems {
      FittingMore(c.subsystems[CONTAINMENT], NodeIds(c.subsystems[CONTAINMENT]), small, large);
    }
  }

  /** The capacity case in which the manager asks for a proposal: where no cluster has the nodes the job
      asks for, every proposal changes the node count. So it always loses the gpu total of a job that asks
      for gpus, and the task total of a job that does not write it out. */
  lemma ImpossibleJobLoses(spec: Spec, cs: seq<Cluster>, screened: Cluster -> bool, p: Proposal)
    requires Propose(spec, ViewOf(cs, screened)) == Some(p)
    requires forall c :: c in cs ==> |FittingNodes(c, spec.NeedPerNode(), {})| < spec.Nodes()
    ensures p.nodes != spec.Nodes()
    ensures GpuTotal(p.spec) == GpuTotal(spec) <==> spec.NeedPerNode().gpus == 0
    ensures TasksTotal(p.spec) == TasksTotal(spec) <==> FixedTaskTotal(spec)
  {
    hide CountsOf, Propose, KeepsLayout, FittingNodes, TasksTotal, GpuTotal, Repacked, FirstUsable;
    ProposedNodes(spec, ViewOf(cs, screened), p);
    RepackedCounts(spec, p.nodes);
    FleetProposalAccepted(spec, cs, screened, p);
    GpusRepacked(spec, p.nodes);
    TasksRepacked(spec, p.nodes);
    if p.nodes == spec.Nodes() {
      var c :| c in cs && |FittingNodes(c, p.spec.NeedPerNode(), {})| >= p.spec.Nodes();
      WholeShare(spec.Nodes(), AtLeast1(spec.NeedPerNode().cores));
      FittingNodesMore(c, spec.NeedPerNode(), p.spec.NeedPerNode());
      assert false;
    }
  }

  /** A repacked job never asks for whole nodes: so exclusivity survives exactly when the job asked for some
      core on each node and marked no `node` entry. */
  lemma ExclusiveKept(spec: Spec, view: seq<ClusterView>, p: Proposal)
    requires Propose(spec, view) == Some(p)
    ensures p.spec.NeedPerNode().cores >= 1 && !SomeNodeMarked(p.spec.resources)
    ensures Jobspec.Exclusive(p.spec.resources) == Jobspec.Exclusive(spec.resources)
      <==> spec.NeedPerNode().cores >= 1 && !SomeNodeMarked(spec.resources)
  {
    ExclusiveIff(spec.resources);
    ExclusiveIff(p.spec.resources);
    hide CountsOf, FirstUsable, KeepsLayout, Propose;
    ProposedNodes(spec, view, p);
    RepackedCounts(spec, p.nodes);
    TotalPositive(spec);
    ShareOfCores(TotalCores(spec), p.nodes);
    var core := Plain(Core, TotalCores(spec) / p.nodes, []);
    var inner := [core] + Optional(Gpu, spec.NeedPerNode().gpus) + Optional(Memory, spec.NeedPerNode().mem);
    MarkedGroup(p.nodes, false, inner);
  }

  /** A concrete loss: four one-core one-gpu nodes are proposed as one node with one gpu. */
  lemma RepackLosesGpus()
    ensures var spec := Spec(Containment(4, 1, 1, 0), [], map[]);
      var p := ProposeOn(spec, "big", [Shape(Need(4, 1, 0), 1)]);
      p.Some? && spec.Nodes() * spec.NeedPerNode().gpus == 4
          && p.value.spec.Nodes() * p.value.spec.NeedPerNode().gpus == 1
  {
    hide CountsOf, Containment;
    ContainmentCounts(4, 1, 1, 0);
    var spec, s := Spec(Containment(4, 1, 1, 0), [], map[]), Shape(Need(4, 1, 0), 1);
    assert TotalCores(spec) == 4 && Splits(4, s, 1);
    RepackedCounts(spec, 1);
  }
}
