/** The simulated matcher: which nodes of which cluster are held by which allocation.
    Allocation "alloc-n" is the number n. */
module Matcher {
  import opened Jobspec
  import opened Graphs
  import opened Satisfaction
  import opened Sections

  const CONTAINMENT := "containment"

  /** A registered cluster. `reserves` is false for satisfy-only containment, `emulated` for
      clusters that are never dispatched to; `flags` says which subsystems are descriptive. */
  datatype AnyCluster = AnyCluster(
    id: string, emulated: bool, reserves: bool, subsystems: map<string, Graph>, flags: map<string, bool>)
  {
    function Subsystem(name: string): Option<Graph> {
      if name in subsystems then Some(subsystems[name]) else None
    }

    /** nodeCapacity only returns when containment has no cycle to walk into. */
    ghost predicate Walkable() { CONTAINMENT in subsystems ==> Acyclic(subsystems[CONTAINMENT]) }
  }

  type Cluster = c: AnyCluster | c.Walkable() witness AnyCluster("", false, true, map[], map[])

  datatype Live = Live(cluster: string, nodes: seq<nat>)

  datatype Ledger = Ledger(
    clusters: map<string, Cluster>,
    order: seq<string>,
    taken: map<string, set<nat>>,
    live: map<nat, Live>,
    next: nat)

  const EMPTY := Ledger(map[], [], map[], map[], 0)

  function Elements(s: seq<nat>): set<nat> { set v | v in s }

  // ---- Reading: which nodes fit ----

  function Fitting(g: Graph, ids: seq<nat>, need: Need, busy: set<nat>): seq<nat>
    requires Acyclic(g)
  {
    if ids == [] then []
    else
      var last := ids[|ids| - 1];
      Fitting(g, ids[..|ids| - 1], need, busy)
        + if last !in busy && Capacity(g, last).Covers(need) then [last] else []
  }

  /** Node ids with enough cores, gpus and memory that are not taken, in vertex order. */
  function FittingNodes(c: Cluster, need: Need, busy: set<nat>): seq<nat> {
    if CONTAINMENT !in c.subsystems then []
    else Fitting(c.subsystems[CONTAINMENT], NodeIds(c.subsystems[CONTAINMENT]), need, busy)
  }

  lemma {:induction false} FittingMembers(g: Graph, ids: seq<nat>, need: Need, busy: set<nat>)
    requires Acyclic(g)
    ensures forall v :: v in Fitting(g, ids, need, busy) <==> v in ids && v !in busy && Capacity(g, v).Covers(need)
    ensures forall v :: v in Fitting(g, ids, need, busy) <==>
      v in ids && v !in busy && Capacity(g, v).cores >= need.cores && Capacity(g, v).gpus >= need.gpus
      && Capacity(g, v).mem >= need.mem
  {
    if ids != [] {
      FittingMembers(g, ids[..|ids| - 1], need, busy);
      assert ids == ids[..|ids| - 1] + [ids[|ids| - 1]];
    }
  }

  lemma FittingNodesUntaken(c: Cluster, need: Need, busy: set<nat>)
    ensures forall v :: v in FittingNodes(c, need, busy) ==> v !in busy
  {
    if CONTAINMENT in c.subsystems {
      FittingMembers(c.subsystems[CONTAINMENT], NodeIds(c.subsystems[CONTAINMENT]), need, busy);
    }
  }

  datatype Candidate = Candidate(
    cluster: string, feasible: bool, freeNow: bool, freeNodes: nat, matched: set<string>, missing: set<string>)

  function MatchedSubsystems(c: Cluster, spec: Spec): set<string> {
    set sub | sub in spec.requirements && SubsystemSatisfies(c.Subsystem(sub), spec.requirements[sub])
  }

  /** Could this cluster ever hold the job: every required subsystem, and enough fitting nodes when idle. */
  predicate Feasible(c: Cluster, spec: Spec) {
    && (forall sub | sub in spec.requirements :: SubsystemSatisfies(c.Subsystem(sub), spec.requirements[sub]))
    && |FittingNodes(c, spec.NeedPerNode(), {})| >= spec.Nodes()
  }

  function FreeFitting(l: Ledger, id: string, spec: Spec): seq<nat>
    requires id in l.clusters
  {
    FittingNodes(l.clusters[id], spec.NeedPerNode(), if id in l.taken then l.taken[id] else {})
  }

  function EvaluateOne(l: Ledger, id: string, spec: Spec): Candidate
    requires id in l.clusters
  {
    var c := l.clusters[id];
    var matched := MatchedSubsystems(c, spec);
    var structOK := |FittingNodes(c, spec.NeedPerNode(), {})| >= spec.Nodes();
    var missing := spec.requirements.Keys - matched + if structOK then {} else {CONTAINMENT};
    var feasible := matched == spec.requirements.Keys && structOK;
    var free := |FreeFitting(l, id, spec)|;
    Candidate(id, feasible, feasible && free >= spec.Nodes(), free, matched, missing)
  }

  function Evaluate(l: Ledger, spec: Spec): (cs: seq<Candidate>)
    requires forall id :: id in l.order ==> id in l.clusters
    ensures |cs| == |l.order| && forall i :: 0 <= i < |cs| ==> cs[i] == EvaluateOne(l, l.order[i], spec)
  {
    seq(|l.order|, i requires 0 <= i < |l.order| => EvaluateOne(l, l.order[i], spec))
  }

  lemma EvaluateFeasible(l: Ledger, id: string, spec: Spec)
    requires id in l.clusters
    ensures EvaluateOne(l, id, spec).feasible <==> Feasible(l.clusters[id], spec)
  {}

  /** What evaluation reports: the requirements met and, as missing, exactly those that are not, with
      containment among them when the idle cluster has too few fitting nodes; feasible exactly when nothing
      is missing; free now exactly when feasible with enough nodes untaken. */
  lemma CandidateMeaning(l: Ledger, id: string, spec: Spec)
    requires id in l.clusters
    ensures var x, c := EvaluateOne(l, id, spec), l.clusters[id];
      && (forall sub :: sub in x.matched <==>
            sub in spec.requirements && sub in c.subsystems
            && Meets(spec.requirements[sub], r => Satisfies(c.subsystems[sub], r)))
      && (forall sub :: sub in x.missing <==>
            (sub in spec.requirements && sub !in x.matched)
            || (sub == CONTAINMENT && |FittingNodes(c, spec.NeedPerNode(), {})| < spec.Nodes()))
      && (x.feasible <==> x.missing == {})
      && (x.freeNow <==> x.feasible && x.freeNodes >= spec.Nodes())
      && x.cluster == id && x.freeNodes == |FreeFitting(l, id, spec)|
  {
    hide FittingNodes, Satisfies, SubsystemSatisfies;
    var x, c := EvaluateOne(l, id, spec), l.clusters[id];
    forall sub | sub in spec.requirements
      ensures sub in x.matched <==>
        sub in c.subsystems && Meets(spec.requirements[sub], r => Satisfies(c.subsystems[sub], r))
    {
      if sub in c.subsystems {
        SubsystemMeaning(c.subsystems[sub], spec.requirements[sub]);
      } else {
        Unregistered(spec.requirements[sub]);
      }
    }
  }

  lemma Unregistered(section: seq<Resource>)
    ensures !SubsystemSatisfies(None, section)
  {}

  // ---- The operations as functions of the ledger ----

  function AddCluster(l: Ledger, c: Cluster): Ledger {
    if c.id in l.clusters then l.(clusters := l.clusters[c.id := c])
    else l.(clusters := l.clusters[c.id := c], order := l.order + [c.id], taken := l.taken[c.id := {}])
  }

  function Without(order: seq<string>, id: string): seq<string> {
    if order == [] then []
    else if order[0] == id then order[1..]
    else [order[0]] + Without(order[1..], id)
  }

  function RemoveCluster(l: Ledger, id: string): Ledger {
    l.(clusters := l.clusters - {id},
       order := Without(l.order, id),
       taken := l.taken - {id},
       live := map a | a in l.live && l.live[a].cluster != id :: l.live[a])
  }

  /** None is the "not registered" error. */
  function AddSubsystem(l: Ledger, id: string, name: string, g: Graph, descriptive: bool): Option<Ledger>
    requires name == CONTAINMENT ==> Acyclic(g)
  {
    if id !in l.clusters then None
    else
      var c := l.clusters[id];
      var c' := c.(subsystems := c.subsystems[name := g], flags := c.flags[name := descriptive]);
      assert c'.Walkable();
      Some(l.(clusters := l.clusters[id := c']))
  }

  function RemoveSubsystem(l: Ledger, id: string, name: string): Option<Ledger> {
    if id !in l.clusters || name == CONTAINMENT || name !in l.clusters[id].subsystems then None
    else
      var c := l.clusters[id];
      var c' := c.(subsystems := c.subsystems - {name}, flags := c.flags - {name});
      assert c'.Walkable();
      Some(l.(clusters := l.clusters[id := c']))
  }

  datatype Grant = NotRegistered | Full | Granted(id: nat, nodes: seq<nat>)

  function Allocate(l: Ledger, spec: Spec, id: string): (Ledger, Grant) {
    if id !in l.clusters then (l, NotRegistered)
    else if !l.clusters[id].reserves then (l.(next := l.next + 1), Granted(l.next + 1, []))
    else
      var free := FreeFitting(l, id, spec);
      if |free| < spec.Nodes() then (l, Full)
      else
        var chosen := free[..spec.Nodes()];
        var held := if id in l.taken then l.taken[id] else {};
        (l.(next := l.next + 1,
            taken := l.taken[id := held + Elements(chosen)],
            live := l.live[l.next + 1 := Live(id, chosen)]),
         Granted(l.next + 1, chosen))
  }

  function Free(l: Ledger, a: nat): Ledger {
    if a !in l.live then l
    else
      var rec := l.live[a];
      l.(live := l.live - {a},
         taken := if rec.cluster in l.taken
                      then l.taken[rec.cluster := l.taken[rec.cluster] - Elements(rec.nodes)]
                      else l.taken)
  }

  // ---- The invariant: the index is exactly what the live records hold ----

  ghost predicate NoDuplicates<T>(s: seq<T>) {
    forall i, j :: 0 <= i < j < |s| ==> s[i] != s[j]
  }

  ghost predicate Holds(live: map<nat, Live>, a: nat, c: string, v: nat) {
    a in live && live[a].cluster == c && v in live[a].nodes
  }

  ghost predicate Registered(l: Ledger) {
    && NoDuplicates(l.order)
    && (forall id :: id in l.order <==> id in l.clusters)
    && l.clusters.Keys == l.taken.Keys
    && (forall id :: id in l.clusters ==> l.clusters[id].id == id)
  }

  ghost predicate Minted(l: Ledger) {
    forall a :: a in l.live ==> 1 <= a <= l.next && l.live[a].cluster in l.clusters
  }

  /** taken[c] is the union of the live vertex sets on c. */
  ghost predicate IndexExact(taken: map<string, set<nat>>, live: map<nat, Live>) {
    forall c, v :: c in taken ==> (v in taken[c] <==> exists a :: Holds(live, a, c, v))
  }

  /** No node is held twice. */
  ghost predicate HeldOnce(live: map<nat, Live>) {
    forall a, b, c, v :: Holds(live, a, c, v) && Holds(live, b, c, v) ==> a == b
  }

  ghost predicate Inv(l: Ledger) {
    Registered(l) && Minted(l) && IndexExact(l.taken, l.live) && HeldOnce(l.live)
  }

  lemma EmptyInv()
    ensures Inv(EMPTY)
  {}

  lemma AddClusterInv(l: Ledger, c: Cluster)
    requires Inv(l)
    ensures Inv(AddCluster(l, c))
  {
    if c.id in l.clusters {
      SubsystemInv(l, c.id, c);
    } else {
      NewClusterInv(l, c);
    }
  }

  lemma NewClusterInv(l: Ledger, c: Cluster)
    requires Inv(l) && c.id !in l.clusters
    ensures Inv(AddCluster(l, c))
  {
    hide IndexExact;
    NewIndexExact(l, c.id);
  }

  lemma NewIndexExact(l: Ledger, id: string)
    requires Inv(l) && id !in l.clusters
    ensures IndexExact(l.taken[id := {}], l.live)
  {
    assert forall a, v :: !Holds(l.live, a, id, v);
  }

  lemma {:induction false} WithoutMembers(order: seq<string>, id: string)
    requires NoDuplicates(order)
    ensures NoDuplicates(Without(order, id))
    ensures forall x :: x in Without(order, id) <==> x in order && x != id
  {
    if order != [] {
      WithoutMembers(order[1..], id);
      assert order[0] !in order[1..];
      assert order == [order[0]] + order[1..];
    }
  }

  /** A whole fleet registered in order. */
  function Load(fleet: seq<Cluster>): Ledger {
    if fleet == [] then EMPTY else AddCluster(Load(fleet[..|fleet| - 1]), fleet[|fleet| - 1])
  }

  lemma RemoveClusterInv(l: Ledger, id: string)
    requires Inv(l)
    ensures Inv(RemoveCluster(l, id))
  {
    var m := RemoveCluster(l, id);
    WithoutMembers(l.order, id);
    assert Registered(m);
    assert forall a, x, v :: Holds(m.live, a, x, v) <==> Holds(l.live, a, x, v) && x != id;
  }

  lemma SubsystemInv(l: Ledger, id: string, c: Cluster)
    requires Inv(l) && id in l.clusters && c.id == id
    ensures Inv(l.(clusters := l.clusters[id := c]))
  {
    var m := l.(clusters := l.clusters[id := c]);
    assert m.clusters.Keys == l.clusters.Keys;
  }

  lemma AllocateInv(l: Ledger, spec: Spec, id: string)
    requires Inv(l)
    ensures Inv(Allocate(l, spec, id).0)
  {
    hide FittingNodes;
    var (m, grant) := Allocate(l, spec, id);
    if grant.Granted? && l.clusters[id].reserves {
      FittingNodesUntaken(l.clusters[id], spec.NeedPerNode(), l.taken[id]);
      GrantInv(l, m, id, grant.nodes);
    }
  }

  lemma GrantInv(l: Ledger, m: Ledger, id: string, chosen: seq<nat>)
    requires Inv(l) && id in l.clusters
    requires forall v :: v in chosen ==> v !in l.taken[id]
    requires m == l.(next := l.next + 1, taken := l.taken[id := l.taken[id] + Elements(chosen)],
                     live := l.live[l.next + 1 := Live(id, chosen)])
    ensures Inv(m)
  {
    var n := l.next + 1;
    assert n !in l.live;
    assert forall a, x, v :: Holds(m.live, a, x, v) <==> Holds(l.live, a, x, v) || (a == n && x == id && v in chosen);
    forall x, v | x in m.taken ensures v in m.taken[x] <==> exists a :: Holds(m.live, a, x, v) {
      if x == id && v in chosen { assert Holds(m.live, n, x, v); }
      if v in l.taken[x] {
        var a :| Holds(l.live, a, x, v);
        assert Holds(m.live, a, x, v);
      }
    }
  }

  lemma FreeInv(l: Ledger, a: nat)
    requires Inv(l)
    ensures Inv(Free(l, a))
  {
    if a in l.live {
      var m, rec := Free(l, a), l.live[a];
      assert forall b, x, v :: Holds(m.live, b, x, v) <==> Holds(l.live, b, x, v) && b != a;
      forall x, v | x in m.taken ensures v in m.taken[x] <==> exists b :: Holds(m.live, b, x, v) {
        if v in m.taken[x] {
          var b :| Holds(l.live, b, x, v);
          assert Holds(m.live, b, x, v);
        }
        if b :| Holds(m.live, b, x, v) {
          assert x == rec.cluster && v in rec.nodes ==> Holds(l.live, a, x, v);
        }
      }
    }
  }

  // ---- Whole runs ----

  datatype Op =
    | OpAdd(c: Cluster)
    | OpRemove(id: string)
    | OpAttach(id: string, name: string, g: Graph, descriptive: bool)
    | OpDetach(id: string, name: string)
    | OpAllocate(spec: Spec, id: string)
    | OpFree(a: nat)
  {
    ghost predicate Allowed() { OpAttach? && name == CONTAINMENT ==> Acyclic(g) }
  }

  ghost function Apply(l: Ledger, op: Op): Ledger
    requires op.Allowed()
  {
    match op
    case OpAdd(c) => AddCluster(l, c)
    case OpRemove(id) => RemoveCluster(l, id)
    case OpAttach(id, name, g, d) => (match AddSubsystem(l, id, name, g, d) case Some(m) => m case None => l)
    case OpDetach(id, name) => (match RemoveSubsystem(l, id, name) case Some(m) => m case None => l)
    case OpAllocate(spec, id) => Allocate(l, spec, id).0
    case OpFree(a) => Free(l, a)
  }

  ghost function Run(l: Ledger, ops: seq<Op>): Ledger
    requires forall op :: op in ops ==> op.Allowed()
  {
    if ops == [] then l else Apply(Run(l, ops[..|ops| - 1]), ops[|ops| - 1])
  }

  lemma ApplyInv(l: Ledger, op: Op)
    requires Inv(l) && op.Allowed()
    ensures Inv(Apply(l, op))
  {
    hide Inv, FittingNodes;
    match op
    case OpAdd(c) => AddClusterInv(l, c);
    case OpRemove(id) => RemoveClusterInv(l, id);
    case OpAttach(id, name, g, d) => AttachInv(l, id, name, g, d);
    case OpDetach(id, name) => DetachInv(l, id, name);
    case OpAllocate(spec, id) => AllocateInv(l, spec, id);
    case OpFree(a) => FreeInv(l, a);
  }

  lemma AttachInv(l: Ledger, id: string, name: string, g: Graph, descriptive: bool)
    requires Inv(l) && (name == CONTAINMENT ==> Acyclic(g))
    ensures AddSubsystem(l, id, name, g, descriptive).Some? ==> Inv(AddSubsystem(l, id, name, g, descriptive).value)
  {
    if id in l.clusters { SubsystemInv(l, id, AddSubsystem(l, id, name, g, descriptive).value.clusters[id]); }
  }

  lemma DetachInv(l: Ledger, id: string, name: string)
    requires Inv(l)
    ensures RemoveSubsystem(l, id, name).Some? ==> Inv(RemoveSubsystem(l, id, name).value)
  {
    if RemoveSubsystem(l, id, name).Some? { SubsystemInv(l, id, RemoveSubsystem(l, id, name).value.clusters[id]); }
  }

  /** Over every run: the index is the disjoint union of what the live records hold. */
  lemma {:induction false} RunInv(ops: seq<Op>)
    requires forall op :: op in ops ==> op.Allowed()
    ensures Inv(Run(EMPTY, ops))
  {
    hide Inv;
    if ops == [] {
      EmptyInv();
    } else {
      assert forall op :: op in ops[..|ops| - 1] ==> op in ops;
      RunInv(ops[..|ops| - 1]);
      ApplyInv(Run(EMPTY, ops[..|ops| - 1]), ops[|ops| - 1]);
    }
  }

  lemma ApplyDead(l: Ledger, op: Op, a: nat)
    requires op.Allowed() && a <= l.next && a !in l.live
    ensures a <= Apply(l, op).next && a !in Apply(l, op).live
  {
    hide FittingNodes, Without;
  }

  /** An id minted but no longer live stays dead: it was freed, its cluster was removed, or it held nothing. */
  lemma {:induction false} DeadStaysDead(l: Ledger, ops: seq<Op>, a: nat)
    requires forall op :: op in ops ==> op.Allowed()
    requires a <= l.next && a !in l.live
    ensures a <= Run(l, ops).next && a !in Run(l, ops).live
  {
    hide Apply;
    if ops != [] {
      assert forall op :: op in ops[..|ops| - 1] ==> op in ops;
      DeadStaysDead(l, ops[..|ops| - 1], a);
      ApplyDead(Run(l, ops[..|ops| - 1]), ops[|ops| - 1], a);
    }
  }

  /** Freeing an allocation whose cluster was removed, whatever happened since (re-registration and
      new allocations included), releases nobody else's nodes. */
  lemma StaleFree(l: Ledger, id: string, a: nat, ops: seq<Op>)
    requires Inv(l) && a in l.live && l.live[a].cluster == id
    requires forall op :: op in ops ==> op.Allowed()
    ensures var m := Run(RemoveCluster(l, id), ops); Free(m, a) == m
  {
    DeadStaysDead(RemoveCluster(l, id), ops, a);
  }

  lemma FreshGrantUndone(l: Ledger, id: string, chosen: seq<nat>)
    requires Inv(l) && id in l.clusters
    requires forall v :: v in chosen ==> v !in l.taken[id]
    ensures var n := l.next + 1;
      Free(l.(next := n, taken := l.taken[id := l.taken[id] + Elements(chosen)],
          live := l.live[n := Live(id, chosen)]), n)
        == l.(next := n)
  {
    var n := l.next + 1;
    assert l.live[n := Live(id, chosen)] - {n} == l.live;
    assert l.taken[id] + Elements(chosen) - Elements(chosen) == l.taken[id];
  }

  /** Free undoes Allocate: only the id counter remembers. */
  lemma FreeUndoesAllocate(l: Ledger, spec: Spec, id: string)
    requires Inv(l)
    ensures var (m, grant) := Allocate(l, spec, id);
      grant.Granted? ==> Free(m, grant.id) == l.(next := l.next + 1)
  {
    hide FittingNodes, Free;
    var (m, grant) := Allocate(l, spec, id);
    if grant.Granted? {
      if l.clusters[id].reserves {
        FittingNodesUntaken(l.clusters[id], spec.NeedPerNode(), l.taken[id]);
        FreshGrantUndone(l, id, grant.nodes);
      } else {
        FreeDead(m, grant.id);
      }
    }
  }

  lemma FreeDead(l: Ledger, a: nat)
    requires a !in l.live
    ensures Free(l, a) == l
  {}

  lemma {:induction false} FittingDistinct(g: Graph, ids: seq<nat>, need: Need, busy: set<nat>)
    requires Acyclic(g) && NoDuplicates(ids)
    ensures NoDuplicates(Fitting(g, ids, need, busy))
  {
    hide Capacity;
    if ids != [] {
      var front, last := ids[..|ids| - 1], ids[|ids| - 1];
      FittingDistinct(g, front, need, busy);
      FittingMembers(g, front, need, busy);
      assert last !in front;
    }
  }

  /** Node `v` of this cluster's containment, with room for the need. */
  predicate Offered(c: Cluster, need: Need, v: nat) {
    && CONTAINMENT in c.subsystems
    && v in NodeIds(c.subsystems[CONTAINMENT])
    && var offered := Capacity(c.subsystems[CONTAINMENT], v);
       offered.cores >= need.cores && offered.gpus >= need.gpus && offered.mem >= need.mem
  }

  /** What a reserving cluster grants: as many nodes as asked, each free before, big enough, and held
      afterwards; distinct when the graph's node ids are; nothing on any other cluster. A feasible
      cluster grants exactly when evaluation called it free now. */
  lemma GrantMeaning(l: Ledger, spec: Spec, id: string)
    requires Inv(l) && id in l.clusters && l.clusters[id].reserves
    ensures var (m, grant) := Allocate(l, spec, id);
      && (Feasible(l.clusters[id], spec) ==> (grant.Granted? <==> EvaluateOne(l, id, spec).freeNow))
      && (grant.Granted? ==>
            && |grant.nodes| == spec.Nodes()
            && (forall v :: v in grant.nodes ==> v !in l.taken[id] && Offered(l.clusters[id], spec.NeedPerNode(), v))
            && (NoDuplicates(NodeIds(l.clusters[id].subsystems[CONTAINMENT])) ==> NoDuplicates(grant.nodes))
            && m.taken == l.taken[id := l.taken[id] + Elements(grant.nodes)])
  {
    hide Fitting, Capacity, NodeIds, Feasible;
    EvaluateFeasible(l, id, spec);
    var c, need := l.clusters[id], spec.NeedPerNode();
    if CONTAINMENT in c.subsystems {
      var g := c.subsystems[CONTAINMENT];
      FittingMembers(g, NodeIds(g), need, l.taken[id]);
      if NoDuplicates(NodeIds(g)) { FittingDistinct(g, NodeIds(g), need, l.taken[id]); }
    }
  }

  /** The outcomes: an unregistered cluster is refused, a satisfy-only one grants without holding anything, and
      a reserving one is full exactly when fewer fitting nodes are untaken than asked for. */
  lemma AllocateOutcomes(l: Ledger, spec: Spec, id: string)
    ensures var (m, grant) := Allocate(l, spec, id);
      && (grant.NotRegistered? <==> id !in l.clusters)
      && (grant.Full? <==> id in l.clusters && l.clusters[id].reserves && |FreeFitting(l, id, spec)| < spec.Nodes())
      && (!grant.Granted? ==> m == l)
      && (grant.Granted? ==> grant.id == l.next + 1 && m.next == grant.id && m.clusters == l.clusters)
      && (grant.Granted? && !l.clusters[id].reserves ==> grant.nodes == [] && m == l.(next := l.next + 1))
      && (grant.Granted? && l.clusters[id].reserves ==> m.live == l.live[grant.id := Live(id, grant.nodes)])
  {
    hide FittingNodes;
  }

  lemma {:induction false} FittingPrefix(g: Graph, ids: seq<nat>, need: Need, busy: set<nat>, k: nat)
    requires Acyclic(g) && k <= |ids|
    ensures Fitting(g, ids[..k], need, busy) <= Fitting(g, ids, need, busy)
  {
    if k < |ids| {
      assert ids[..|ids| - 1][..k] == ids[..k];
      FittingPrefix(g, ids[..|ids| - 1], need, busy, k);
    } else {
      assert ids[..k] == ids;
    }
  }

  /** The first fitting nodes: a fitting node that is left out stands after all that are taken. */
  lemma FirstFitting(g: Graph, ids: seq<nat>, need: Need, busy: set<nat>, n: nat, k: nat, v: nat)
    requires Acyclic(g) && k < |ids| && n <= |Fitting(g, ids, need, busy)|
    requires ids[k] !in busy && Capacity(g, ids[k]).Covers(need) && ids[k] !in Fitting(g, ids, need, busy)[..n]
    requires v in Fitting(g, ids, need, busy)[..n]
    ensures v in ids[..k]
  {
    var all, before := Fitting(g, ids, need, busy), Fitting(g, ids[..k], need, busy);
    FittingPrefix(g, ids, need, busy, k);
    FittingMembers(g, ids[..k], need, busy);
    if n > |before| { TakenNext(g, ids, need, busy, n, k); }
    assert all[..n] == before[..n];
  }

  lemma TakenNext(g: Graph, ids: seq<nat>, need: Need, busy: set<nat>, n: nat, k: nat)
    requires Acyclic(g) && k < |ids| && |Fitting(g, ids[..k], need, busy)| < n <= |Fitting(g, ids, need, busy)|
    requires ids[k] !in busy && Capacity(g, ids[k]).Covers(need)
    ensures ids[k] in Fitting(g, ids, need, busy)[..n]
  {
    FittingPrefix(g, ids, need, busy, k + 1);
    assert ids[..k + 1][..k] == ids[..k];
    assert Fitting(g, ids[..k + 1], need, busy) == Fitting(g, ids[..k], need, busy) + [ids[k]];
    assert Fitting(g, ids, need, busy)[..n][|Fitting(g, ids[..k], need, busy)|] == ids[k];
  }

  /** A grant takes the earliest fitting nodes in vertex order: one that was free, large enough and not
      granted stands after every granted one. */
  lemma GrantIsEarliest(l: Ledger, spec: Spec, id: string, k: nat, v: nat)
    requires Inv(l) && id in l.clusters && l.clusters[id].reserves && Allocate(l, spec, id).1.Granted?
    requires CONTAINMENT in l.clusters[id].subsystems
    requires v in Allocate(l, spec, id).1.nodes
    requires var ids := NodeIds(l.clusters[id].subsystems[CONTAINMENT]);
      && k < |ids| && ids[k] !in l.taken[id] && ids[k] !in Allocate(l, spec, id).1.nodes
      && Capacity(l.clusters[id].subsystems[CONTAINMENT], ids[k]).Covers(spec.NeedPerNode())
    ensures v in NodeIds(l.clusters[id].subsystems[CONTAINMENT])[..k]
  {
    hide Fitting, Capacity, NodeIds, CountsOf;
    var g := l.clusters[id].subsystems[CONTAINMENT];
    FirstFitting(g, NodeIds(g), spec.NeedPerNode(), l.taken[id], spec.Nodes(), k, v);
  }

  /** The granted nodes host the whole request, mixed node entries included, one instance per node. */
  lemma GrantHostsRequest(l: Ledger, spec: Spec, id: string)
    requires Inv(l) && id in l.clusters && l.clusters[id].reserves && Allocate(l, spec, id).1.Granted?
    ensures var c, nodes := l.clusters[id], Allocate(l, spec, id).1.nodes;
      && CONTAINMENT in c.subsystems && |Demand(spec.resources)| == |nodes|
      && forall i :: 0 <= i < |nodes|
          ==> Capacity(c.subsystems[CONTAINMENT], nodes[i]).Covers(Demand(spec.resources)[i])
  {
    hide Allocate, Capacity, NodeIds, EvaluateOne, Demand, CountsOf;
    var c, nodes := l.clusters[id], Allocate(l, spec, id).1.nodes;
    GrantMeaning(l, spec, id);
    assert nodes[0] in nodes;
    var hosts := CapacitiesOf(c.subsystems[CONTAINMENT], nodes);
    forall i | 0 <= i < |nodes| ensures hosts[i].Covers(spec.NeedPerNode()) { assert nodes[i] in nodes; }
    MixedRequestHosted(spec.resources, hosts);
  }

  /** Releasing everything leaves every node of every cluster free. */
  lemma NothingHeldNothingTaken(l: Ledger, id: string, spec: Spec)
    requires Inv(l) && l.live == map[] && id in l.clusters
    ensures id in l.taken && l.taken[id] == {}
    ensures EvaluateOne(l, id, spec).freeNodes == |FittingNodes(l.clusters[id], spec.NeedPerNode(), {})|
  {
    hide FittingNodes;
    assert forall a, v :: !Holds(l.live, a, id, v);
    assert l.taken[id] == {};
  }
}
