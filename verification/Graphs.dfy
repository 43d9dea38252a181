/** Resource graphs: vertices, directed parent-to-child edges, and the recursive
    walks that sum what lies under a vertex. Vertex ids are compared only for
    equality, so they are naturals here; a later vertex with the same id wins. */
module Graphs {
  import opened Jobspec

  datatype Vertex = Vertex(id: nat, kind: Kind, basename: Kind, name: Kind, size: int)

  datatype Edge = Edge(source: nat, target: nat)

  datatype Graph = Graph(nodes: seq<Vertex>, edges: seq<Edge>)

  datatype Option<+T> = None | Some(value: T)

  function Lookup(nodes: seq<Vertex>, id: nat): (v: Option<Vertex>)
    ensures v.Some? ==> v.value in nodes && v.value.id == id
  {
    if nodes == [] then None
    else if nodes[|nodes| - 1].id == id then Some(nodes[|nodes| - 1])
    else Lookup(nodes[..|nodes| - 1], id)
  }

  /** Targets of the edges leaving `id`, in edge order. */
  function Kids(edges: seq<Edge>, id: nat): seq<nat> {
    if edges == [] then []
    else
      var last := edges[|edges| - 1];
      Kids(edges[..|edges| - 1], id) + if last.source == id then [last.target] else []
  }

  lemma {:induction false} KidsMembers(edges: seq<Edge>, id: nat)
    ensures forall c :: c in Kids(edges, id) <==> Edge(id, c) in edges
  {
    if edges != [] {
      KidsMembers(edges[..|edges| - 1], id);
      assert edges == edges[..|edges| - 1] + [edges[|edges| - 1]];
    }
  }

  /** Ids of the vertices of one type, in vertex order. */
  function IdsOfKind(nodes: seq<Vertex>, kind: Kind): seq<nat> {
    if nodes == [] then []
    else
      var last := nodes[|nodes| - 1];
      IdsOfKind(nodes[..|nodes| - 1], kind) + if last.kind == kind then [last.id] else []
  }

  /** They are the ids of exactly the vertices of that type. */
  lemma {:induction false} IdsOfKindMembers(nodes: seq<Vertex>, kind: Kind, id: nat)
    ensures id in IdsOfKind(nodes, kind) <==> exists v :: v in nodes && v.kind == kind && v.id == id
  {
    if nodes != [] {
      IdsOfKindMembers(nodes[..|nodes| - 1], kind, id);
      assert nodes == nodes[..|nodes| - 1] + [nodes[|nodes| - 1]];
    }
  }

  /** JGF.index: the two maps every traversal starts from. */
  method Index(g: Graph) returns (byId: map<nat, Vertex>, children: map<nat, seq<nat>>)
    ensures forall id :: id in byId <==> Lookup(g.nodes, id).Some?
    ensures forall id :: id in byId ==> Lookup(g.nodes, id) == Some(byId[id])
    ensures forall id: nat :: Kids(g.edges, id) == if id in children then children[id] else []
  {
    byId, children := map[], map[];
    for i := 0 to |g.nodes|
      invariant forall id :: id in byId <==> Lookup(g.nodes[..i], id).Some?
      invariant forall id :: id in byId ==> Lookup(g.nodes[..i], id) == Some(byId[id])
    {
      assert g.nodes[..i + 1][..i] == g.nodes[..i];
      byId := byId[g.nodes[i].id := g.nodes[i]];
    }
    for i := 0 to |g.edges|
      invariant forall id: nat :: Kids(g.edges[..i], id) == if id in children then children[id] else []
    {
      var e := g.edges[i];
      assert g.edges[..i + 1][..i] == g.edges[..i];
      children := children[e.source := (if e.source in children then children[e.source] else []) + [e.target]];
    }
    assert g.nodes[..|g.nodes|] == g.nodes && g.edges[..|g.edges|] == g.edges;
  }

  // ---- Summing a subtree ----

  ghost predicate Ranks(g: Graph, rank: nat -> nat) {
    forall e :: e in g.edges && Lookup(g.nodes, e.target).Some? ==> rank(e.target) < rank(e.source)
  }

  /** No walk along edges between vertices runs forever. */
  ghost predicate Acyclic(g: Graph) {
    exists rank: nat -> nat :: Ranks(g, rank)
  }

  ghost function RankOf(g: Graph): (rank: nat -> nat)
    requires Acyclic(g)
    ensures Ranks(g, rank)
  {
    var rank: nat -> nat :| Ranks(g, rank);
    rank
  }

  /** Units of `kind` strictly below vertex `id`; a size of zero or less counts as one. */
  function Under(kind: Kind, g: Graph, id: nat): nat
    requires Acyclic(g)
    decreases RankOf(g)(id), 1, 0
  {
    KidsMembers(g.edges, id);
    UnderAll(kind, g, id, Kids(g.edges, id))
  }

  ghost predicate ChildrenOf(g: Graph, parent: nat, ids: seq<nat>) {
    forall c :: c in ids ==> Edge(parent, c) in g.edges
  }

  function UnderAll(kind: Kind, g: Graph, parent: nat, ids: seq<nat>): nat
    requires Acyclic(g)
    requires ChildrenOf(g, parent, ids)
    decreases RankOf(g)(parent), 0, |ids|
  {
    if ids == [] then 0
    else
      var front, last := ids[..|ids| - 1], ids[|ids| - 1];
      assert last in ids;
      UnderAll(kind, g, parent, front)
        + match Lookup(g.nodes, last)
          case None => 0
          case Some(v) => (if v.kind == kind then AtLeast1(v.size) else 0) + Under(kind, g, last)
  }

  function Capacity(g: Graph, id: nat): Need
    requires Acyclic(g)
  {
    Need(Under(Core, g, id), Under(Gpu, g, id), Under(Memory, g, id))
  }

  function CapacitiesOf(g: Graph, ids: seq<nat>): (cs: seq<Need>)
    requires Acyclic(g)
    ensures |cs| == |ids| && forall i :: 0 <= i < |ids| ==> cs[i] == Capacity(g, ids[i])
  {
    seq(|ids|, i requires 0 <= i < |ids| => Capacity(g, ids[i]))
  }

  function NodeIds(g: Graph): seq<nat> { IdsOfKind(g.nodes, Node) }

  function NodeCapacities(g: Graph): seq<Need>
    requires Acyclic(g)
  {
    CapacitiesOf(g, NodeIds(g))
  }

  /** nodeCapacity: one accumulating recursion over the children. */
  method NodeCapacity(g: Graph, id: nat) returns (n: Need)
    requires Acyclic(g)
    ensures n == Capacity(g, id)
  {
    n := WalkUnder(g, id, NOTHING);
  }

  method WalkUnder(g: Graph, id: nat, acc: Need) returns (n: Need)
    requires Acyclic(g)
    ensures n == Need(acc.cores + Under(Core, g, id), acc.gpus + Under(Gpu, g, id), acc.mem + Under(Memory, g, id))
    decreases RankOf(g)(id)
  {
    hide Lookup, Kids;
    n := acc;
    var ks := Kids(g.edges, id);
    KidsMembers(g.edges, id);
    for i := 0 to |ks|
      invariant n.cores == acc.cores + UnderAll(Core, g, id, ks[..i])
      invariant n.gpus == acc.gpus + UnderAll(Gpu, g, id, ks[..i])
      invariant n.mem == acc.mem + UnderAll(Memory, g, id, ks[..i])
    {
      assert ks[i] in ks && ks[..i + 1][..i] == ks[..i];
      var v := Lookup(g.nodes, ks[i]);
      if v.Some? {
        n := n.Add(v.value.kind, AtLeast1(v.value.size));
        n := WalkUnder(g, ks[i], n);
      }
    }
    assert ks[..|ks|] == ks;
  }

  // ---- Concatenation of vertex and edge lists ----

  lemma {:induction false} LookupAppend(a: seq<Vertex>, b: seq<Vertex>, id: nat)
    ensures Lookup(a + b, id) == if Lookup(b, id).Some? then Lookup(b, id) else Lookup(a, id)
  {
    if b == [] {
      assert a + b == a;
    } else {
      LookupAppend(a, b[..|b| - 1], id);
      assert (a + b)[..|a + b| - 1] == a + b[..|b| - 1];
    }
  }

  lemma {:induction false} KidsAppend(a: seq<Edge>, b: seq<Edge>, id: nat)
    ensures Kids(a + b, id) == Kids(a, id) + Kids(b, id)
  {
    if b == [] {
      assert a + b == a;
    } else {
      KidsAppend(a, b[..|b| - 1], id);
      assert (a + b)[..|a + b| - 1] == a + b[..|b| - 1];
    }
  }

  lemma {:induction false} IdsAppend(a: seq<Vertex>, b: seq<Vertex>, kind: Kind)
    ensures IdsOfKind(a + b, kind) == IdsOfKind(a, kind) + IdsOfKind(b, kind)
  {
    if b == [] {
      assert a + b == a;
    } else {
      IdsAppend(a, b[..|b| - 1], kind);
      assert (a + b)[..|a + b| - 1] == a + b[..|b| - 1];
    }
  }

  lemma {:induction false} UnderAllAppend(kind: Kind, g: Graph, parent: nat, a: seq<nat>, b: seq<nat>)
    requires Acyclic(g)
    requires ChildrenOf(g, parent, a) && ChildrenOf(g, parent, b)
    ensures ChildrenOf(g, parent, a + b)
    ensures UnderAll(kind, g, parent, a + b) == UnderAll(kind, g, parent, a) + UnderAll(kind, g, parent, b)
  {
    if b == [] {
      assert a + b == a;
    } else {
      var f := b[..|b| - 1];
      assert (a + b)[..|a + b| - 1] == a + f;
      UnderAllAppend(kind, g, parent, a, f);
    }
  }

  /** Inside a set closed under children, both graphs have the same edges and vertices. */
  ghost predicate Agree(g: Graph, h: Graph, inside: nat -> bool) {
    && (forall x :: inside(x) ==> Kids(h.edges, x) == Kids(g.edges, x))
    && (forall x, c :: inside(x) && c in Kids(g.edges, x) ==> inside(c) && Lookup(h.nodes, c) == Lookup(g.nodes, c))
  }

  /** A walk sees only the children and vertices it can reach: enlarging a graph
      elsewhere changes nothing under `id`. */
  lemma {:induction false} UnderStable(kind: Kind, g: Graph, h: Graph, id: nat, inside: nat -> bool)
    requires Acyclic(g) && Acyclic(h)
    requires inside(id) && Agree(g, h, inside)
    ensures Under(kind, h, id) == Under(kind, g, id)
    decreases RankOf(g)(id), 1, 0
  {
    KidsMembers(g.edges, id);
    KidsMembers(h.edges, id);
    UnderAllStable(kind, g, h, id, Kids(g.edges, id), inside);
  }

  lemma {:induction false} UnderAllStable(kind: Kind, g: Graph, h: Graph, id: nat, ids: seq<nat>, inside: nat -> bool)
    requires Acyclic(g) && Acyclic(h)
    requires inside(id) && Agree(g, h, inside)
    requires ChildrenOf(g, id, ids) && ChildrenOf(h, id, ids)
    ensures UnderAll(kind, h, id, ids) == UnderAll(kind, g, id, ids)
    decreases RankOf(g)(id), 0, |ids|
  {
    hide Lookup, Kids;
    if ids != [] {
      var front, last := ids[..|ids| - 1], ids[|ids| - 1];
      assert last in ids;
      KidsMembers(g.edges, id);
      UnderAllStable(kind, g, h, id, front, inside);
      if Lookup(g.nodes, last).Some? { UnderStable(kind, g, h, last, inside); }
    }
  }
}
