/** Building containment graphs (cluster, rack, node, socket, core, gpu, memory) and
    reading the node capacities back out of them. */
module Builder {
  import opened Jobspec
  import opened Graphs

  datatype NodeSpec = NodeSpec(count: int, cores: int, gpus: int, mem: int)

  function Digit(d: nat): string
    requires d < 10
  {
    ["0123456789"[d]]
  }

  function Numeral(n: nat): string {
    if n < 10 then Digit(n) else Numeral(n / 10) + Digit(n % 10)
  }

  function Numbered(stem: string, i: nat): Kind { Named(stem + Numeral(i)) }

  // ---- The graph a list of node capacities denotes ----

  /** `count` vertices of one type, numbered from `base`. */
  function UnitVertices(kind: Kind, stem: string, base: nat, count: nat): seq<Vertex> {
    if count == 0 then []
    else UnitVertices(kind, stem, base, count - 1)
         + [Vertex(base + count - 1, kind, kind, Numbered(stem, count - 1), 1)]
  }

  /** `count` edges from one vertex to consecutive ids. */
  function Fan(source: nat, base: nat, count: nat): seq<Edge> {
    if count == 0 then [] else Fan(source, base, count - 1) + [Edge(source, base + count - 1)]
  }

  function Range(base: nat, count: nat): seq<nat> {
    if count == 0 then [] else Range(base, count - 1) + [base + count - 1]
  }

  lemma {:induction false} UnitVerticesAt(kind: Kind, stem: string, base: nat, count: nat)
    ensures var vs := UnitVertices(kind, stem, base, count);
      |vs| == count && forall i :: 0 <= i < count ==> vs[i].id == base + i && vs[i].kind == kind && vs[i].size == 1
  {
    if count > 0 { UnitVerticesAt(kind, stem, base, count - 1); }
  }

  lemma {:induction false} FanMembers(source: nat, base: nat, count: nat)
    ensures forall e :: e in Fan(source, base, count) ==> e.source == source && base <= e.target < base + count
  {
    if count > 0 { FanMembers(source, base, count - 1); }
  }

  function MemCount(n: Need): nat { if n.mem > 0 then 1 else 0 }

  function BlockSize(n: Need): nat { 2 + n.cores + n.gpus + MemCount(n) }

  function MemVertices(base: nat, n: Need): seq<Vertex> {
    if n.mem > 0 then [Vertex(base, Memory, Memory, Numbered("memory", 0), n.mem)] else []
  }

  /** The vertices of one node whose first id is `b`. */
  function BlockVertices(b: nat, index: nat, n: Need): seq<Vertex> {
    [Vertex(b, Node, Node, Numbered("node", index), 1), Vertex(b + 1, Socket, Socket, Numbered("socket", 0), 1)]
    + UnitVertices(Core, "core", b + 2, n.cores)
    + UnitVertices(Gpu, "gpu", b + 2 + n.cores, n.gpus)
    + MemVertices(b + 2 + n.cores + n.gpus, n)
  }

  const RACK: nat := 1

  function BlockEdges(b: nat, n: Need): seq<Edge> {
    [Edge(RACK, b), Edge(b, b + 1)]
    + Fan(b + 1, b + 2, n.cores)
    + Fan(b, b + 2 + n.cores, n.gpus)
    + Fan(b, b + 2 + n.cores + n.gpus, MemCount(n))
  }

  function NextId(ns: seq<Need>): (id: nat)
    ensures id >= 2
  {
    if ns == [] then 2 else NextId(ns[..|ns| - 1]) + BlockSize(ns[|ns| - 1])
  }

  function Built(cluster: string, ns: seq<Need>): Graph {
    if ns == [] then
      Graph([Vertex(0, Root, Named(cluster), Named(cluster), 1), Vertex(RACK, Rack, Rack, Numbered("rack", 0), 1)],
            [Edge(0, RACK)])
    else
      var front, n := ns[..|ns| - 1], ns[|ns| - 1];
      var g, b := Built(cluster, front), NextId(front);
      Graph(g.nodes + BlockVertices(b, |front|, n), g.edges + BlockEdges(b, n))
  }

  function Clamp(s: NodeSpec): Need { Need(AtLeast0(s.cores), AtLeast0(s.gpus), AtLeast0(s.mem)) }

  /** One capacity per node a list of groups describes. */
  function Flatten(groups: seq<NodeSpec>): seq<Need> {
    if groups == [] then []
    else
      var last := groups[|groups| - 1];
      Flatten(groups[..|groups| - 1]) + Repeat(AtLeast0(last.count), Clamp(last))
  }

  // ---- Shape of a built graph ----

  /** Every id is its vertex's position, and every edge leads from a smaller id to a larger one. */
  ghost predicate WellNumbered(g: Graph, next: nat) {
    && |g.nodes| == next
    && (forall i :: 0 <= i < next ==> g.nodes[i].id == i)
    && (forall e :: e in g.edges ==> e.source < e.target < next)
  }

  lemma BlockNumbered(b: nat, index: nat, n: Need)
    requires b >= 2
    ensures |BlockVertices(b, index, n)| == BlockSize(n)
    ensures forall i :: 0 <= i < BlockSize(n) ==> BlockVertices(b, index, n)[i].id == b + i
    ensures forall e :: e in BlockEdges(b, n) ==>
        (e.source == RACK || b <= e.source) && e.source < e.target && b <= e.target < b + BlockSize(n)
  {
    hide Fan, UnitVertices, Numeral, Numbered;
    UnitVerticesAt(Core, "core", b + 2, n.cores);
    UnitVerticesAt(Gpu, "gpu", b + 2 + n.cores, n.gpus);
    FanMembers(b + 1, b + 2, n.cores);
    FanMembers(b, b + 2 + n.cores, n.gpus);
    FanMembers(b, b + 2 + n.cores + n.gpus, MemCount(n));
  }

  lemma {:induction false} BuiltNumbered(cluster: string, ns: seq<Need>)
    ensures WellNumbered(Built(cluster, ns), NextId(ns))
  {
    if ns != [] {
      var front, n := ns[..|ns| - 1], ns[|ns| - 1];
      BuiltNumbered(cluster, front);
      BlockNumbered(NextId(front), |front|, n);
    }
  }

  lemma WellNumberedLookup(g: Graph, next: nat, id: nat)
    requires WellNumbered(g, next)
    ensures Lookup(g.nodes, id) == if id < next then Some(g.nodes[id]) else None
  {
    LookupPrefix(g.nodes, next, id);
  }

  lemma {:induction false} LookupPrefix(nodes: seq<Vertex>, next: nat, id: nat)
    requires |nodes| == next && forall i :: 0 <= i < next ==> nodes[i].id == i
    ensures Lookup(nodes, id) == if id < next then Some(nodes[id]) else None
  {
    if next > 0 { LookupPrefix(nodes[..next - 1], next - 1, id); }
  }

  /** Edges that climb in id order can be ranked, so every walk over them ends. */
  lemma WellNumberedAcyclic(g: Graph, next: nat)
    requires WellNumbered(g, next)
    ensures Acyclic(g)
  {
    var rank := (id: nat) => if id < next then next - id else 0;
    assert Ranks(g, rank);
  }

  // ---- A built graph is one tree ----

  /** Which types of vertices stand directly below which. */
  predicate Level(parent: Kind, child: Kind) {
    || (parent == Root && child == Rack)
    || (parent == Rack && child == Node)
    || (parent == Node && child in {Socket, Gpu, Memory})
    || (parent == Socket && child == Core)
  }

  /** The edge list is a parent table: edge i leads to vertex i + 1, from an earlier vertex of the level above. */
  ghost predicate ParentTable(g: Graph) {
    && |g.nodes| == |g.edges| + 1 && g.nodes[0].kind == Root
    && forall i :: 0 <= i < |g.edges| ==>
         && g.edges[i].target == i + 1 && g.edges[i].source <= i
         && Level(g.nodes[g.edges[i].source].kind, g.nodes[i + 1].kind)
  }

  lemma {:induction false} FanAt(source: nat, base: nat, count: nat)
    ensures |Fan(source, base, count)| == count
    ensures forall i :: 0 <= i < count ==> Fan(source, base, count)[i] == Edge(source, base + i)
  {
    if count > 0 { FanAt(source, base, count - 1); }
  }

  /** Edge by edge, what one node's block adds. */
  lemma BlockEdgeAt(b: nat, n: Need, i: nat)
    requires i < BlockSize(n)
    ensures |BlockEdges(b, n)| == BlockSize(n)
    ensures BlockEdges(b, n)[i] == Edge(if i == 0 then RACK else if 2 <= i < 2 + n.cores then b + 1 else b, b + i)
  {
    hide Fan;
    FanAt(b + 1, b + 2, n.cores);
    FanAt(b, b + 2 + n.cores, n.gpus);
    FanAt(b, b + 2 + n.cores + n.gpus, MemCount(n));
  }

  lemma BlockKindAt(b: nat, index: nat, n: Need, i: nat)
    requires i < BlockSize(n)
    ensures |BlockVertices(b, index, n)| == BlockSize(n)
    ensures BlockVertices(b, index, n)[i].kind == if i == 0 then Node else if i == 1 then Socket
        else if i < 2 + n.cores then Core else if i < 2 + n.cores + n.gpus then Gpu else Memory
  {
    hide UnitVertices, Numeral, Numbered;
    UnitVerticesAt(Core, "core", b + 2, n.cores);
    UnitVerticesAt(Gpu, "gpu", b + 2 + n.cores, n.gpus);
  }

  lemma BlockExtends(g: Graph, b: nat, index: nat, n: Need)
    requires ParentTable(g) && |g.nodes| == b >= 2 && g.nodes[RACK].kind == Rack
    ensures ParentTable(Graph(g.nodes + BlockVertices(b, index, n), g.edges + BlockEdges(b, n)))
  {
    hide BlockVertices, BlockEdges;
    var h := Graph(g.nodes + BlockVertices(b, index, n), g.edges + BlockEdges(b, n));
    BlockEdgeAt(b, n, 0);
    BlockKindAt(b, index, n, 0);
    BlockKindAt(b, index, n, 1);
    forall i | 0 <= i < |h.edges|
      ensures h.edges[i].target == i + 1 && h.edges[i].source <= i
      ensures Level(h.nodes[h.edges[i].source].kind, h.nodes[i + 1].kind)
    {
      if i >= |g.edges| {
        BlockEdgeAt(b, n, i - |g.edges|);
        BlockKindAt(b, index, n, i - |g.edges|);
      }
    }
  }

  /** Every built graph is one tree below its first vertex, level by level cluster, rack, node and socket, with
      cores under sockets and gpus and memory beside them. */
  lemma {:induction false} BuiltTree(cluster: string, ns: seq<Need>)
    ensures ParentTable(Built(cluster, ns)) && |Built(cluster, ns).nodes| == NextId(ns)
    ensures |Built(cluster, ns).nodes| > RACK && Built(cluster, ns).nodes[RACK].kind == Rack
  {
    hide BlockVertices, BlockEdges, ParentTable, Numeral;
    if ns == [] {
      NoNodesYet(cluster);
    } else {
      var front, n := ns[..|ns| - 1], ns[|ns| - 1];
      BuiltTree(cluster, front);
      BlockExtends(Built(cluster, front), NextId(front), |front|, n);
      BlockKindAt(NextId(front), |front|, n, 0);
    }
  }

  lemma NoNodesYet(cluster: string)
    ensures ParentTable(Built(cluster, []))
  {}

  lemma {:induction false} NumeralsDiffer(a: nat, b: nat)
    requires Numeral(a) == Numeral(b)
    ensures a == b
  {
    NumeralLength(a);
    NumeralLength(b);
    LastDigit(a);
    LastDigit(b);
    if a >= 10 && b >= 10 {
      assert Numeral(a)[..|Numeral(a)| - 1] == Numeral(a / 10);
      assert Numeral(b)[..|Numeral(b)| - 1] == Numeral(b / 10);
      NumeralsDiffer(a / 10, b / 10);
    }
  }

  lemma NumeralLength(n: nat)
    ensures |Numeral(n)| >= 1 && (|Numeral(n)| == 1 <==> n < 10)
  {}

  lemma LastDigit(n: nat)
    ensures |Numeral(n)| >= 1 && Numeral(n)[|Numeral(n)| - 1] == "0123456789"[n % 10]
    ensures forall i, j :: 0 <= i < j < 10 ==> "0123456789"[i] != "0123456789"[j]
  {}

  /** Nodes are numbered through: each node vertex has the name of its position among the nodes. */
  lemma {:induction false} BuiltNames(cluster: string, ns: seq<Need>)
    ensures |NodeIds(Built(cluster, ns))| == |ns|
    ensures forall k :: 0 <= k < |ns| ==>
      var id := NodeIds(Built(cluster, ns))[k];
      id < |Built(cluster, ns).nodes| && Built(cluster, ns).nodes[id].name == Named("node" + Numeral(k))
  {
    hide Numeral, BlockVertices, BlockEdges, Appended, NodeIds;
    BuiltTree(cluster, ns);
    if ns == [] {
      BuiltNodeIds(cluster, ns);
    } else {
      var front, n := ns[..|ns| - 1], ns[|ns| - 1];
      BuiltNames(cluster, front);
      BuiltTree(cluster, front);
      BuiltIds(cluster, ns);
      BlockKindAt(NextId(front), |front|, n, 0);
      NodeName(NextId(front), |front|, n);
    }
  }

  lemma NodeName(b: nat, index: nat, n: Need)
    ensures BlockVertices(b, index, n) != [] && BlockVertices(b, index, n)[0].name == Named("node" + Numeral(index))
  {
    hide UnitVertices, Numeral;
  }

  /** So no two nodes of a built cluster share a name. */
  lemma NodeNamesDiffer(cluster: string, ns: seq<Need>, i: nat, j: nat)
    requires i < j < |ns|
    ensures var g := Built(cluster, ns);
      && |NodeIds(g)| == |ns| && NodeIds(g)[i] < |g.nodes| && NodeIds(g)[j] < |g.nodes|
      && g.nodes[NodeIds(g)[i]].name != g.nodes[NodeIds(g)[j]].name
  {
    hide Numeral, NodeIds, Built;
    BuiltNames(cluster, ns);
    if Numeral(i) == Numeral(j) { NumeralsDiffer(i, j); }
    assert ("node" + Numeral(i))[4..] == Numeral(i) && ("node" + Numeral(j))[4..] == Numeral(j);
  }

  // ---- Capacities read back from a built graph ----

  lemma {:induction false} KidsFan(source: nat, base: nat, count: nat, id: nat)
    ensures Kids(Fan(source, base, count), id) == if id == source then Range(base, count) else []
  {
    if count > 0 {
      KidsFan(source, base, count - 1, id);
      var es := Fan(source, base, count);
      assert es[..|es| - 1] == Fan(source, base, count - 1);
    }
  }

  function When(c: bool, ids: seq<nat>): seq<nat> { if c then ids else [] }

  lemma KidsHead(b: nat, id: nat)
    ensures Kids([Edge(RACK, b), Edge(b, b + 1)], id) == When(id == RACK, [b]) + When(id == b, [b + 1])
  {
    KidsAppend([Edge(RACK, b)], [Edge(b, b + 1)], id);
    assert [Edge(RACK, b)] + [Edge(b, b + 1)] == [Edge(RACK, b), Edge(b, b + 1)];
  }

  lemma KidsFour(p: seq<Edge>, q: seq<Edge>, r: seq<Edge>, s: seq<Edge>, id: nat)
    ensures Kids(p + q + r + s, id) == Kids(p, id) + Kids(q, id) + Kids(r, id) + Kids(s, id)
  {
    KidsAppend(p + q + r, s, id);
    KidsAppend(p + q, r, id);
    KidsAppend(p, q, id);
  }

  lemma KidsBlock(b: nat, n: Need, id: nat)
    ensures Kids(BlockEdges(b, n), id)
         == When(id == RACK, [b]) + When(id == b, [b + 1]) + When(id == b + 1, Range(b + 2, n.cores))
            + When(id == b, Range(b + 2 + n.cores, n.gpus))
                + When(id == b, Range(b + 2 + n.cores + n.gpus, MemCount(n)))
  {
    hide Kids, Fan, Range;
    KidsFour([Edge(RACK, b), Edge(b, b + 1)], Fan(b + 1, b + 2, n.cores), Fan(b, b + 2 + n.cores, n.gpus),
             Fan(b, b + 2 + n.cores + n.gpus, MemCount(n)), id);
    KidsHead(b, id);
    KidsFan(b + 1, b + 2, n.cores, id);
    KidsFan(b, b + 2 + n.cores, n.gpus, id);
    KidsFan(b, b + 2 + n.cores + n.gpus, MemCount(n), id);
  }

  lemma NoKids(edges: seq<Edge>, id: nat)
    requires forall e :: e in edges ==> e.source != id
    ensures Kids(edges, id) == []
  {
    KidsMembers(edges, id);
    if Kids(edges, id) != [] { assert Kids(edges, id)[0] in Kids(edges, id); }
  }

  /** A childless vertex of the given type and size. */
  ghost predicate Leaf(g: Graph, id: nat, of: Kind, size: nat) {
    && Kids(g.edges, id) == []
    && Lookup(g.nodes, id).Some?
    && Lookup(g.nodes, id).value.kind == of
    && Lookup(g.nodes, id).value.size == size
  }

  ghost predicate Leaves(g: Graph, base: nat, count: nat, of: Kind, size: nat) {
    forall id: nat :: base <= id < base + count ==> Leaf(g, id, of, size)
  }

  /** Consecutive leaves of one type and size. */
  lemma {:induction false} UnderRange(kind: Kind, g: Graph, parent: nat, base: nat, count: nat, of: Kind, size: nat)
    requires Acyclic(g) && size >= 1
    requires ChildrenOf(g, parent, Range(base, count))
    requires Leaves(g, base, count, of, size)
    ensures UnderAll(kind, g, parent, Range(base, count)) == if kind == of then count * size else 0
  {
    if count > 0 {
      var r, last := Range(base, count), base + count - 1;
      assert r[..|r| - 1] == Range(base, count - 1);
      UnderRange(kind, g, parent, base, count - 1, of, size);
      assert Leaf(g, last, of, size);
      assert Under(kind, g, last) == 0;
      MulPlus(size, count - 1, 1);
    }
  }

  /** What appending one node's block does to the children and vertices of a graph. */
  ghost predicate Appended(g: Graph, b: nat, index: nat, n: Need, h: Graph) {
    && b >= 2 && WellNumbered(g, b)
    && h == Graph(g.nodes + BlockVertices(b, index, n), g.edges + BlockEdges(b, n))
    && WellNumbered(h, b + BlockSize(n))
  }

  lemma AppendedOld(g: Graph, b: nat, index: nat, n: Need, h: Graph, id: nat)
    requires Appended(g, b, index, n, h) && 2 <= id < b
    ensures Kids(h.edges, id) == Kids(g.edges, id)
    ensures Lookup(h.nodes, id) == Lookup(g.nodes, id)
  {
    KidsAppend(g.edges, BlockEdges(b, n), id);
    KidsBlock(b, n, id);
    WellNumberedLookup(g, b, id);
    WellNumberedLookup(h, b + BlockSize(n), id);
  }

  lemma AppendedNew(g: Graph, b: nat, index: nat, n: Need, h: Graph, id: nat)
    requires Appended(g, b, index, n, h) && b <= id < b + BlockSize(n)
    ensures Kids(h.edges, id) == Kids(BlockEdges(b, n), id)
    ensures Lookup(h.nodes, id) == Some(BlockVertices(b, index, n)[id - b])
  {
    KidsAppend(g.edges, BlockEdges(b, n), id);
    NoKids(g.edges, id);
    WellNumberedLookup(h, b + BlockSize(n), id);
  }

  /** The new block leaves every older node's capacity as it was. */
  lemma OldCapacity(g: Graph, b: nat, index: nat, n: Need, h: Graph, id: nat)
    requires Appended(g, b, index, n, h) && 2 <= id < b
    requires Acyclic(g) && Acyclic(h)
    ensures Capacity(h, id) == Capacity(g, id)
  {
    hide Under, Kids, Lookup, BlockVertices, BlockEdges, UnderAll;
    var inside := (x: nat) => 2 <= x < b;
    forall x | inside(x) ensures Kids(h.edges, x) == Kids(g.edges, x) {
      AppendedOld(g, b, index, n, h, x);
    }
    forall x, c | inside(x) && c in Kids(g.edges, x) ensures inside(c) && Lookup(h.nodes, c) == Lookup(g.nodes, c) {
      KidsMembers(g.edges, x);
      assert Edge(x, c) in g.edges;
      AppendedOld(g, b, index, n, h, c);
    }
    assert Agree(g, h, inside);
    UnderStable(Core, g, h, id, inside);
    UnderStable(Gpu, g, h, id, inside);
    UnderStable(Memory, g, h, id, inside);
  }

  /** Cores, gpus and memory are the leaves of a block. */
  lemma BlockLeaf(g: Graph, b: nat, index: nat, n: Need, h: Graph, id: nat)
    requires Appended(g, b, index, n, h) && b + 2 <= id < b + BlockSize(n)
    ensures var i := id - b - 2;
      if i < n.cores then Leaf(h, id, Core, 1)
      else if i < n.cores + n.gpus then Leaf(h, id, Gpu, 1)
      else Leaf(h, id, Memory, n.mem)
  {
    hide Kids, Fan, Range, UnitVertices, Lookup, Numeral, Numbered, WellNumbered, BlockEdges;
    AppendedNew(g, b, index, n, h, id);
    KidsBlock(b, n, id);
    UnitVerticesAt(Core, "core", b + 2, n.cores);
    UnitVerticesAt(Gpu, "gpu", b + 2 + n.cores, n.gpus);
  }

  lemma BlockLeaves(g: Graph, b: nat, index: nat, n: Need, h: Graph)
    requires Appended(g, b, index, n, h)
    ensures Leaves(h, b + 2, n.cores, Core, 1)
    ensures Leaves(h, b + 2 + n.cores, n.gpus, Gpu, 1)
    ensures Leaves(h, b + 2 + n.cores + n.gpus, MemCount(n), Memory, n.mem)
  {
    forall id: nat | b + 2 <= id < b + BlockSize(n)
      ensures var i := id - b - 2;
        if i < n.cores then Leaf(h, id, Core, 1)
        else if i < n.cores + n.gpus then Leaf(h, id, Gpu, 1)
        else Leaf(h, id, Memory, n.mem)
    {
      BlockLeaf(g, b, index, n, h, id);
    }
  }

  /** Under the socket are exactly the node's cores. */
  lemma UnderSocket(kind: Kind, h: Graph, b: nat, cores: nat)
    requires Acyclic(h)
    requires Kids(h.edges, b + 1) == Range(b + 2, cores)
    requires Leaves(h, b + 2, cores, Core, 1)
    ensures Under(kind, h, b + 1) == if kind == Core then cores else 0
  {
    KidsMembers(h.edges, b + 1);
    UnderRange(kind, h, b + 1, b + 2, cores, Core, 1);
  }

  /** The new node's capacity is the one its block was built from. */
  lemma NewCapacity(g: Graph, b: nat, index: nat, n: Need, h: Graph)
    requires Appended(g, b, index, n, h) && Acyclic(h)
    ensures Capacity(h, b) == n
  {
    hide Under, Kids, Range, Fan, UnitVertices, Lookup, BlockEdges, Numeral, WellNumbered, UnderAll, Leaf;
    BlockLeaves(g, b, index, n, h);
    AppendedNew(g, b, index, n, h, b);
    AppendedNew(g, b, index, n, h, b + 1);
    KidsBlock(b, n, b);
    KidsBlock(b, n, b + 1);
    UnderNode(Core, h, b, n);
    UnderNode(Gpu, h, b, n);
    UnderNode(Memory, h, b, n);
  }

  lemma UnderNode(kind: Kind, h: Graph, b: nat, n: Need)
    requires Acyclic(h) && kind != Socket
    requires Kids(h.edges, b) == [b + 1] + Range(b + 2 + n.cores, n.gpus) + Range(b + 2 + n.cores + n.gpus, MemCount(n))
    requires Kids(h.edges, b + 1) == Range(b + 2, n.cores)
    requires Lookup(h.nodes, b + 1).Some? && Lookup(h.nodes, b + 1).value.kind == Socket
    requires Leaves(h, b + 2, n.cores, Core, 1)
    requires Leaves(h, b + 2 + n.cores, n.gpus, Gpu, 1)
    requires Leaves(h, b + 2 + n.cores + n.gpus, MemCount(n), Memory, n.mem)
    ensures Under(kind, h, b)
        == (if kind == Core then n.cores else 0) + (if kind == Gpu then n.gpus else 0)
        + (if kind == Memory then n.mem else 0)
  {
    hide Kids, Range, Under, UnderAll;
    var gpus, mem := Range(b + 2 + n.cores, n.gpus), Range(b + 2 + n.cores + n.gpus, MemCount(n));
    KidsMembers(h.edges, b);
    SplitChildren(h, b, [b + 1], gpus, mem);
    UnderIs(kind, h, b);
    UnderAllAppend(kind, h, b, [b + 1], gpus);
    UnderAllAppend(kind, h, b, [b + 1] + gpus, mem);
    UnderOne(kind, h, b, b + 1);
    UnderSocket(kind, h, b, n.cores);
    UnderRange(kind, h, b, b + 2 + n.cores, n.gpus, Gpu, 1);
    UnderRange(kind, h, b, b + 2 + n.cores + n.gpus, MemCount(n), Memory, if n.mem > 0 then n.mem else 1);
  }

  lemma UnderIs(kind: Kind, g: Graph, id: nat)
    requires Acyclic(g)
    ensures ChildrenOf(g, id, Kids(g.edges, id))
    ensures Under(kind, g, id) == UnderAll(kind, g, id, Kids(g.edges, id))
  {
    KidsMembers(g.edges, id);
  }

  lemma UnderOne(kind: Kind, g: Graph, parent: nat, c: nat)
    requires Acyclic(g) && ChildrenOf(g, parent, [c]) && Lookup(g.nodes, c).Some?
    ensures var v := Lookup(g.nodes, c).value;
      UnderAll(kind, g, parent, [c]) == (if v.kind == kind then AtLeast1(v.size) else 0) + Under(kind, g, c)
  {
    assert [c][..0] == [];
  }

  lemma SplitChildren(h: Graph, parent: nat, a: seq<nat>, b: seq<nat>, c: seq<nat>)
    requires ChildrenOf(h, parent, a + b + c)
    ensures ChildrenOf(h, parent, a) && ChildrenOf(h, parent, b) && ChildrenOf(h, parent, c)
  {
    assert forall x :: x in a || x in b || x in c ==> x in a + b + c;
  }

  lemma {:induction false} UnitIds(kind: Kind, stem: string, base: nat, count: nat)
    requires kind != Node
    ensures IdsOfKind(UnitVertices(kind, stem, base, count), Node) == []
  {
    hide Numeral, Numbered;
    if count > 0 {
      UnitIds(kind, stem, base, count - 1);
      var vs := UnitVertices(kind, stem, base, count);
      assert vs[..|vs| - 1] == UnitVertices(kind, stem, base, count - 1);
    }
  }

  lemma BlockNodeIds(b: nat, index: nat, n: Need)
    ensures IdsOfKind(BlockVertices(b, index, n), Node) == [b]
  {
    hide Numeral, Numbered, UnitVertices, IdsOfKind;
    var vs := BlockVertices(b, index, n);
    var head, cores := vs[..2], UnitVertices(Core, "core", b + 2, n.cores);
    var gpus, mem := UnitVertices(Gpu, "gpu", b + 2 + n.cores, n.gpus), MemVertices(b + 2 + n.cores + n.gpus, n);
    UnitIds(Core, "core", b + 2, n.cores);
    UnitIds(Gpu, "gpu", b + 2 + n.cores, n.gpus);
    NodeThenSocket(head);
    MemIds(b + 2 + n.cores + n.gpus, n);
    assert vs == head + cores + gpus + mem;
    IdsFour(head, cores, gpus, mem);
  }

  lemma MemIds(base: nat, n: Need)
    ensures IdsOfKind(MemVertices(base, n), Node) == []
  {}

  lemma NodeThenSocket(vs: seq<Vertex>)
    requires |vs| == 2 && vs[0].kind == Node && vs[1].kind == Socket
    ensures IdsOfKind(vs, Node) == [vs[0].id]
  {
    IdsAppend([vs[0]], [vs[1]], Node);
    assert vs == [vs[0]] + [vs[1]];
  }

  lemma IdsFour(p: seq<Vertex>, q: seq<Vertex>, r: seq<Vertex>, s: seq<Vertex>)
    ensures IdsOfKind(p + q + r + s, Node)
        == IdsOfKind(p, Node) + IdsOfKind(q, Node) + IdsOfKind(r, Node) + IdsOfKind(s, Node)
  {
    IdsAppend(p + q + r, s, Node);
    IdsAppend(p + q, r, Node);
    IdsAppend(p, q, Node);
  }

  lemma BuiltIds(cluster: string, ns: seq<Need>)
    requires ns != []
    ensures var front, n := ns[..|ns| - 1], ns[|ns| - 1];
      && NodeIds(Built(cluster, ns)) == NodeIds(Built(cluster, front)) + [NextId(front)]
      && Appended(Built(cluster, front), NextId(front), |front|, n, Built(cluster, ns))
  {
    var front, n := ns[..|ns| - 1], ns[|ns| - 1];
    BuiltNumbered(cluster, front);
    BuiltNumbered(cluster, ns);
    IdsAppend(Built(cluster, front).nodes, BlockVertices(NextId(front), |front|, n), Node);
    BlockNodeIds(NextId(front), |front|, n);
  }

  lemma BuiltAcyclic(cluster: string, ns: seq<Need>)
    ensures Acyclic(Built(cluster, ns))
  {
    BuiltNumbered(cluster, ns);
    WellNumberedAcyclic(Built(cluster, ns), NextId(ns));
  }

  lemma {:induction false} BuiltNodeIds(cluster: string, ns: seq<Need>)
    ensures |NodeIds(Built(cluster, ns))| == |ns|
    ensures forall id :: id in NodeIds(Built(cluster, ns)) ==> 2 <= id < NextId(ns)
  {
    hide Numeral, Numbered, BlockVertices, BlockEdges, Appended;
    if ns == [] {
      var g := Built(cluster, ns);
      IdsAppend([g.nodes[0]], [g.nodes[1]], Node);
      assert [g.nodes[0]] + [g.nodes[1]] == g.nodes;
    } else {
      BuiltIds(cluster, ns);
      BuiltNodeIds(cluster, ns[..|ns| - 1]);
    }
  }

  /** Round trip: the walk recovers, in order, exactly the node capacities the graph was built from. */
  lemma {:induction false} BuiltCapacities(cluster: string, ns: seq<Need>)
    ensures Acyclic(Built(cluster, ns))
    ensures NodeCapacities(Built(cluster, ns)) == ns
  {
    hide Under, Kids, Lookup, BlockVertices, BlockEdges;
    var h := Built(cluster, ns);
    BuiltAcyclic(cluster, ns);
    BuiltNodeIds(cluster, ns);
    if ns != [] {
      var front, n := ns[..|ns| - 1], ns[|ns| - 1];
      var g, b := Built(cluster, front), NextId(front);
      BuiltCapacities(cluster, front);
      BuiltNodeIds(cluster, front);
      BuiltIds(cluster, ns);
      NewCapacity(g, b, |front|, n, h);
      forall i | 0 <= i < |front| ensures NodeCapacities(h)[i] == ns[i] {
        assert NodeIds(g)[i] in NodeIds(g);
        OldCapacity(g, b, |front|, n, h, NodeIds(g)[i]);
        assert NodeCapacities(g)[i] == front[i];
      }
    }
  }

  // ---- The builder itself ----

  /** jgfBuilder: a growing graph, the id counter, and the node counter. */
  class JgfBuilder {
    var nodes: seq<Vertex>
    var edges: seq<Edge>
    var next: nat
    var nodeId: nat

    constructor ()
      ensures nodes == [] && edges == [] && next == 0 && nodeId == 0
    {
      nodes, edges, next, nodeId := [], [], 0, 0;
    }

    /** The graph built so far is the one `ns` denotes. */
    ghost predicate Denotes(cluster: string, ns: seq<Need>)
      reads this
    {
      Graph(nodes, edges) == Built(cluster, ns) && next == NextId(ns) && nodeId == |ns|
    }

    method Add(v: Vertex) returns (id: nat)
      modifies this
      ensures id == old(next) && next == old(next) + 1
      ensures nodes == old(nodes) + [v.(id := id)]
      ensures edges == old(edges) && nodeId == old(nodeId)
    {
      id := next;
      next := next + 1;
      nodes := nodes + [v.(id := id)];
    }

    method Link(source: nat, target: nat)
      modifies this
      ensures edges == old(edges) + [Edge(source, target)]
      ensures nodes == old(nodes) && next == old(next) && nodeId == old(nodeId)
    {
      edges := edges + [Edge(source, target)];
    }

    method AddUnits(kind: Kind, stem: string, parent: nat, count: int)
      modifies this
      ensures nodes == old(nodes) + UnitVertices(kind, stem, old(next), AtLeast0(count))
      ensures edges == old(edges) + Fan(parent, old(next), AtLeast0(count))
      ensures next == old(next) + AtLeast0(count) && nodeId == old(nodeId)
    {
      hide Numeral, Numbered;
      ghost var nodes0, edges0, next0 := nodes, edges, next;
      var i := 0;
      while i < count
        invariant 0 <= i <= AtLeast0(count)
        invariant nodes == nodes0 + UnitVertices(kind, stem, next0, i)
        invariant edges == edges0 + Fan(parent, next0, i)
        invariant next == next0 + i && nodeId == old(nodeId)
      {
        var id := Add(Vertex(0, kind, kind, Numbered(stem, i), 1));
        Link(parent, id);
        i := i + 1;
      }
    }

    /** One node with its socket, cores, gpus and memory, under the rack. */
    method AddNode(s: NodeSpec)
      modifies this
      ensures nodes == old(nodes) + BlockVertices(old(next), old(nodeId), Clamp(s))
      ensures edges == old(edges) + BlockEdges(old(next), Clamp(s))
      ensures next == old(next) + BlockSize(Clamp(s)) && nodeId == old(nodeId) + 1
    {
      hide Numeral, UnitVertices, Fan;
      var node := Add(Vertex(0, Node, Node, Numbered("node", nodeId), 1));
      Link(RACK, node);
      var socket := Add(Vertex(0, Socket, Socket, Numbered("socket", 0), 1));
      Link(node, socket);
      AddUnits(Core, "core", socket, s.cores);
      AddUnits(Gpu, "gpu", node, s.gpus);
      ghost var nodes1, edges1, next1 := nodes, edges, next;
      if s.mem > 0 {
        var mem := Add(Vertex(0, Memory, Memory, Numbered("memory", 0), s.mem));
        Link(node, mem);
      }
      FanSmall(node, next1, MemCount(Clamp(s)));
      assert nodes == nodes1 + MemVertices(next1, Clamp(s));
      assert edges == edges1 + Fan(node, next1, MemCount(Clamp(s)));
      nodeId := nodeId + 1;
    }
  }

  lemma FanSmall(source: nat, base: nat, count: nat)
    requires count <= 1
    ensures Fan(source, base, count) == if count == 0 then [] else [Edge(source, base)]
  {}

  lemma BuiltSnoc(cluster: string, ns: seq<Need>, n: Need)
    ensures var g, b := Built(cluster, ns), NextId(ns);
      Built(cluster, ns + [n]) == Graph(g.nodes + BlockVertices(b, |ns|, n), g.edges + BlockEdges(b, n))
      && NextId(ns + [n]) == b + BlockSize(n)
  {
    assert (ns + [n])[..|ns|] == ns;
  }

  method AddGroup(b: JgfBuilder, s: NodeSpec, ghost cluster: string, ghost before: seq<Need>)
    requires b.Denotes(cluster, before)
    modifies b
    ensures b.Denotes(cluster, before + Repeat(AtLeast0(s.count), Clamp(s)))
  {
    hide Numeral, BlockVertices, BlockEdges, BlockSize, Built, NextId;
    var i := 0;
    assert before + Repeat(0, Clamp(s)) == before;
    while i < s.count
      invariant 0 <= i <= AtLeast0(s.count)
      invariant b.Denotes(cluster, before + Repeat(i, Clamp(s)))
    {
      BuiltSnoc(cluster, before + Repeat(i, Clamp(s)), Clamp(s));
      b.AddNode(s);
      i := i + 1;
      assert before + Repeat(i, Clamp(s)) == before + Repeat(i - 1, Clamp(s)) + [Clamp(s)];
    }
  }

  /** BuildContainment: groups in order, each group's nodes one by one. */
  method BuildContainment(cluster: string, groups: seq<NodeSpec>) returns (g: Graph)
    ensures g == Built(cluster, Flatten(groups))
  {
    hide Numeral, BlockVertices, BlockEdges, BlockSize;
    var b := new JgfBuilder();
    var root := b.Add(Vertex(0, Root, Named(cluster), Named(cluster), 1));
    var rack := b.Add(Vertex(0, Rack, Rack, Numbered("rack", 0), 1));
    b.Link(root, rack);
    for k := 0 to |groups|
      invariant fresh(b) && b.Denotes(cluster, Flatten(groups[..k]))
    {
      AddGroup(b, groups[k], cluster, Flatten(groups[..k]));
      assert groups[..k + 1][..k] == groups[..k];
    }
    assert groups[..|groups|] == groups;
    g := Graph(b.nodes, b.edges);
  }
}
