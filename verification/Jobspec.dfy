/** The agnostic job description: the containment request tree, what it counts to,
    and its canonical renderings. Counts use unbounded integers. */
module Jobspec {

  /** Resource type names: the words the code treats specially, and every other name. */
  datatype Kind =
    | Node | Core | Gpu | Memory | Socket | Slot | Rack | Root | AnyOf
    | Named(name: string)

  datatype Resource = Resource(
    kind: Kind,
    count: int,
    slot: string,
    exclusive: bool,
    unit: string,
    with: seq<Resource>)

  datatype Task = Task(command: seq<string>, slot: string, count: map<string, int>)

  datatype Spec = Spec(
    resources: seq<Resource>,
    tasks: seq<Task>,
    requirements: map<string, seq<Resource>>)
  {
    function Counts(): (c: Count) { CountsOf(resources) }
    function Nodes(): (n: nat) { Counts().nodes }
    function NeedPerNode(): (n: Need) { Counts().need }
  }

  function Plain(kind: Kind, count: int, with: seq<Resource>): Resource {
    Resource(kind, count, "", false, "", with)
  }

  function AtLeast1(v: int): (n: nat) { if v < 1 then 1 else v }

  function AtLeast0(v: int): (n: nat) { if v < 0 then 0 else v }

  /** What one node must offer (or does offer). */
  datatype Need = Need(cores: nat, gpus: nat, mem: nat)
  {
    function Join(o: Need): Need {
      Need(if o.cores > cores then o.cores else cores,
           if o.gpus > gpus then o.gpus else gpus,
           if o.mem > mem then o.mem else mem)
    }
    predicate Covers(o: Need) { cores >= o.cores && gpus >= o.gpus && mem >= o.mem }

    /** Adds `units` units of a resource type; types other than core, gpu and memory add nothing. */
    function Add(kind: Kind, units: nat): Need {
      match kind
      case Core => Need(cores + units, gpus, mem)
      case Gpu => Need(cores, gpus + units, mem)
      case Memory => Need(cores, gpus, mem + units)
      case _ => this
    }
  }

  const NOTHING := Need(0, 0, 0)

  datatype Count = Count(nodes: nat, need: Need)

  // ---- Reference meaning of a request tree ----

  /** Units of `kind` one entry asks of a node: its count times itself and what is under it. */
  function EntryAsks(kind: Kind, r: Resource): nat
    decreases r, 1
  {
    AtLeast1(r.count) * ((if r.kind == kind then 1 else 0) + Asked(kind, r.with))
  }

  function Asked(kind: Kind, rs: seq<Resource>): nat
    decreases rs, 0
  {
    if rs == [] then 0 else EntryAsks(kind, rs[0]) + Asked(kind, rs[1..])
  }

  function PerNodeNeed(rs: seq<Resource>): Need {
    Need(Asked(Core, rs), Asked(Gpu, rs), Asked(Memory, rs))
  }

  /** A chain of entries from the top of the request down to one outermost `node` entry. */
  type Chain = seq<Resource>

  function Prepend(r: Resource, cs: seq<Chain>): (p: seq<Chain>)
    ensures |p| == |cs|
  {
    if cs == [] then [] else [[r] + cs[0]] + Prepend(r, cs[1..])
  }

  function EntryChains(r: Resource): seq<Chain>
    decreases r, 1
  {
    if r.kind == Node then [[r]] else Prepend(r, Chains(r.with))
  }

  function Chains(rs: seq<Resource>): seq<Chain>
    decreases rs, 0
  {
    if rs == [] then [] else EntryChains(rs[0]) + Chains(rs[1..])
  }

  function Product(c: Chain): (p: nat)
    ensures p >= 1
  {
    if c == [] then 1
    else
      var k, rest := AtLeast1(c[0].count), Product(c[1..]);
      assert k * rest >= 1 * rest;
      k * rest
  }

  function ChainNeed(c: Chain): Need {
    if c == [] then NOTHING else PerNodeNeed(c[|c| - 1].with)
  }

  function TotalNodes(cs: seq<Chain>): nat {
    if cs == [] then 0 else Product(cs[0]) + TotalNodes(cs[1..])
  }

  function LargestNeed(cs: seq<Chain>): Need {
    if cs == [] then NOTHING else ChainNeed(cs[0]).Join(LargestNeed(cs[1..]))
  }

  /** A request with no `node` entry is one node asking for the whole tree. */
  function CountsOf(rs: seq<Resource>): (c: Count)
    ensures c.nodes >= 1
  {
    var cs := Chains(rs);
    if cs == [] then Count(1, PerNodeNeed(rs)) else Count(TotalNodes(cs), LargestNeed(cs))
  }

  /** Every chain runs from a top-level entry, through parents to children, to its one `node` entry. */
  ghost predicate OutermostChain(rs: seq<Resource>, c: Chain) {
    && c != [] && c[0] in rs
    && (forall i :: 0 <= i < |c| - 1 ==> c[i].kind != Node && c[i + 1] in c[i].with)
    && c[|c| - 1].kind == Node
  }

  lemma {:induction false} PrependMembers(r: Resource, cs: seq<Chain>, c: Chain)
    ensures c in Prepend(r, cs) <==> exists t :: t in cs && c == [r] + t
  {
    if cs != [] {
      PrependMembers(r, cs[1..], c);
      assert cs == [cs[0]] + cs[1..];
    }
  }

  /** The chains are exactly the outermost `node` entries with their paths. */
  lemma {:induction false} ChainsAreOutermost(rs: seq<Resource>, c: Chain)
    ensures c in Chains(rs) <==> OutermostChain(rs, c)
    decreases rs
  {
    if rs != [] {
      var r := rs[0];
      ChainsAreOutermost(rs[1..], c);
      assert rs == [r] + rs[1..];
      assert OutermostChain(rs, c) <==> OutermostChain([r], c) || OutermostChain(rs[1..], c);
      if r.kind == Node {
        assert c == [r] <==> OutermostChain([r], c);
      } else {
        var t := if c == [] then [] else c[1..];
        ChainsAreOutermost(r.with, t);
        HeadChain(r, t);
        PrependMembers(r, Chains(r.with), c);
        assert forall u :: ([r] + u)[1..] == u;
        assert c != [] && c[0] == r ==> c == [r] + t;
      }
    }
  }

  lemma HeadChain(r: Resource, t: Chain)
    requires r.kind != Node
    ensures OutermostChain([r], [r] + t) <==> OutermostChain(r.with, t)
  {
    var c := [r] + t;
    if t != [] {
      assert forall i :: 0 <= i < |t| ==> c[i + 1] == t[i];
      if OutermostChain([r], c) {
        assert c[0 + 1] in c[0].with;
        forall i | 0 <= i < |t| - 1 ensures t[i].kind != Node && t[i + 1] in t[i].with {
          assert c[(i + 1) + 1] in c[i + 1].with;
        }
      }
      if OutermostChain(r.with, t) {
        forall i | 0 <= i < |c| - 1 ensures c[i].kind != Node && c[i + 1] in c[i].with {
          if i > 0 { assert t[(i - 1) + 1] in t[i - 1].with; }
        }
      }
    }
  }

  /** A place in a request: the index at each step down. */
  type Spot = seq<nat>

  /** The place of a `node` entry with no `node` entry above it. */
  predicate OutermostSpot(rs: seq<Resource>, p: Spot)
    decreases p
  {
    && p != [] && p[0] < |rs|
    && if |p| == 1 then rs[p[0]].kind == Node else rs[p[0]].kind != Node && OutermostSpot(rs[p[0]].with, p[1..])
  }

  /** The entries on the way down to a place. */
  function ChainAt(rs: seq<Resource>, p: Spot): Chain
    requires OutermostSpot(rs, p)
    decreases p
  {
    [rs[p[0]]] + if |p| == 1 then [] else ChainAt(rs[p[0]].with, p[1..])
  }

  function InFirst(ps: seq<Spot>): (qs: seq<Spot>)
    ensures |qs| == |ps| && forall i :: 0 <= i < |ps| ==> qs[i] == [0] + ps[i]
  {
    seq(|ps|, i requires 0 <= i < |ps| => [0] + ps[i])
  }

  function OneOn(p: Spot): Spot { if p == [] then [] else [p[0] + 1] + p[1..] }

  function InRest(ps: seq<Spot>): (qs: seq<Spot>)
    ensures |qs| == |ps| && forall i :: 0 <= i < |ps| ==> qs[i] == OneOn(ps[i])
  {
    seq(|ps|, i requires 0 <= i < |ps| => OneOn(ps[i]))
  }

  /** Where the chains come from, in the order the chains are listed. */
  function Spots(rs: seq<Resource>): seq<Spot>
    decreases rs
  {
    if rs == [] then []
    else (if rs[0].kind == Node then [[0]] else InFirst(Spots(rs[0].with))) + InRest(Spots(rs[1..]))
  }

  lemma {:induction false} PrependEach(r: Resource, cs: seq<Chain>)
    ensures forall i :: 0 <= i < |cs| ==> Prepend(r, cs)[i] == [r] + cs[i]
  {
    if cs != [] { PrependEach(r, cs[1..]); }
  }

  lemma SpotInFirst(rs: seq<Resource>, p: Spot)
    requires rs != [] && p != []
    ensures OutermostSpot(rs, [0] + p) <==> rs[0].kind != Node && OutermostSpot(rs[0].with, p)
    ensures OutermostSpot(rs, [0] + p) ==> ChainAt(rs, [0] + p) == [rs[0]] + ChainAt(rs[0].with, p)
  {
    assert ([0] + p)[1..] == p;
  }

  lemma SpotInRest(rs: seq<Resource>, p: Spot)
    requires rs != [] && p != []
    ensures OutermostSpot(rs, OneOn(p)) <==> OutermostSpot(rs[1..], p)
    ensures OutermostSpot(rs[1..], p) ==> ChainAt(rs, OneOn(p)) == ChainAt(rs[1..], p)
  {
    assert OneOn(p)[1..] == p[1..];
  }

  /** Chain by chain, the place it comes from; no place twice. */
  ghost predicate FromSpots(rs: seq<Resource>, cs: seq<Chain>, ps: seq<Spot>) {
    && |cs| == |ps|
    && (forall i :: 0 <= i < |ps| ==> OutermostSpot(rs, ps[i]) && cs[i] == ChainAt(rs, ps[i]))
    && (forall i, j :: 0 <= i < j < |ps| ==> ps[i] != ps[j])
  }

  lemma FirstFromSpots(rs: seq<Resource>, cs: seq<Chain>, ps: seq<Spot>)
    requires rs != [] && rs[0].kind != Node && FromSpots(rs[0].with, cs, ps)
    ensures FromSpots(rs, Prepend(rs[0], cs), InFirst(ps))
    ensures forall p :: p in InFirst(ps) ==> p != [] && p[0] == 0
  {
    hide OutermostSpot, ChainAt;
    PrependEach(rs[0], cs);
    forall i | 0 <= i < |ps|
      ensures OutermostSpot(rs, InFirst(ps)[i]) && Prepend(rs[0], cs)[i] == ChainAt(rs, InFirst(ps)[i])
    {
      SpotIsNonempty(rs[0].with, ps[i]);
      SpotInFirst(rs, ps[i]);
    }
    DistinctInFirst(ps);
  }

  lemma RestFromSpots(rs: seq<Resource>, cs: seq<Chain>, ps: seq<Spot>)
    requires rs != [] && FromSpots(rs[1..], cs, ps)
    ensures FromSpots(rs, cs, InRest(ps))
    ensures forall p :: p in InRest(ps) ==> p != [] && p[0] > 0
  {
    hide OutermostSpot, ChainAt;
    forall i | 0 <= i < |ps|
      ensures ps[i] != [] && OutermostSpot(rs, InRest(ps)[i]) && cs[i] == ChainAt(rs, InRest(ps)[i])
    {
      SpotIsNonempty(rs[1..], ps[i]);
      SpotInRest(rs, ps[i]);
    }
    DistinctInRest(ps);
  }

  lemma SpotIsNonempty(rs: seq<Resource>, p: Spot)
    requires OutermostSpot(rs, p)
    ensures p != []
  {}

  lemma JoinFromSpots(rs: seq<Resource>, cs: seq<Chain>, ps: seq<Spot>, ds: seq<Chain>, qs: seq<Spot>)
    requires FromSpots(rs, cs, ps) && FromSpots(rs, ds, qs)
    requires forall p, q :: p in ps && q in qs ==> p != q
    ensures FromSpots(rs, cs + ds, ps + qs)
  {
    hide OutermostSpot, ChainAt;
    forall i, j | 0 <= i < j < |ps + qs| ensures (ps + qs)[i] != (ps + qs)[j] {
      if i < |ps| <= j { assert ps[i] in ps && qs[j - |ps|] in qs; }
    }
  }

  lemma NodeFromSpot(rs: seq<Resource>)
    requires rs != [] && rs[0].kind == Node
    ensures FromSpots(rs, [[rs[0]]], [[0]])
  {
    var p: Spot := [0];
    assert OutermostSpot(rs, p);
    assert ChainAt(rs, p) == [rs[0]];
  }

  /** The chains are the paths to the outermost `node` entries, one for each place such an entry stands,
      equal siblings included. */
  lemma {:induction false} ChainsBySpot(rs: seq<Resource>)
    ensures FromSpots(rs, Chains(rs), Spots(rs))
    decreases rs
  {
    hide FromSpots;
    if rs == [] {
      NoSpots();
    } else {
      ChainsBySpot(rs[1..]);
      RestFromSpots(rs, Chains(rs[1..]), Spots(rs[1..]));
      if rs[0].kind == Node {
        NodeFromSpot(rs);
        JoinFromSpots(rs, [[rs[0]]], [[0]], Chains(rs[1..]), InRest(Spots(rs[1..])));
      } else {
        ChainsBySpot(rs[0].with);
        FirstFromSpots(rs, Chains(rs[0].with), Spots(rs[0].with));
        JoinFromSpots(rs, Prepend(rs[0], Chains(rs[0].with)), InFirst(Spots(rs[0].with)),
                      Chains(rs[1..]), InRest(Spots(rs[1..])));
      }
    }
  }

  lemma NoSpots()
    ensures FromSpots([], [], [])
  {}

  lemma DistinctInFirst(ps: seq<Spot>)
    requires forall i, j :: 0 <= i < j < |ps| ==> ps[i] != ps[j]
    ensures forall i, j :: 0 <= i < j < |ps| ==> InFirst(ps)[i] != InFirst(ps)[j]
  {
    forall i, j | 0 <= i < j < |ps| ensures InFirst(ps)[i] != InFirst(ps)[j] {
      assert InFirst(ps)[i][1..] == ps[i] && InFirst(ps)[j][1..] == ps[j];
    }
  }

  lemma DistinctInRest(ps: seq<Spot>)
    requires forall i, j :: 0 <= i < j < |ps| ==> ps[i] != ps[j]
    requires forall i :: 0 <= i < |ps| ==> ps[i] != []
    ensures forall i, j :: 0 <= i < j < |ps| ==> InRest(ps)[i] != InRest(ps)[j]
  {
    forall i, j | 0 <= i < j < |ps| ensures OneOn(ps[i]) != OneOn(ps[j]) {
      OneOnInjective(ps[i], ps[j]);
    }
  }

  lemma OneOnInjective(p: Spot, q: Spot)
    requires p != [] && q != [] && p != q
    ensures OneOn(p) != OneOn(q)
  {
    if p[0] == q[0] {
      assert p == [p[0]] + p[1..] && q == [q[0]] + q[1..];
      assert OneOn(p)[1..] == p[1..] && OneOn(q)[1..] == q[1..];
    } else {
      assert OneOn(p)[0] != OneOn(q)[0];
    }
  }

  /** Every place an outermost `node` entry stands is among them. */
  lemma {:induction false} EverySpot(rs: seq<Resource>, p: Spot)
    requires OutermostSpot(rs, p)
    ensures p in Spots(rs)
    decreases rs
  {
    if p[0] > 0 {
      LaterSpot(rs, p);
      EverySpot(rs[1..], [p[0] - 1] + p[1..]);
      InRestHas(Spots(rs[1..]), [p[0] - 1] + p[1..]);
    } else if |p| == 1 {
      assert p == [0];
    } else {
      assert p == [0] + p[1..];
      EverySpot(rs[0].with, p[1..]);
      InFirstHas(Spots(rs[0].with), p[1..]);
    }
  }

  lemma LaterSpot(rs: seq<Resource>, p: Spot)
    requires OutermostSpot(rs, p) && p[0] > 0
    ensures rs != [] && OutermostSpot(rs[1..], [p[0] - 1] + p[1..]) && OneOn([p[0] - 1] + p[1..]) == p
  {
    var q := [p[0] - 1] + p[1..];
    assert q[1..] == p[1..];
    SpotInRest(rs, q);
  }

  lemma InFirstHas(ps: seq<Spot>, p: Spot)
    requires p in ps
    ensures [0] + p in InFirst(ps)
  {
    var i :| 0 <= i < |ps| && ps[i] == p;
    assert InFirst(ps)[i] == [0] + p;
  }

  lemma InRestHas(ps: seq<Spot>, p: Spot)
    requires p in ps
    ensures OneOn(p) in InRest(ps)
  {
    var i :| 0 <= i < |ps| && ps[i] == p;
    assert InRest(ps)[i] == OneOn(p);
  }

  // ---- The accumulator walk of Jobspec.counts ----

  lemma MulPlus(k: nat, a: nat, b: nat)
    ensures k * (a + b) == k * a + k * b
  {}

  lemma ProductCons(r: Resource, c: Chain)
    ensures Product([r] + c) == AtLeast1(r.count) * Product(c)
  {
    assert ([r] + c)[1..] == c;
  }

  lemma {:induction false} PrependNodes(r: Resource, cs: seq<Chain>)
    ensures TotalNodes(Prepend(r, cs)) == AtLeast1(r.count) * TotalNodes(cs)
  {
    if cs != [] {
      PrependNodes(r, cs[1..]);
      ProductCons(r, cs[0]);
      MulPlus(AtLeast1(r.count), Product(cs[0]), TotalNodes(cs[1..]));
    }
  }

  lemma {:induction false} PrependNeed(r: Resource, cs: seq<Chain>)
    requires forall c :: c in cs ==> c != []
    ensures LargestNeed(Prepend(r, cs)) == LargestNeed(cs)
  {
    if cs != [] {
      assert cs[0] in cs && forall c :: c in cs[1..] ==> c in cs;
      PrependNeed(r, cs[1..]);
      assert ChainNeed([r] + cs[0]) == ChainNeed(cs[0]);
    }
  }

  lemma ChainsNonempty(rs: seq<Resource>)
    ensures forall c :: c in Chains(rs) ==> c != []
  {
    forall c | c in Chains(rs) ensures c != [] { ChainsAreOutermost(rs, c); }
  }

  lemma {:induction false} AppendNodes(a: seq<Chain>, b: seq<Chain>)
    ensures TotalNodes(a + b) == TotalNodes(a) + TotalNodes(b)
  {
    if a == [] {
      assert a + b == b;
    } else {
      AppendNodes(a[1..], b);
      assert (a + b)[1..] == a[1..] + b;
    }
  }

  lemma {:induction false} AppendNeed(a: seq<Chain>, b: seq<Chain>)
    ensures LargestNeed(a + b) == LargestNeed(a).Join(LargestNeed(b))
  {
    if a == [] {
      assert a + b == b;
    } else {
      AppendNeed(a[1..], b);
      assert (a + b)[1..] == a[1..] + b;
      JoinAssociative(ChainNeed(a[0]), LargestNeed(a[1..]), LargestNeed(b));
    }
  }

  lemma JoinAssociative(a: Need, b: Need, c: Need)
    ensures a.Join(b).Join(c) == a.Join(b.Join(c))
  {}

  /** What one top-level entry contributes to the node count and to the per-node maxima. */
  lemma EntryTotals(r: Resource)
    ensures TotalNodes(EntryChains(r)) == AtLeast1(r.count) * (if r.kind == Node then 1 else TotalNodes(Chains(r.with)))
    ensures LargestNeed(EntryChains(r)) == if r.kind == Node then PerNodeNeed(r.with) else LargestNeed(Chains(r.with))
    ensures EntryChains(r) == [] <==> r.kind != Node && Chains(r.with) == []
  {
    if r.kind == Node {
      assert EntryChains(r)[1..] == [];
      assert Product([r]) == AtLeast1(r.count) * Product([]);
    } else {
      ChainsNonempty(r.with);
      PrependNodes(r, Chains(r.with));
      PrependNeed(r, Chains(r.with));
    }
  }

  lemma Distribute(mult: nat, k: nat, a: nat, b: nat)
    ensures mult * (k * a + b) == (mult * k) * a + mult * b
  {
    assert mult * (k * a + b) == mult * (k * a) + mult * b;
    assert mult * (k * a) == (mult * k) * a;
  }

  /** Peeling one entry off a scaled per-node sum. */
  lemma ScaledAsk(kind: Kind, rs: seq<Resource>, mult: nat)
    requires rs != []
    ensures var m := mult * AtLeast1(rs[0].count);
      mult * Asked(kind, rs)
          == (if rs[0].kind == kind then m else 0) + m * Asked(kind, rs[0].with) + mult * Asked(kind, rs[1..])
  {
    var k, own := AtLeast1(rs[0].count), if rs[0].kind == kind then 1 else 0;
    var inner, rest := Asked(kind, rs[0].with), Asked(kind, rs[1..]);
    Distribute(mult, k, own + inner, rest);
    assert (mult * k) * (own + inner) == (mult * k) * own + (mult * k) * inner;
  }

  ghost predicate SumSoFar(kind: Kind, total: nat, left: seq<Resource>, mult: nat, acc: nat, all: seq<Resource>) {
    total + mult * Asked(kind, left) == acc + mult * Asked(kind, all)
  }

  ghost predicate Accumulated(total: Need, left: seq<Resource>, mult: nat, acc: Need, all: seq<Resource>) {
    && SumSoFar(Core, total.cores, left, mult, acc.cores, all)
    && SumSoFar(Gpu, total.gpus, left, mult, acc.gpus, all)
    && SumSoFar(Memory, total.mem, left, mult, acc.mem, all)
  }

  lemma AccumulateOne(kind: Kind, t0: nat, t1: nat, left: seq<Resource>, mult: nat, acc: nat, all: seq<Resource>)
    requires left != []
    requires SumSoFar(kind, t0, left, mult, acc, all)
    requires var m := mult * AtLeast1(left[0].count);
      SumSoFar(kind, t1, [], m, t0 + (if left[0].kind == kind then m else 0), left[0].with)
    ensures SumSoFar(kind, t1, left[1..], mult, acc, all)
  {
    ScaledAsk(kind, left, mult);
  }

  lemma AccumulatedAll(total: Need, rs: seq<Resource>)
    requires Accumulated(total, [], 1, NOTHING, rs)
    ensures total == PerNodeNeed(rs)
  {}

  method PerNode(rs: seq<Resource>, mult: nat, acc: Need) returns (total: Need)
    ensures Accumulated(total, [], mult, acc, rs)
    decreases rs
  {
    total := acc;
    for i := 0 to |rs|
      invariant Accumulated(total, rs[i..], mult, acc, rs)
    {
      ghost var t0 := total;
      var m := mult * AtLeast1(rs[i].count);
      total := PerNode(rs[i].with, m, total.Add(rs[i].kind, m));
      AccumulateOne(Core, t0.cores, total.cores, rs[i..], mult, acc.cores, rs);
      AccumulateOne(Gpu, t0.gpus, total.gpus, rs[i..], mult, acc.gpus, rs);
      AccumulateOne(Memory, t0.mem, total.mem, rs[i..], mult, acc.mem, rs);
      assert rs[i..][1..] == rs[i + 1..];
    }
  }

  /** The walk has seen everything before `left`, with `mult` copies of the whole list asked for. */
  ghost predicate Walked(found: bool, nodes: nat, need: Need, left: seq<Resource>, mult: nat,
                         found0: bool, nodes0: nat, need0: Need, all: seq<Resource>)
  {
    && (found || Chains(left) != []) == (found0 || Chains(all) != [])
    && NodesSoFar(nodes, left, mult, nodes0, all)
    && NeedSoFar(need, left, need0, all)
  }

  ghost predicate NodesSoFar(nodes: nat, left: seq<Resource>, mult: nat, nodes0: nat, all: seq<Resource>) {
    nodes + mult * TotalNodes(Chains(left)) == nodes0 + mult * TotalNodes(Chains(all))
  }

  ghost predicate NeedSoFar(need: Need, left: seq<Resource>, need0: Need, all: seq<Resource>) {
    need.Join(LargestNeed(Chains(left))) == need0.Join(LargestNeed(Chains(all)))
  }

  lemma NodesOne(n0: nat, n1: nat, left: seq<Resource>, mult: nat, nodes0: nat, all: seq<Resource>)
    requires left != []
    requires NodesSoFar(n0, left, mult, nodes0, all)
    requires var r := left[0]; var m := mult * AtLeast1(r.count);
      if r.kind == Node then n1 == n0 + m else NodesSoFar(n1, [], m, n0, r.with)
    ensures NodesSoFar(n1, left[1..], mult, nodes0, all)
  {
    var r, rest := left[0], Chains(left[1..]);
    AppendNodes(EntryChains(r), rest);
    EntryTotals(r);
    Distribute(mult, AtLeast1(r.count), if r.kind == Node then 1 else TotalNodes(Chains(r.with)), TotalNodes(rest));
  }

  lemma NeedOne(n0: Need, n1: Need, left: seq<Resource>, need0: Need, all: seq<Resource>)
    requires left != []
    requires NeedSoFar(n0, left, need0, all)
    requires var r := left[0]; if r.kind == Node then n1 == n0.Join(PerNodeNeed(r.with))
        else NeedSoFar(n1, [], n0, r.with)
    ensures NeedSoFar(n1, left[1..], need0, all)
  {
    var r, rest := left[0], Chains(left[1..]);
    AppendNeed(EntryChains(r), rest);
    EntryTotals(r);
    JoinAssociative(n0, LargestNeed(EntryChains(r)), LargestNeed(rest));
  }

  method Walk(rs: seq<Resource>, mult: nat, found0: bool, nodes0: nat, need0: Need)
    returns (found: bool, nodes: nat, need: Need)
    ensures Walked(found, nodes, need, [], mult, found0, nodes0, need0, rs)
    decreases rs
  {
    hide Asked, TotalNodes, LargestNeed;
    found, nodes, need := found0, nodes0, need0;
    for i := 0 to |rs|
      invariant Walked(found, nodes, need, rs[i..], mult, found0, nodes0, need0, rs)
    {
      ghost var nodes1, need1 := nodes, need;
      var r := rs[i];
      var m := mult * AtLeast1(r.count);
      if r.kind == Node {
        var acc := PerNode(r.with, 1, NOTHING);
        AccumulatedAll(acc, r.with);
        found, nodes, need := true, nodes + m, need.Join(acc);
      } else {
        found, nodes, need := Walk(r.with, m, found, nodes, need);
      }
      NodesOne(nodes1, nodes, rs[i..], mult, nodes0, rs);
      NeedOne(need1, need, rs[i..], need0, rs);
      EntryTotals(r);
      assert rs[i..][1..] == rs[i + 1..];
    }
  }

  /** Jobspec.counts computes the reference meaning of the tree. */
  method CountTree(rs: seq<Resource>) returns (c: Count)
    ensures c == CountsOf(rs)
  {
    var found, nodes, need := Walk(rs, 1, false, 0, NOTHING);
    if !found {
      nodes := 1;
      need := PerNode(rs, 1, NOTHING);
    }
    c := Count(nodes, need);
  }

  // ---- Counts, read off the request written out ----

  /** Every entry of count n as n entries of count one, at every level. */
  function WrittenOut(rs: seq<Resource>): seq<Resource>
    decreases rs
  {
    if rs == [] then []
    else
      Repeat(if rs[0].count < 1 then 1 else rs[0].count, rs[0].(count := 1, with := WrittenOut(rs[0].with)))
      + WrittenOut(rs[1..])
  }

  /** How many entries of one type a request has, at any depth. */
  function Entries(kind: Kind, rs: seq<Resource>): nat
    decreases rs
  {
    if rs == [] then 0
    else (if rs[0].kind == kind then 1 else 0) + Entries(kind, rs[0].with) + Entries(kind, rs[1..])
  }

  lemma OneMore(n: nat, x: nat)
    requires n >= 1
    ensures x + (n - 1) * x == n * x
  {}

  lemma EntriesHead(kind: Kind, rs: seq<Resource>)
    requires rs != []
    ensures Entries(kind, rs)
         == (if rs[0].kind == kind then 1 else 0) + Entries(kind, rs[0].with) + Entries(kind, rs[1..])
  {}

  lemma {:induction false} EntriesRepeat(kind: Kind, n: nat, r: Resource, tail: seq<Resource>)
    ensures Entries(kind, Repeat(n, r) + tail)
         == n * ((if r.kind == kind then 1 else 0) + Entries(kind, r.with)) + Entries(kind, tail)
  {
    hide Entries;
    var all := Repeat(n, r) + tail;
    if n == 0 {
      assert all == tail;
    } else {
      EntriesRepeat(kind, n - 1, r, tail);
      assert all[1..] == Repeat(n - 1, r) + tail && all[0] == r;
      EntriesHead(kind, all);
      OneMore(n, (if r.kind == kind then 1 else 0) + Entries(kind, r.with));
    }
  }

  /** What a request asks of a node is the number of entries of the type once it is written out. */
  lemma {:induction false} AskedIsEntries(kind: Kind, rs: seq<Resource>)
    ensures Asked(kind, rs) == Entries(kind, WrittenOut(rs))
    decreases rs
  {
    hide Entries;
    if rs == [] {
      NoEntries(kind);
    } else {
      AskedIsEntries(kind, rs[0].with);
      AskedIsEntries(kind, rs[1..]);
      EntriesRepeat(kind, if rs[0].count < 1 then 1 else rs[0].count,
                    rs[0].(count := 1, with := WrittenOut(rs[0].with)), WrittenOut(rs[1..]));
    }
  }

  lemma NoEntries(kind: Kind)
    ensures Entries(kind, []) == 0
  {}

  lemma SpotsHead(rs: seq<Resource>)
    requires rs != []
    ensures |Spots(rs)| == (if rs[0].kind == Node then 1 else |Spots(rs[0].with)|) + |Spots(rs[1..])|
  {}

  lemma {:induction false} SpotsRepeat(n: nat, r: Resource, tail: seq<Resource>)
    ensures |Spots(Repeat(n, r) + tail)|
         == n * (if r.kind == Node then 1 else |Spots(r.with)|) + |Spots(tail)|
  {
    hide Spots;
    var all := Repeat(n, r) + tail;
    if n == 0 {
      assert all == tail;
    } else {
      SpotsRepeat(n - 1, r, tail);
      assert all[1..] == Repeat(n - 1, r) + tail && all[0] == r;
      SpotsHead(all);
      OneMore(n, if r.kind == Node then 1 else |Spots(r.with)|);
    }
  }

  lemma {:induction false} NodesAreSpots(rs: seq<Resource>)
    ensures TotalNodes(Chains(rs)) == |Spots(WrittenOut(rs))|
    decreases rs
  {
    if rs != [] {
      NodesAreSpots(rs[0].with);
      NodesAreSpots(rs[1..]);
      AppendNodes(EntryChains(rs[0]), Chains(rs[1..]));
      EntryTotals(rs[0]);
      SpotsRepeat(if rs[0].count < 1 then 1 else rs[0].count,
                  rs[0].(count := 1, with := WrittenOut(rs[0].with)), WrittenOut(rs[1..]));
    }
  }

  lemma {:induction false} NodesPositive(cs: seq<Chain>)
    ensures cs != [] <==> TotalNodes(cs) > 0
  {
    if cs != [] { NodesPositive(cs[1..]); }
  }

  /** The per-node maxima are attained, each by some outermost `node` entry, and exceeded by none. */
  lemma {:induction false} LargestAttained(cs: seq<Chain>)
    ensures forall c :: c in cs ==> LargestNeed(cs).Covers(ChainNeed(c))
    ensures LargestNeed(cs).cores == 0 || exists c :: c in cs && ChainNeed(c).cores == LargestNeed(cs).cores
    ensures LargestNeed(cs).gpus == 0 || exists c :: c in cs && ChainNeed(c).gpus == LargestNeed(cs).gpus
    ensures LargestNeed(cs).mem == 0 || exists c :: c in cs && ChainNeed(c).mem == LargestNeed(cs).mem
  {
    hide ChainNeed;
    if cs != [] {
      LargestAttained(cs[1..]);
      assert cs == [cs[0]] + cs[1..] && cs[0] in cs;
      assert forall c :: c in cs[1..] ==> c in cs;
    }
  }

  /** The counts of any request: as many nodes as the written-out request has outermost `node` places, or
      one if it has none, and then one node asks for everything. */
  lemma CountsWrittenOut(rs: seq<Resource>)
    ensures var n := |Spots(WrittenOut(rs))|;
      && CountsOf(rs).nodes == (if n == 0 then 1 else n)
      && (n == 0 ==> CountsOf(rs).need == Need(Entries(Core, WrittenOut(rs)), Entries(Gpu, WrittenOut(rs)),
                                               Entries(Memory, WrittenOut(rs))))
      && (n > 0 ==> CountsOf(rs).need == LargestNeed(Chains(rs)))
  {
    NodesAreSpots(rs);
    NodesPositive(Chains(rs));
    AskedIsEntries(Core, rs);
    AskedIsEntries(Gpu, rs);
    AskedIsEntries(Memory, rs);
  }

  /** What one outermost `node` entry asks of a node. */
  lemma ChainAsks(c: Chain)
    requires c != []
    ensures var inner := WrittenOut(c[|c| - 1].with);
      ChainNeed(c) == Need(Entries(Core, inner), Entries(Gpu, inner), Entries(Memory, inner))
  {
    AskedIsEntries(Core, c[|c| - 1].with);
    AskedIsEntries(Gpu, c[|c| - 1].with);
    AskedIsEntries(Memory, c[|c| - 1].with);
  }

  // ---- A count is enough to host a mixed request ----

  function Repeat<T>(k: nat, x: T): (s: seq<T>)
    ensures |s| == k && forall i :: 0 <= i < k ==> s[i] == x
  {
    seq(k, _ => x)
  }

  /** One entry per node instance the chains ask for, with that instance's own need. */
  function Instances(cs: seq<Chain>): seq<Need> {
    if cs == [] then [] else Repeat(Product(cs[0]), ChainNeed(cs[0])) + Instances(cs[1..])
  }

  function Demand(rs: seq<Resource>): seq<Need> {
    if Chains(rs) == [] then [PerNodeNeed(rs)] else Instances(Chains(rs))
  }

  lemma InstancesBounded(cs: seq<Chain>)
    ensures |Instances(cs)| == TotalNodes(cs)
    ensures forall i :: 0 <= i < |Instances(cs)| ==> LargestNeed(cs).Covers(Instances(cs)[i])
  {}

  /** Any `nodes` nodes that each meet the per-node maxima host the request one to one. */
  lemma MixedRequestHosted(rs: seq<Resource>, hosts: seq<Need>)
    requires |hosts| == CountsOf(rs).nodes
    requires forall i :: 0 <= i < |hosts| ==> hosts[i].Covers(CountsOf(rs).need)
    ensures |Demand(rs)| == |hosts|
    ensures forall i :: 0 <= i < |hosts| ==> hosts[i].Covers(Demand(rs)[i])
  {
    InstancesBounded(Chains(rs));
  }

  // ---- Exclusive, Containment and the canonical Flux tree ----

  predicate MarkedExclusive(rs: seq<Resource>)
    decreases rs
  {
    rs != [] && ((rs[0].kind == Node && rs[0].exclusive) || MarkedExclusive(rs[0].with) || MarkedExclusive(rs[1..]))
  }

  predicate Exclusive(rs: seq<Resource>) {
    MarkedExclusive(rs) || CountsOf(rs).need.cores < 1
  }

  /** The place of any entry of a request. */
  predicate EntryPlace(rs: seq<Resource>, p: Spot)
    decreases p
  {
    p != [] && p[0] < |rs| && (|p| == 1 || EntryPlace(rs[p[0]].with, p[1..]))
  }

  function EntryAt(rs: seq<Resource>, p: Spot): Resource
    requires EntryPlace(rs, p)
    decreases p
  {
    if |p| == 1 then rs[p[0]] else EntryAt(rs[p[0]].with, p[1..])
  }

  /** Somewhere in the request, at any depth, stands a `node` entry marked exclusive. */
  ghost predicate SomeNodeMarked(rs: seq<Resource>) { exists p :: MarkedAt(rs, p) }

  ghost predicate MarkedAt(rs: seq<Resource>, p: Spot) {
    EntryPlace(rs, p) && EntryAt(rs, p).kind == Node && EntryAt(rs, p).exclusive
  }

  lemma MarkedStep(rs: seq<Resource>, p: Spot)
    requires rs != []
    ensures MarkedAt(rs, [0]) <==> rs[0].kind == Node && rs[0].exclusive
    ensures p != [] ==> (MarkedAt(rs, [0] + p) <==> MarkedAt(rs[0].with, p))
    ensures p != [] ==> (MarkedAt(rs, OneOn(p)) <==> MarkedAt(rs[1..], p))
  {
    assert ([0] + p)[1..] == p;
    if p != [] { assert OneOn(p)[1..] == p[1..]; }
  }

  lemma {:induction false} MarkedIff(rs: seq<Resource>)
    ensures MarkedExclusive(rs) <==> SomeNodeMarked(rs)
    decreases rs
  {
    hide MarkedAt;
    if rs == [] {
      NowhereMarked();
    } else {
      MarkedIff(rs[0].with);
      MarkedIff(rs[1..]);
      MarkedStep(rs, []);
      if p :| MarkedAt(rs[0].with, p) { MarkedPlace(rs[0].with, p); MarkedStep(rs, p); }
      if p :| MarkedAt(rs[1..], p) { MarkedPlace(rs[1..], p); MarkedStep(rs, p); }
      if p :| MarkedAt(rs, p) {
        MarkedPlace(rs, p);
        if p[0] == 0 {
          assert p == [0] + p[1..];
          if |p| > 1 { MarkedStep(rs, p[1..]); } else { assert p == [0]; }
        } else {
          var q := [p[0] - 1] + p[1..];
          assert OneOn(q) == p;
          MarkedStep(rs, q);
        }
      }
    }
  }

  lemma NowhereMarked()
    ensures !SomeNodeMarked([])
  {}

  lemma MarkedPlace(rs: seq<Resource>, p: Spot)
    requires MarkedAt(rs, p)
    ensures p != [] && p[0] < |rs|
  {}

  /** A job wants whole nodes exactly when its nodes are asked for no core, or some `node` entry, at any
      depth, is marked exclusive. */
  lemma ExclusiveIff(rs: seq<Resource>)
    ensures Exclusive(rs) <==> CountsOf(rs).need.cores < 1 || SomeNodeMarked(rs)
  {
    hide CountsOf;
    MarkedIff(rs);
  }

  function Optional(kind: Kind, count: int): seq<Resource> {
    if count > 0 then [Resource(kind, count, "", false, if kind == Memory then "GB" else "", [])] else []
  }

  function OneNodeGroup(nodes: int, exclusive: bool, slotWith: seq<Resource>): seq<Resource> {
    [Resource(Node, nodes, "", exclusive, "", [Resource(Slot, 1, "default", false, "", slotWith)])]
  }

  function Containment(nodes: int, cores: int, gpus: int, mem: int): seq<Resource> {
    OneNodeGroup(nodes, false, [Plain(Core, cores, [])] + Optional(Gpu, gpus) + Optional(Memory, mem))
  }

  /** The resource tree ToFluxSpec renders: node, slot, socket, core, with gpu and memory beside the socket. */
  function FluxTree(rs: seq<Resource>): seq<Resource> {
    var c := CountsOf(rs);
    OneNodeGroup(c.nodes, Exclusive(rs),
                 [Plain(Socket, 1, [Plain(Core, AtLeast1(c.need.cores), [])])]
                 + Optional(Gpu, c.need.gpus) + Optional(Memory, c.need.mem))
  }

  lemma {:induction false} AskedAppend(kind: Kind, a: seq<Resource>, b: seq<Resource>)
    ensures Asked(kind, a + b) == Asked(kind, a) + Asked(kind, b)
  {
    if a == [] {
      assert a + b == b;
    } else {
      AskedAppend(kind, a[1..], b);
      assert (a + b)[1..] == a[1..] + b;
    }
  }

  lemma AskedSingle(kind: Kind, r: Resource)
    ensures Asked(kind, [r]) == EntryAsks(kind, r)
  {
    assert [r][1..] == [];
  }

  lemma AskedOptional(kind: Kind, of: Kind, count: int)
    ensures Asked(kind, Optional(of, count)) == if of == kind then AtLeast0(count) else 0
  {
    if count > 0 { AskedSingle(kind, Optional(of, count)[0]); }
  }

  lemma OneNodeGroupCounts(nodes: int, exclusive: bool, slotWith: seq<Resource>)
    ensures CountsOf(OneNodeGroup(nodes, exclusive, slotWith)) == Count(AtLeast1(nodes), PerNodeNeed(slotWith))
  {
    var rs := OneNodeGroup(nodes, exclusive, slotWith);
    EntryTotals(rs[0]);
    assert Chains(rs) == EntryChains(rs[0]) by { assert rs[1..] == []; }
    var slot := rs[0].with[0];
    AskedSingle(Core, slot);
    AskedSingle(Gpu, slot);
    AskedSingle(Memory, slot);
  }

  /** What a slot holding one entry and optional gpus and memory asks for. */
  lemma SlotNeed(first: Resource, gpus: int, mem: int)
    ensures PerNodeNeed([first] + Optional(Gpu, gpus) + Optional(Memory, mem))
         == Need(EntryAsks(Core, first), EntryAsks(Gpu, first) + AtLeast0(gpus),
                 EntryAsks(Memory, first) + AtLeast0(mem))
  {
    SlotAsks(Core, first, gpus, mem);
    SlotAsks(Gpu, first, gpus, mem);
    SlotAsks(Memory, first, gpus, mem);
  }

  lemma SlotAsks(kind: Kind, first: Resource, gpus: int, mem: int)
    ensures Asked(kind, [first] + Optional(Gpu, gpus) + Optional(Memory, mem))
         == EntryAsks(kind, first) + (if kind == Gpu then AtLeast0(gpus) else 0)
             + (if kind == Memory then AtLeast0(mem) else 0)
  {
    AskedAppend(kind, [first] + Optional(Gpu, gpus), Optional(Memory, mem));
    AskedAppend(kind, [first], Optional(Gpu, gpus));
    AskedSingle(kind, first);
    AskedOptional(kind, Gpu, gpus);
    AskedOptional(kind, Memory, mem);
  }

  /** counts inverts Containment, with every argument clamped to what a request can mean. */
  lemma ContainmentCounts(nodes: int, cores: int, gpus: int, mem: int)
    ensures CountsOf(Containment(nodes, cores, gpus, mem))
         == Count(AtLeast1(nodes), Need(AtLeast1(cores), AtLeast0(gpus), AtLeast0(mem)))
  {
    var core := Plain(Core, cores, []);
    SlotNeed(core, gpus, mem);
    OneNodeGroupCounts(nodes, false, [core] + Optional(Gpu, gpus) + Optional(Memory, mem));
  }

  lemma {:induction false} Unmarked(rs: seq<Resource>)
    requires forall r :: r in rs ==>
        r.kind != Node && (r.with == [] || (|r.with| == 1 && r.with[0].kind != Node && r.with[0].with == []))
    ensures !MarkedExclusive(rs)
  {
    if rs != [] {
      assert rs[0] in rs;
      Unmarked(rs[1..]);
      if rs[0].with != [] { assert rs[0].with[1..] == []; }
    }
  }

  /** The canonical tree keeps node count, gpus, memory, and at least one core. */
  lemma FluxTreeCounts(rs: seq<Resource>)
    ensures var a := CountsOf(rs);
      CountsOf(FluxTree(rs)) == Count(a.nodes, Need(AtLeast1(a.need.cores), a.need.gpus, a.need.mem))
  {
    var c := CountsOf(rs);
    var core := Plain(Core, AtLeast1(c.need.cores), []);
    var socket := Plain(Socket, 1, [core]);
    SocketAsks(Core, core);
    SocketAsks(Gpu, core);
    SocketAsks(Memory, core);
    SlotNeed(socket, c.need.gpus, c.need.mem);
    OneNodeGroupCounts(c.nodes, Exclusive(rs), [socket] + Optional(Gpu, c.need.gpus) + Optional(Memory, c.need.mem));
  }

  lemma SocketAsks(kind: Kind, core: Resource)
    requires core.kind == Core && core.count >= 1 && core.with == []
    requires kind != Socket
    ensures EntryAsks(kind, Plain(Socket, 1, [core])) == if kind == Core then core.count else 0
  {
    AskedSingle(kind, core);
  }

  /** The canonical tree asks for whole nodes, by the mark on its node entry, exactly when the request does. */
  lemma FluxTreeExclusive(rs: seq<Resource>)
    ensures FluxTree(rs)[0].exclusive <==> CountsOf(rs).need.cores < 1 || SomeNodeMarked(rs)
    ensures Exclusive(FluxTree(rs)) == Exclusive(rs)
  {
    ExclusiveIff(rs);
    FluxTreeCounts(rs);
    var c := CountsOf(rs);
    var socket := Plain(Socket, 1, [Plain(Core, AtLeast1(c.need.cores), [])]);
    MarkedGroup(c.nodes, Exclusive(rs), [socket] + Optional(Gpu, c.need.gpus) + Optional(Memory, c.need.mem));
  }

  lemma MarkedGroup(nodes: int, exclusive: bool, inner: seq<Resource>)
    requires forall r :: r in inner ==>
        r.kind != Node && (r.with == [] || (|r.with| == 1 && r.with[0].kind != Node && r.with[0].with == []))
    ensures MarkedExclusive(OneNodeGroup(nodes, exclusive, inner)) == exclusive
  {
    Unmarked(inner);
    var t := OneNodeGroup(nodes, exclusive, inner);
    assert t[1..] == [] && t[0].with[1..] == [];
    assert MarkedExclusive(t[0].with) == MarkedExclusive(inner);
  }

  predicate BesideSocket(r: Resource) {
    r.with == [] && r.count >= 1 && (r.kind == Gpu || (r.kind == Memory && r.unit == "GB"))
  }

  /** The rendered tree's levels: one node entry, one slot with the label the task is bound to, in it one
      socket with one core entry and nothing below, and beside the socket at most gpus and memory in GB. */
  lemma FluxTreeLevels(rs: seq<Resource>)
    ensures var t := FluxTree(rs);
      && |t| == 1 && t[0].kind == Node && |t[0].with| == 1
      && var slot := t[0].with[0];
         && slot.kind == Slot && slot.slot == "default" && slot.count == 1 && slot.with != []
         && slot.with[0].kind == Socket && slot.with[0].count == 1 && |slot.with[0].with| == 1
         && slot.with[0].with[0].kind == Core && slot.with[0].with[0].with == []
         && (forall r :: r in slot.with[1..] ==> BesideSocket(r))
  {
    hide CountsOf, Exclusive;
  }

  lemma FluxTreeIdempotent(rs: seq<Resource>)
    ensures FluxTree(FluxTree(rs)) == FluxTree(rs)
  {
    FluxTreeCounts(rs);
    FluxTreeExclusive(rs);
  }
}
