/** Grouping identical nodes, and the containment graph built from discovered facts. */
module Discovery {
  import opened Jobspec
  import opened Graphs
  import opened Builder

  /** Distinct keys in order of first appearance. */
  function Distinct<T(==)>(keys: seq<T>): seq<T> {
    if keys == [] then []
    else
      var front, last := keys[..|keys| - 1], keys[|keys| - 1];
      if last in front then Distinct(front) else Distinct(front) + [last]
  }

  /** Where a value first stands. */
  function FirstAt<T(==)>(s: seq<T>, v: T): (i: nat)
    requires v in s
    ensures i < |s| && s[i] == v && forall k :: 0 <= k < i ==> s[k] != v
  {
    if s[0] == v then 0 else 1 + FirstAt(s[1..], v)
  }

  /** The keys stand in the order in which they first appear. */
  lemma {:induction false} DistinctOrder<T>(keys: seq<T>, i: nat, j: nat)
    requires i < j < |Distinct(keys)|
    ensures Distinct(keys)[i] in keys && Distinct(keys)[j] in keys
    ensures FirstAt(keys, Distinct(keys)[i]) < FirstAt(keys, Distinct(keys)[j])
  {
    DistinctAt(keys, i);
    DistinctAt(keys, j);
    var front, last := keys[..|keys| - 1], keys[|keys| - 1];
    assert keys == front + [last];
    FirstInFront(front, last, Distinct(keys)[i]);
    FirstInFront(front, last, Distinct(keys)[j]);
    DistinctAt(front, i);
    if j < |Distinct(front)| {
      DistinctAt(front, j);
      DistinctOrder(front, i, j);
    }
  }

  lemma DistinctAt<T>(keys: seq<T>, i: nat)
    requires i < |Distinct(keys)|
    ensures Distinct(keys)[i] in keys
  {
    DistinctMembers(keys);
    var d: seq<T> := Distinct(keys);
    var v: T := d[i];
    assert v in d;
  }

  lemma FirstInFront<T>(front: seq<T>, last: T, v: T)
    requires v in front + [last]
    ensures FirstAt(front + [last], v) == if v in front then FirstAt(front, v) else |front|
  {
    var i := FirstAt(front + [last], v);
    if v in front {
      var k := FirstAt(front, v);
      assert (front + [last])[k] == v;
      assert i < |front| ==> front[i] == v;
    }
  }

  lemma {:induction false} DistinctMembers<T>(keys: seq<T>)
    ensures forall k :: k in Distinct(keys) <==> k in keys
    ensures forall i, j :: 0 <= i < j < |Distinct(keys)| ==> Distinct(keys)[i] != Distinct(keys)[j]
  {
    if keys != [] {
      DistinctMembers(keys[..|keys| - 1]);
      assert keys == keys[..|keys| - 1] + [keys[|keys| - 1]];
    }
  }

  /** How often a value occurs in a list. */
  function Occurs<T(==)>(s: seq<T>, v: T): nat {
    if s == [] then 0 else Occurs(s[..|s| - 1], v) + if s[|s| - 1] == v then 1 else 0
  }

  lemma {:induction false} OccursIsMultiplicity<T>(s: seq<T>, v: T)
    ensures Occurs(s, v) == multiset(s)[v]
  {
    if s != [] {
      OccursIsMultiplicity(s[..|s| - 1], v);
      assert s == s[..|s| - 1] + [s[|s| - 1]];
    }
  }

  lemma SameMultiset<T>(a: seq<T>, b: seq<T>)
    requires forall v :: v in a || v in b ==> Occurs(a, v) == Occurs(b, v)
    ensures multiset(a) == multiset(b)
  {
    forall v | v in a || v in b ensures multiset(a)[v] == multiset(b)[v] {
      OccursIsMultiplicity(a, v);
      OccursIsMultiplicity(b, v);
    }
  }

  lemma {:induction false} OccursAppend<T>(a: seq<T>, b: seq<T>, v: T)
    ensures Occurs(a + b, v) == Occurs(a, v) + Occurs(b, v)
  {
    if b == [] {
      assert a + b == a;
    } else {
      OccursAppend(a, b[..|b| - 1], v);
      assert (a + b)[..|a + b| - 1] == a + b[..|b| - 1];
    }
  }

  lemma {:induction false} OccursRepeat<T>(n: nat, x: T, v: T)
    ensures Occurs(Repeat(n, x), v) == if v == x then n else 0
  {
    if n > 0 {
      OccursRepeat(n - 1, x, v);
      assert Repeat(n, x)[..n - 1] == Repeat(n - 1, x);
    }
  }

  /** One counting pass: an order list and a count per key. */
  method Tally<T(==)>(keys: seq<T>) returns (order: seq<T>, count: map<T, nat>)
    ensures order == Distinct(keys)
    ensures forall k :: k in count <==> k in keys
    ensures forall k :: k in count ==> count[k] == Occurs(keys, k)
  {
    order, count := [], map[];
    for i := 0 to |keys|
      invariant order == Distinct(keys[..i])
      invariant forall k :: k in count <==> k in keys[..i]
      invariant forall k :: k in keys[..i] ==> count[k] == Occurs(keys[..i], k)
      invariant forall k :: k !in keys[..i] ==> Occurs(keys[..i], k) == 0
    {
      var k := keys[i];
      assert keys[..i + 1][..i] == keys[..i];
      assert forall x :: x in keys[..i + 1] <==> x in keys[..i] || x == k;
      if k !in count { order := order + [k]; }
      count := count[k := (if k in count then count[k] else 0) + 1];
    }
    assert keys[..|keys|] == keys;
  }

  datatype NodeFacts = NodeFacts(cores: int, gpus: int, memory: int)

  function SpecOf(f: NodeFacts, count: int): NodeSpec { NodeSpec(count, f.cores, f.gpus, f.memory) }

  /** What a node reported, a negative reading counting as nothing. */
  function Offers(f: NodeFacts): Need { Need(AtLeast0(f.cores), AtLeast0(f.gpus), AtLeast0(f.memory)) }

  /** Identical nodes collapsed into one group each. */
  function GroupsOf(order: seq<NodeFacts>, facts: seq<NodeFacts>): (gs: seq<NodeSpec>)
    ensures |gs| == |order|
  {
    seq(|order|, i requires 0 <= i < |order| => SpecOf(order[i], Occurs(facts, order[i])))
  }

  /** The grouping loop and the builder: the graph offers what each fact reported, once for each fact. */
  method ContainmentFromFacts(cluster: string, facts: seq<NodeFacts>) returns (g: Graph)
    ensures g == Built(cluster, Flatten(GroupsOf(Distinct(facts), facts)))
    ensures Acyclic(g) && multiset(NodeCapacities(g)) == multiset(OffersAll(facts))
  {
    hide Occurs, Distinct, Flatten, Built, NodeCapacities, OffersAll;
    FactsRoundTrip(cluster, facts);
    var order, count := Tally(facts);
    DistinctMembers(facts);
    var groups: seq<NodeSpec> := [];
    for i := 0 to |order|
      invariant groups == GroupsOf(order, facts)[..i]
    {
      assert order[i] in order;
      groups := groups + [SpecOf(order[i], count[order[i]])];
    }
    assert GroupsOf(order, facts)[..|order|] == GroupsOf(order, facts);
    g := BuildContainment(cluster, groups);
  }

  function OffersAll(facts: seq<NodeFacts>): (ns: seq<Need>)
    ensures |ns| == |facts|
  {
    seq(|facts|, i requires 0 <= i < |facts| => Offers(facts[i]))
  }

  /** How many of the facts are among `keys` and offer `v`. */
  function OffersAmong(facts: seq<NodeFacts>, keys: seq<NodeFacts>, v: Need): nat {
    if facts == [] then 0
    else
      var last := facts[|facts| - 1];
      OffersAmong(facts[..|facts| - 1], keys, v) + if last in keys && Offers(last) == v then 1 else 0
  }

  lemma {:induction false} OffersAmongAdd(facts: seq<NodeFacts>, keys: seq<NodeFacts>, k: NodeFacts, v: Need)
    requires k !in keys
    ensures OffersAmong(facts, keys + [k], v)
         == OffersAmong(facts, keys, v) + if Offers(k) == v then Occurs(facts, k) else 0
  {
    if facts != [] { OffersAmongAdd(facts[..|facts| - 1], keys, k, v); }
  }

  lemma {:induction false} OffersAmongNone(facts: seq<NodeFacts>, v: Need)
    ensures OffersAmong(facts, [], v) == 0
  {
    if facts != [] { OffersAmongNone(facts[..|facts| - 1], v); }
  }

  lemma {:induction false} GroupsOffer(order: seq<NodeFacts>, facts: seq<NodeFacts>, v: Need)
    requires forall i, j :: 0 <= i < j < |order| ==> order[i] != order[j]
    ensures Occurs(Flatten(GroupsOf(order, facts)), v) == OffersAmong(facts, order, v)
  {
    if order == [] {
      OffersAmongNone(facts, v);
    } else {
      var front, last := order[..|order| - 1], order[|order| - 1];
      var n := Occurs(facts, last);
      GroupsOffer(front, facts, v);
      GroupsSnoc(front, last, facts);
      assert order == front + [last];
      OffersAmongAdd(facts, front, last, v);
      OccursAppend(Flatten(GroupsOf(front, facts)), Repeat(n, Offers(last)), v);
      OccursRepeat(n, Offers(last), v);
    }
  }

  lemma GroupsSnoc(front: seq<NodeFacts>, last: NodeFacts, facts: seq<NodeFacts>)
    ensures Flatten(GroupsOf(front + [last], facts))
        == Flatten(GroupsOf(front, facts)) + Repeat(Occurs(facts, last), Offers(last))
  {
    var gs := GroupsOf(front + [last], facts);
    assert gs[..|gs| - 1] == GroupsOf(front, facts);
    assert gs[|gs| - 1] == SpecOf(last, Occurs(facts, last));
    ClampedIsOffered(last, Occurs(facts, last));
  }

  lemma ClampedIsOffered(f: NodeFacts, count: int)
    ensures Clamp(SpecOf(f, count)) == Offers(f)
  {}

  lemma {:induction false} OffersAmongEvery(facts: seq<NodeFacts>, keys: seq<NodeFacts>, v: Need)
    requires forall f :: f in facts ==> f in keys
    ensures OffersAmong(facts, keys, v) == Occurs(OffersAll(facts), v)
  {
    if facts != [] {
      var front, last := facts[..|facts| - 1], facts[|facts| - 1];
      assert last in facts && forall f :: f in front ==> f in facts;
      OffersAmongEvery(front, keys, v);
      assert OffersAll(facts)[..|front|] == OffersAll(front);
    }
  }

  /** From facts to a graph and back: the graph's nodes offer exactly what the facts said,
      with multiplicity (negative readings count as zero). */
  lemma FactsRoundTrip(cluster: string, facts: seq<NodeFacts>)
    ensures var g := Built(cluster, Flatten(GroupsOf(Distinct(facts), facts)));
      Acyclic(g) && multiset(NodeCapacities(g)) == multiset(OffersAll(facts))
  {
    hide Occurs, OffersAmong, Flatten, Built, Distinct, GroupsOf, OffersAll;
    var order := Distinct(facts);
    var built := Flatten(GroupsOf(order, facts));
    DistinctMembers(facts);
    forall v ensures Occurs(built, v) == Occurs(OffersAll(facts), v) {
      GroupsOffer(order, facts, v);
      OffersAmongEvery(facts, order, v);
    }
    SameMultiset(built, OffersAll(facts));
    BuiltCapacities(cluster, built);
  }
}
