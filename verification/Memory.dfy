/** Memory as a lower bound, end to end: the bucket a cluster advertises for its smallest
    node, and the requirement that names a bucket or any larger one. */
module Memory {
  import opened Jobspec
  import opened Graphs
  import opened Builder
  import opened Sections
  import opened Satisfaction

  /** A bucket label with the bounds its text parses to; no upper bound for the last one. */
  datatype Bucket = Bucket(text: string, lo: int, hi: Option<int>)
  {
    predicate Contains(gb: int) { gb >= lo && (hi.Some? ==> gb < hi.value) }
  }

  const B0 := Bucket("0-16GB", 0, Some(16))
  const B16 := Bucket("16-64GB", 16, Some(64))
  const B64 := Bucket("64-192GB", 64, Some(192))
  const B192 := Bucket("192GB+", 192, None)
  const STANDARD := [B0, B16, B64, B192]

  /** RangeFor: the first label whose range contains the size. */
  function RangeFor(gb: int, labels: seq<Bucket>): Option<Bucket> {
    if labels == [] then None
    else if labels[0].Contains(gb) then Some(labels[0])
    else RangeFor(gb, labels[1..])
  }

  /** The standard buckets partition all sizes from zero up. */
  lemma StandardPartition(gb: int)
    ensures gb >= 0 <==> RangeFor(gb, STANDARD).Some?
    ensures forall b :: b in STANDARD ==> (b.Contains(gb) <==> RangeFor(gb, STANDARD) == Some(b))
  {
    assert STANDARD[1..] == [B16, B64, B192];
    assert STANDARD[1..][1..] == [B64, B192];
    assert STANDARD[1..][1..][1..] == [B192];
    RangeStep(gb, STANDARD);
    RangeStep(gb, [B16, B64, B192]);
    RangeStep(gb, [B64, B192]);
    RangeStep(gb, [B192]);
    assert [B16, B64, B192][1..] == [B64, B192] && [B64, B192][1..] == [B192] && [B192][1..] == [];
  }

  lemma RangeStep(gb: int, labels: seq<Bucket>)
    requires labels != []
    ensures RangeFor(gb, labels) == if labels[0].Contains(gb) then Some(labels[0]) else RangeFor(gb, labels[1..])
  {}

  // ---- What a cluster advertises ----

  /** The smallest positive memory reading, or 0 when there is none. */
  ghost predicate IsSmallest(sizes: seq<int>, m: int) {
    if exists s :: s in sizes && s > 0 then m > 0 && m in sizes && forall s :: s in sizes && s > 0 ==> m <= s
    else m == 0
  }

  method SmallestMemory(sizes: seq<int>) returns (m: int)
    ensures IsSmallest(sizes, m)
  {
    m := 0;
    for i := 0 to |sizes|
      invariant IsSmallest(sizes[..i], m)
    {
      assert sizes[..i + 1] == sizes[..i] + [sizes[i]];
      assert sizes[i] in sizes[..i + 1] && forall s :: s in sizes[..i] ==> s in sizes[..i + 1];
      if sizes[i] > 0 && (m == 0 || sizes[i] < m) { m := sizes[i]; }
    }
    assert sizes[..|sizes|] == sizes;
  }

  function Singleton(subsystem: string, value: string): Graph {
    Graph([Vertex(0, Root, Root, Named(subsystem), 1), Vertex(1, Named(value), Named(value), Named(value + "0"), 1)],
        [Edge(0, 1)])
  }

  /** SingletonSubsystem: a root with one typed leaf. */
  method SingletonSubsystem(subsystem: string, value: string) returns (g: Graph)
    ensures g == Singleton(subsystem, value)
  {
    var b := new JgfBuilder();
    var root := b.Add(Vertex(0, Root, Root, Named(subsystem), 1));
    var leaf := b.Add(Vertex(0, Named(value), Named(value), Named(value + "0"), 1));
    b.Link(root, leaf);
    g := Graph(b.nodes, b.edges);
  }

  // ---- What a job requires ----

  function IndexOf(b: Bucket, allowed: seq<Bucket>): (i: nat)
    requires b in allowed
    ensures i < |allowed| && allowed[i] == b && forall k :: 0 <= k < i ==> allowed[k] != b
  {
    if allowed[0] == b then 0 else 1 + IndexOf(b, allowed[1..])
  }

  function Types(values: seq<Bucket>): (rs: seq<Resource>)
    ensures |rs| == |values| && forall i :: 0 <= i < |values| ==> rs[i] == Plain(Named(values[i].text), 0, [])
  {
    seq(|values|, i requires 0 <= i < |values| => Plain(Named(values[i].text), 0, []))
  }

  /** section: one type alone, or an anyof over several. */
  function Section(values: seq<Bucket>): seq<Resource>
    requires values != []
  {
    if |values| > 1 then [Plain(AnyOf, 0, Types(values))] else [Plain(Named(values[0].text), 0, [])]
  }

  /** memory_at_least: the named bucket or any later one of the vocabulary. */
  function MemoryAtLeast(b: Bucket, allowed: seq<Bucket>): Option<seq<Resource>> {
    if b !in allowed then None else Some(Section(allowed[IndexOf(b, allowed)..]))
  }

  /** A cluster whose smallest node has `gb` satisfies a memory section. */
  predicate ClusterMeets(gb: int, section: seq<Resource>) {
    var b := RangeFor(gb, STANDARD);
    b.Some? && SubsystemSatisfies(Some(Singleton("memory", b.value.text)), section)
  }

  lemma LabelsDiffer(a: Bucket, b: Bucket)
    requires a in STANDARD && b in STANDARD
    ensures a.text == b.text <==> a == b
    ensures a.text != b.text + "0" && a.text != "memory"
  {
    assert B0.text[0] == '0' && B16.text[2] == '-' && |B0.text| == 6 && |B16.text| == 7 && |B64.text| == 8
        && |B192.text| == 6;
    assert B192.text[0] == '1' && B192.text[5] == '+' && "memory"[0] == 'm';
    assert a.text[|a.text| - 1] != '0';
    assert (b.text + "0")[|b.text|] == '0';
  }

  /** The one-leaf graph answers exactly to its own bucket. */
  lemma SingletonMatches(adv: Bucket, asked: Bucket)
    requires adv in STANDARD && asked in STANDARD
    ensures Satisfies(Singleton("memory", adv.text), Plain(Named(asked.text), 0, [])) <==> adv == asked
  {
    var g, r := Singleton("memory", adv.text), Plain(Named(asked.text), 0, []);
    LabelsDiffer(asked, adv);
    LabelsDiffer(adv, asked);
    var root, leaf := g.nodes[0], g.nodes[1];
    LookupAppend([root], [leaf], 0);
    LookupAppend([root], [leaf], 1);
    assert [root] + [leaf] == g.nodes && [root][..0] == [] && [leaf][..0] == [];
    assert Lookup(g.nodes, 0) == Some(root) && Lookup(g.nodes, 1) == Some(leaf);
    assert !MatchAt(g, 0, r);
    assert MatchAt(g, 1, r) <==> adv == asked;
    assert ChildrenSat(g, 1, r.with);
    assert leaf in g.nodes;
  }

  /** Which clusters satisfy a section over standard buckets. */
  lemma SectionMeets(adv: Bucket, values: seq<Bucket>)
    requires adv in STANDARD && values != [] && forall v :: v in values ==> v in STANDARD
    ensures SubsystemSatisfies(Some(Singleton("memory", adv.text)), Section(values)) <==> adv in values
  {
    hide Singleton, Satisfies, SubsystemSatisfies;
    var g := Singleton("memory", adv.text);
    SubsystemMeaning(g, Section(values));
    forall i | 0 <= i < |values| ensures Satisfies(g, Types(values)[i]) <==> adv == values[i] {
      assert values[i] in values;
      SingletonMatches(adv, values[i]);
    }
    var s := Section(values);
    assert s[0] in s;
    if |values| > 1 {
      if adv in values {
        var i :| 0 <= i < |values| && values[i] == adv;
        assert Types(values)[i] in s[0].with;
      }
    } else {
      assert values == [values[0]];
      assert Types(values)[0] == s[0];
    }
  }

  /** For any vocabulary of standard buckets: a cluster satisfies the requirement iff the bucket it
      advertises stands at or after the named one. */
  lemma MeetsIffLater(gb: int, b: Bucket, allowed: seq<Bucket>)
    requires b in allowed && forall v :: v in allowed ==> v in STANDARD
    ensures ClusterMeets(gb, MemoryAtLeast(b, allowed).value) <==>
      RangeFor(gb, STANDARD).Some? && RangeFor(gb, STANDARD).value in allowed[IndexOf(b, allowed)..]
  {
    hide SubsystemSatisfies, RangeFor, Section;
    StandardPartition(gb);
    var later := allowed[IndexOf(b, allowed)..];
    assert forall v :: v in later ==> v in allowed;
    if r :| RangeFor(gb, STANDARD) == Some(r) {
      RangeForMember(gb, STANDARD);
      SectionMeets(r, later);
    }
  }

  lemma {:induction false} RangeForMember(gb: int, labels: seq<Bucket>)
    ensures RangeFor(gb, labels).Some?
        ==> RangeFor(gb, labels).value in labels && RangeFor(gb, labels).value.Contains(gb)
  {
    if labels != [] && !labels[0].Contains(gb) {
      RangeForMember(gb, labels[1..]);
      assert labels == [labels[0]] + labels[1..];
    }
  }

  /** With the vocabulary in standard order, the requirement is a true lower bound on node memory. */
  lemma StandardIsLowerBound(gb: int, b: Bucket)
    requires b in STANDARD && gb > 0
    ensures ClusterMeets(gb, MemoryAtLeast(b, STANDARD).value) <==> gb >= b.lo
  {
    hide ClusterMeets;
    MeetsIffLater(gb, b, STANDARD);
    StandardPartition(gb);
    RangeForMember(gb, STANDARD);
    var i := IndexOf(b, STANDARD);
    assert STANDARD[0..] == [B0, B16, B64, B192] && STANDARD[1..] == [B16, B64, B192] && STANDARD[2..] == [B64, B192]
        && STANDARD[3..] == [B192];
    assert b == STANDARD[i];
  }

  /** End to end: the cluster that advertises its smallest reading satisfies "at least b" exactly when
      every node that reports memory has at least the lower edge of b. */
  lemma EveryNodeHasAtLeast(sizes: seq<int>, smallest: int, b: Bucket)
    requires IsSmallest(sizes, smallest) && smallest > 0 && b in STANDARD
    ensures ClusterMeets(smallest, MemoryAtLeast(b, STANDARD).value) <==> forall s :: s in sizes && s > 0 ==> s >= b.lo
  {
    hide ClusterMeets, MemoryAtLeast;
    StandardIsLowerBound(smallest, b);
    assert smallest in sizes;
  }

  /** In general the requirement is a lower bound, on the clusters the vocabulary was derived from,
      exactly when "at or after the named bucket" and "no smaller" agree throughout the vocabulary. */
  ghost predicate LowerBoundFor(b: Bucket, allowed: seq<Bucket>)
    requires b in allowed
  {
    forall gb :: gb > 0 && RangeFor(gb, STANDARD).Some? && RangeFor(gb, STANDARD).value in allowed ==>
      (ClusterMeets(gb, MemoryAtLeast(b, allowed).value) <==> gb >= b.lo)
  }

  predicate OrderedFrom(b: Bucket, allowed: seq<Bucket>)
    requires b in allowed
  {
    forall c | c in allowed :: c in allowed[IndexOf(b, allowed)..] <==> c.lo >= b.lo
  }

  lemma LowerBoundIffOrdered(b: Bucket, allowed: seq<Bucket>)
    requires b in allowed && forall v :: v in allowed ==> v in STANDARD
    ensures LowerBoundFor(b, allowed) <==> OrderedFrom(b, allowed)
  {
    hide ClusterMeets, RangeFor;
    forall gb | gb > 0 && RangeFor(gb, STANDARD).Some? && RangeFor(gb, STANDARD).value in allowed
      ensures ClusterMeets(gb, MemoryAtLeast(b, allowed).value)
          <==> RangeFor(gb, STANDARD).value in allowed[IndexOf(b, allowed)..]
      ensures gb >= b.lo <==> RangeFor(gb, STANDARD).value.lo >= b.lo
    {
      MeetsIffLater(gb, b, allowed);
      StandardPartition(gb);
      RangeForMember(gb, STANDARD);
    }
    if LowerBoundFor(b, allowed) {
      forall c | c in allowed ensures c in allowed[IndexOf(b, allowed)..] <==> c.lo >= b.lo {
        var gb := c.lo + 1;
        StandardPartition(gb);
        assert RangeFor(gb, STANDARD) == Some(c);
      }
    }
  }

  // ---- The order of a derived vocabulary ----

  /** The order sort.Strings uses: by first difference, a prefix before what extends it. */
  predicate TextLess(a: string, b: string) {
    if b == [] then false
    else if a == [] then true
    else a[0] < b[0] || (a[0] == b[0] && TextLess(a[1..], b[1..]))
  }

  /** A vocabulary as it is derived: some of the standard buckets, once each, sorted as text. */
  ghost predicate TextSorted(vs: seq<Bucket>) {
    && (forall v :: v in vs ==> v in STANDARD)
    && (forall i, j :: 0 <= i < j < |vs| ==> TextLess(vs[i].text, vs[j].text))
  }

  lemma FirstDifference(a: string, b: string, i: nat)
    requires i < |a| && i < |b| && a[..i] == b[..i] && a[i] < b[i]
    ensures TextLess(a, b) && !TextLess(b, a)
  {
    if i > 0 {
      assert a[0] == a[..i][0] && b[0] == b[..i][0];
      assert a[1..][..i - 1] == a[..i][1..] && b[1..][..i - 1] == b[..i][1..];
      FirstDifference(a[1..], b[1..], i - 1);
    }
  }

  lemma {:induction false} NotLessItself(a: string)
    ensures !TextLess(a, a)
  {
    if a != [] { NotLessItself(a[1..]); }
  }

  /** The place of each label among the sorted labels. */
  function TextRank(b: Bucket): nat {
    if b == B0 then 0 else if b == B16 then 1 else if b == B192 then 2 else 3
  }

  /** Sorted as text, 192GB+ stands before 64-192GB; the two small buckets come first. */
  lemma TextOrder(a: Bucket, b: Bucket)
    requires a in STANDARD && b in STANDARD
    ensures TextLess(a.text, b.text) <==> TextRank(a) < TextRank(b)
  {
    hide TextLess;
    NotLessItself(a.text);
    if a != b {
      var lo, hi := if TextRank(a) < TextRank(b) then a else b, if TextRank(a) < TextRank(b) then b else a;
      LabelsOrdered(lo, hi);
    }
  }

  lemma LabelsOrdered(lo: Bucket, hi: Bucket)
    requires lo in STANDARD && hi in STANDARD && TextRank(lo) < TextRank(hi)
    ensures TextLess(lo.text, hi.text) && !TextLess(hi.text, lo.text)
  {
    hide TextLess;
    FirstDifference(lo.text, hi.text, if lo == B16 && hi == B192 then 1 else 0);
  }

  /** In a derived vocabulary "at or after" is "not before as text". */
  lemma AfterIsRank(vs: seq<Bucket>, b: Bucket, c: Bucket)
    requires TextSorted(vs) && b in vs && c in vs
    ensures c in vs[IndexOf(b, vs)..] <==> TextRank(c) >= TextRank(b)
  {
    hide TextLess, TextRank;
    var i, k := IndexOf(b, vs), IndexOf(c, vs);
    assert vs[i] == b && vs[k] == c;
    TextOrder(b, c);
    TextOrder(c, b);
    if k >= i {
      assert vs[i..][k - i] == c;
    } else {
      forall n | i <= n < |vs| ensures vs[n] != c {
        assert TextLess(vs[k].text, vs[n].text);
        NotLessItself(c.text);
      }
    }
  }

  /** In every derived vocabulary: the requirement is a true lower bound for the two small buckets, and
      for a large one exactly when the other large bucket is not in the vocabulary. */
  lemma LexicographicBreaksTwo(vs: seq<Bucket>, b: Bucket)
    requires TextSorted(vs) && b in vs
    ensures LowerBoundFor(b, vs) <==> b == B0 || b == B16 || !(B64 in vs && B192 in vs)
  {
    hide LowerBoundFor, ClusterMeets, RangeFor, IndexOf, TextLess;
    LowerBoundIffOrdered(b, vs);
    forall c | c in vs ensures c in vs[IndexOf(b, vs)..] <==> TextRank(c) >= TextRank(b) { AfterIsRank(vs, b, c); }
    assert OrderedFrom(b, vs) <==> forall c :: c in vs ==> (TextRank(c) >= TextRank(b) <==> c.lo >= b.lo);
    if B64 in vs && B192 in vs && (b == B64 || b == B192) {
      var c := if b == B64 then B192 else B64;
      assert !(TextRank(c) >= TextRank(b) <==> c.lo >= b.lo);
    }
  }

  /** Concretely, whenever both large buckets are in the vocabulary: 256 GB is refused where 64 GB or more
      is asked for, and 64 GB accepted for 192 GB or more. */
  lemma LexicographicMisjudges(vs: seq<Bucket>)
    requires TextSorted(vs) && B64 in vs && B192 in vs
    ensures !ClusterMeets(256, MemoryAtLeast(B64, vs).value)
    ensures ClusterMeets(64, MemoryAtLeast(B192, vs).value)
  {
    hide ClusterMeets, RangeFor, IndexOf, TextLess;
    StandardPartition(256);
    StandardPartition(64);
    MeetsIffLater(256, B64, vs);
    MeetsIffLater(64, B192, vs);
    AfterIsRank(vs, B64, B192);
    AfterIsRank(vs, B192, B64);
  }
}
