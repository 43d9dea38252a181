/** Matching a request tree against a subsystem graph, by type and by structure. */
module Satisfaction {
  import opened Jobspec
  import opened Graphs
  import opened Sections

  /** A vertex answers to its type, its basename and its name. */
  predicate MatchVertex(v: Vertex, r: Resource) {
    v.kind == r.kind || v.basename == r.kind || v.name == r.kind
  }

  predicate MatchAt(g: Graph, id: nat, r: Resource) {
    var v := Lookup(g.nodes, id);
    v.Some? && MatchVertex(v.value, r)
  }

  predicate ChildrenSat(g: Graph, parent: nat, reqs: seq<Resource>)
    decreases reqs
  {
    forall r | r in reqs :: exists c | c in Kids(g.edges, parent) :: MatchAt(g, c, r) && ChildrenSat(g, c, r.with)
  }

  /** satisfyResource: some vertex matches, with every child request satisfied under it. */
  predicate Satisfies(g: Graph, r: Resource) {
    exists v | v in g.nodes :: MatchAt(g, v.id, r) && ChildrenSat(g, v.id, r.with)
  }

  /** One subsystem section against the subsystem's graph; an unregistered subsystem never satisfies. */
  predicate SubsystemSatisfies(g: Option<Graph>, section: seq<Resource>) {
    g.Some? && exists row | row in Expand(section) :: forall r | r in row :: Satisfies(g.value, r)
  }

  // ---- Satisfaction is the existence of a structure-preserving map ----

  /** Positions in a request tree: the child index at each step down. */
  predicate IsPosition(r: Resource, p: seq<nat>)
    decreases p
  {
    p == [] || (p[0] < |r.with| && IsPosition(r.with[p[0]], p[1..]))
  }

  function At(r: Resource, p: seq<nat>): Resource
    requires IsPosition(r, p)
    decreases p
  {
    if p == [] then r else At(r.with[p[0]], p[1..])
  }

  /** `f` sends every position to a vertex that matches it, and every parent-child step to an edge.
      Two positions may share a vertex. */
  ghost predicate Hom(g: Graph, r: Resource, f: seq<nat> -> nat) {
    && (forall p :: IsPosition(r, p) ==> MatchAt(g, f(p), At(r, p)))
    && (forall p :: IsPosition(r, p) && p != [] ==> Edge(f(p[..|p| - 1]), f(p)) in g.edges)
  }

  lemma UnderPosition(r: Resource, i: nat, p: seq<nat>)
    requires i < |r.with|
    ensures IsPosition(r, [i] + p) == IsPosition(r.with[i], p)
    ensures IsPosition(r.with[i], p) ==> At(r, [i] + p) == At(r.with[i], p)
  {
    assert ([i] + p)[1..] == p;
  }

  lemma HomBelow(g: Graph, r: Resource, f: seq<nat> -> nat, i: nat)
    requires Hom(g, r, f) && i < |r.with|
    ensures Hom(g, r.with[i], (p: seq<nat>) => f([i] + p))
    ensures MatchAt(g, f([i]), r.with[i]) && Edge(f([]), f([i])) in g.edges
  {
    forall p | IsPosition(r.with[i], p)
      ensures MatchAt(g, f([i] + p), At(r.with[i], p))
      ensures p != [] ==> Edge(f([i] + p[..|p| - 1]), f([i] + p)) in g.edges
    {
      UnderPosition(r, i, p);
      assert p != [] ==> ([i] + p)[..|p|] == [i] + p[..|p| - 1];
    }
    UnderPosition(r, i, []);
    assert [i] + [] == [i] && [i][..0] == [];
  }

  lemma {:induction false} HomSatisfies(g: Graph, r: Resource, f: seq<nat> -> nat)
    requires Hom(g, r, f)
    ensures MatchAt(g, f([]), r) && ChildrenSat(g, f([]), r.with)
    decreases r
  {
    assert IsPosition(r, []);
    KidsMembers(g.edges, f([]));
    forall c | c in r.with
      ensures exists k | k in Kids(g.edges, f([])) :: MatchAt(g, k, c) && ChildrenSat(g, k, c.with)
    {
      var i :| 0 <= i < |r.with| && r.with[i] == c;
      HomBelow(g, r, f, i);
      HomSatisfies(g, c, (p: seq<nat>) => f([i] + p));
      assert [i] + [] == [i];
      assert f([i]) in Kids(g.edges, f([]));
    }
  }

  /** Glues maps of the children under a vertex for the parent. */
  ghost function Glue(id: nat, fs: seq<seq<nat> -> nat>): seq<nat> -> nat {
    (p: seq<nat>) => if p == [] then id else if p[0] < |fs| then fs[p[0]](p[1..]) else 0
  }

  ghost predicate Attached(g: Graph, id: nat, reqs: seq<Resource>, fs: seq<seq<nat> -> nat>) {
    && |fs| == |reqs|
    && forall i :: 0 <= i < |fs| ==> Hom(g, reqs[i], fs[i]) && Edge(id, fs[i]([])) in g.edges
  }

  lemma GlueHom(g: Graph, id: nat, r: Resource, fs: seq<seq<nat> -> nat>)
    requires MatchAt(g, id, r) && Attached(g, id, r.with, fs)
    ensures Hom(g, r, Glue(id, fs))
  {
    var f := Glue(id, fs);
    forall p | IsPosition(r, p)
      ensures MatchAt(g, f(p), At(r, p))
      ensures p != [] ==> Edge(f(p[..|p| - 1]), f(p)) in g.edges
    {
      if p != [] {
        var i, q := p[0], p[1..];
        assert Hom(g, r.with[i], fs[i]) && IsPosition(r.with[i], q);
        if q == [] {
          assert p[..|p| - 1] == [];
        } else {
          assert p[..|p| - 1][0] == i && p[..|p| - 1][1..] == q[..|q| - 1];
        }
      }
    }
  }

  lemma {:induction false} BuildHom(g: Graph, id: nat, r: Resource) returns (f: seq<nat> -> nat)
    requires MatchAt(g, id, r) && ChildrenSat(g, id, r.with)
    ensures Hom(g, r, f) && f([]) == id
    decreases r, 0
  {
    var fs := BuildHoms(g, id, r.with);
    GlueHom(g, id, r, fs);
    f := Glue(id, fs);
  }

  lemma {:induction false} BuildHoms(g: Graph, id: nat, reqs: seq<Resource>) returns (fs: seq<seq<nat> -> nat>)
    requires ChildrenSat(g, id, reqs)
    ensures Attached(g, id, reqs, fs)
    decreases reqs, |reqs|
  {
    hide Kids, MatchAt, Hom;
    if reqs == [] {
      fs := [];
    } else {
      var front, last := reqs[..|reqs| - 1], reqs[|reqs| - 1];
      assert forall r :: r in front ==> r in reqs;
      assert ChildrenSat(g, id, front);
      var rest := BuildHoms(g, id, front);
      assert last in reqs;
      var c :| c in Kids(g.edges, id) && MatchAt(g, c, last) && ChildrenSat(g, c, last.with);
      var f := BuildHom(g, c, last);
      KidsMembers(g.edges, id);
      fs := rest + [f];
      assert reqs == front + [last];
    }
  }

  /** A request is satisfied exactly when the whole request tree maps into the graph. */
  lemma SatisfiesIffHom(g: Graph, r: Resource)
    ensures Satisfies(g, r) <==> exists f :: Hom(g, r, f)
  {
    if Satisfies(g, r) {
      var v :| v in g.nodes && MatchAt(g, v.id, r) && ChildrenSat(g, v.id, r.with);
      var f := BuildHom(g, v.id, r);
    }
    if f :| Hom(g, r, f) {
      HomSatisfies(g, r, f);
      assert Lookup(g.nodes, f([])).value in g.nodes;
    }
  }

  /** One vertex answers a request without children exactly for its type, its basename and its name. */
  lemma VertexAnswers(v: Vertex, r: Resource)
    requires r.with == []
    ensures Satisfies(Graph([v], []), r) <==> r.kind in {v.kind, v.basename, v.name}
  {
    var g := Graph([v], []);
    assert Lookup(g.nodes, v.id) == Some(v);
    assert ChildrenSat(g, v.id, r.with);
    assert v in g.nodes;
  }

  // ---- Consequences ----

  /** `h` keeps every vertex id and edge of `g`. */
  ghost predicate Extends(g: Graph, h: Graph) {
    && (forall id: nat :: Lookup(g.nodes, id).Some? ==> Lookup(h.nodes, id) == Lookup(g.nodes, id))
    && (forall e :: e in g.edges ==> e in h.edges)
  }

  lemma ExtendedStillSatisfies(g: Graph, h: Graph, r: Resource)
    requires Extends(g, h) && Satisfies(g, r)
    ensures Satisfies(h, r)
  {
    SatisfiesIffHom(g, r);
    SatisfiesIffHom(h, r);
    var f :| Hom(g, r, f);
    assert Hom(h, r, f);
  }

  /** Registering more (vertices with fresh ids, any edges) never loses a match. */
  lemma AddingNeverLoses(g: Graph, vs: seq<Vertex>, es: seq<Edge>, r: Resource)
    requires forall v :: v in vs ==> Lookup(g.nodes, v.id).None?
    requires Satisfies(g, r)
    ensures Satisfies(Graph(g.nodes + vs, g.edges + es), r)
  {
    var h := Graph(g.nodes + vs, g.edges + es);
    forall id: nat | Lookup(g.nodes, id).Some? ensures Lookup(h.nodes, id) == Lookup(g.nodes, id) {
      LookupAppend(g.nodes, vs, id);
    }
    ExtendedStillSatisfies(g, h, r);
  }

  /** `a` asks for no more structure than `b`: children may be dropped, repeated and reordered. */
  ghost predicate NoMoreThan(a: Resource, b: Resource)
    decreases a
  {
    a.kind == b.kind && forall c :: c in a.with ==> exists d :: d in b.with && NoMoreThan(c, d)
  }

  lemma {:induction false} ChildrenWeaken(g: Graph, id: nat, a: Resource, b: Resource)
    requires NoMoreThan(a, b) && ChildrenSat(g, id, b.with)
    ensures ChildrenSat(g, id, a.with)
    decreases a
  {
    forall c | c in a.with
      ensures exists k | k in Kids(g.edges, id) :: MatchAt(g, k, c) && ChildrenSat(g, k, c.with)
    {
      var d :| d in b.with && NoMoreThan(c, d);
      var k :| k in Kids(g.edges, id) && MatchAt(g, k, d) && ChildrenSat(g, k, d.with);
      ChildrenWeaken(g, k, c, d);
    }
  }

  /** Dropping `with` children (or repeating them: the map need not be injective) never loses a match. */
  lemma AskingLessNeverLoses(g: Graph, a: Resource, b: Resource)
    requires NoMoreThan(a, b) && Satisfies(g, b)
    ensures Satisfies(g, a)
  {
    var v :| v in g.nodes && MatchAt(g, v.id, b) && ChildrenSat(g, v.id, b.with);
    ChildrenWeaken(g, v.id, a, b);
  }

  /** A registered subsystem satisfies a section iff the section is met entry by entry, anyof as OR. */
  lemma SubsystemMeaning(g: Graph, section: seq<Resource>)
    ensures SubsystemSatisfies(Some(g), section) <==> Meets(section, r => Satisfies(g, r))
  {
    var sat := r => Satisfies(g, r);
    ExpandMeaning(section, sat);
    assert SomeRow(Expand(section), sat) <==> SubsystemSatisfies(Some(g), section) by {
      if SomeRow(Expand(section), sat) {
        var row :| row in Expand(section) && AllSat(row, sat);
        assert forall r :: r in row ==> sat(r);
      }
      if SubsystemSatisfies(Some(g), section) {
        var row :| row in Expand(section) && forall r :: r in row ==> Satisfies(g, r);
        assert AllSat(row, sat);
      }
    }
  }
}
