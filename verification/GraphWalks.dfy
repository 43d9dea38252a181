/** What lies under a vertex, read off the walks that leave it: each walk over edges between vertices
    counts once, with the size of the vertex it ends at. */
module GraphWalks {
  import opened Jobspec
  import opened Graphs

  /** A walk, as the positions in the edge list of the edges it takes; parallel edges are different walks. */
  type Path = seq<nat>

  predicate IsWalk(g: Graph, from: nat, w: Path)
    decreases w
  {
    && w != [] && w[0] < |g.edges| && g.edges[w[0]].source == from
    && Lookup(g.nodes, g.edges[w[0]].target).Some?
    && (|w| == 1 || IsWalk(g, g.edges[w[0]].target, w[1..]))
  }

  /** The vertex a walk ends at. */
  function EndOf(g: Graph, from: nat, w: Path): Vertex
    requires IsWalk(g, from, w)
    decreases w
  {
    if |w| == 1 then Lookup(g.nodes, g.edges[w[0]].target).value else EndOf(g, g.edges[w[0]].target, w[1..])
  }

  function UnitsAt(kind: Kind, v: Vertex): nat {
    if v.kind != kind then 0 else if v.size <= 0 then 1 else v.size
  }

  ghost predicate AllWalks(g: Graph, from: nat, ws: seq<Path>) { forall w :: w in ws ==> IsWalk(g, from, w) }

  function Units(kind: Kind, g: Graph, from: nat, ws: seq<Path>): nat
    requires AllWalks(g, from, ws)
  {
    if ws == [] then 0
    else
      assert ws[0] in ws;
      UnitsAt(kind, EndOf(g, from, ws[0])) + Units(kind, g, from, ws[1..])
  }

  function Behind(e: nat, ws: seq<Path>): (r: seq<Path>)
    ensures |r| == |ws| && forall i :: 0 <= i < |ws| ==> r[i] == [e] + ws[i]
  {
    seq(|ws|, i requires 0 <= i < |ws| => [e] + ws[i])
  }

  /** The walks that start with one of the first `m` edges. */
  ghost function Walks(g: Graph, from: nat, m: nat): seq<Path>
    requires Acyclic(g) && m <= |g.edges|
    decreases RankOf(g)(from), m
  {
    if m == 0 then []
    else
      var e := g.edges[m - 1];
      assert e in g.edges;
      Walks(g, from, m - 1)
      + if e.source == from && Lookup(g.nodes, e.target).Some?
        then [[m - 1]] + Behind(m - 1, Walks(g, e.target, |g.edges|))
        else []
  }

  lemma WalksStep(g: Graph, from: nat, m: nat)
    requires Acyclic(g) && 0 < m <= |g.edges|
    ensures var e := g.edges[m - 1];
      Walks(g, from, m) == if e.source == from && Lookup(g.nodes, e.target).Some?
        then Walks(g, from, m - 1) + ([[m - 1]] + Behind(m - 1, Walks(g, e.target, |g.edges|)))
        else Walks(g, from, m - 1)
  {
    assert Walks(g, from, m - 1) + [] == Walks(g, from, m - 1);
  }

  lemma NoWalks(g: Graph, from: nat)
    requires Acyclic(g)
    ensures Walks(g, from, 0) == []
  {}

  lemma StartsWith(g: Graph, from: nat, m: nat, w: Path)
    requires m < |g.edges| && w != [] && w[0] == m
    ensures IsWalk(g, from, w) <==>
      g.edges[m].source == from && Lookup(g.nodes, g.edges[m].target).Some?
      && (|w| == 1 || IsWalk(g, g.edges[m].target, w[1..]))
  {}

  /** They are all there. */
  lemma {:induction false} WalksComplete(g: Graph, from: nat, m: nat, w: Path)
    requires Acyclic(g) && m <= |g.edges|
    ensures w in Walks(g, from, m) <==> IsWalk(g, from, w) && w[0] < m
    decreases RankOf(g)(from), m
  {
    hide IsWalk, Walks, Lookup, Behind;
    if m == 0 {
      NoFirst(g, from, w);
      NoWalks(g, from);
    } else {
      var e := g.edges[m - 1];
      assert e in g.edges;
      WalksStep(g, from, m);
      WalksComplete(g, from, m - 1, w);
      NonEmptyWalk(g, from, w);
      if w != [] && w[0] == m - 1 {
        StartsWith(g, from, m - 1, w);
        if e.source == from && Lookup(g.nodes, e.target).Some? {
          var further := Walks(g, e.target, |g.edges|);
          WalksComplete(g, e.target, |g.edges|, w[1..]);
          NonEmptyWalk(g, e.target, w[1..]);
          BehindHas(m - 1, further, w);
        }
      } else if e.source == from && Lookup(g.nodes, e.target).Some? {
        BehindStarts(m - 1, Walks(g, e.target, |g.edges|), w);
      }
    }
  }

  lemma NonEmptyWalk(g: Graph, from: nat, w: Path)
    ensures IsWalk(g, from, w) ==> w != [] && w[0] < |g.edges|
  {}

  lemma NoFirst(g: Graph, from: nat, w: Path)
    ensures !(IsWalk(g, from, w) && w[0] < 0)
  {}

  lemma BehindHas(e: nat, ws: seq<Path>, w: Path)
    requires w != [] && w[0] == e
    ensures w in [[e]] + Behind(e, ws) <==> |w| == 1 || w[1..] in ws
  {
    assert w == [e] + w[1..];
    if |w| == 1 { assert ([[e]] + Behind(e, ws))[0] == w; }
    if w[1..] in ws {
      var i :| 0 <= i < |ws| && ws[i] == w[1..];
      assert ([[e]] + Behind(e, ws))[i + 1] == w;
    }
    if w in Behind(e, ws) {
      var i :| 0 <= i < |ws| && Behind(e, ws)[i] == w;
      assert ([e] + ws[i])[1..] == ws[i];
    }
  }

  lemma BehindStarts(e: nat, ws: seq<Path>, w: Path)
    ensures w in [[e]] + Behind(e, ws) ==> w != [] && w[0] == e
  {}

  ghost predicate Once(ws: seq<Path>) { forall i, j :: 0 <= i < j < |ws| ==> ws[i] != ws[j] }

  /** And none is there twice. */
  lemma {:induction false} WalksOnce(g: Graph, from: nat, m: nat)
    requires Acyclic(g) && m <= |g.edges|
    ensures Once(Walks(g, from, m))
    decreases RankOf(g)(from), m
  {
    hide IsWalk, Once, Walks, Lookup, Behind;
    if m == 0 {
      OnceEmpty();
      NoWalks(g, from);
    } else {
      var e := g.edges[m - 1];
      assert e in g.edges;
      WalksStep(g, from, m);
      WalksOnce(g, from, m - 1);
      if e.source == from && Lookup(g.nodes, e.target).Some? {
        var further := Walks(g, e.target, |g.edges|);
        WalksOnce(g, e.target, |g.edges|);
        WalksStart(g, from, m - 1);
        WalksStart(g, e.target, |g.edges|);
        OnceBehind(Walks(g, from, m - 1), m - 1, further);
      }
    }
  }

  lemma WalksStart(g: Graph, from: nat, m: nat)
    requires Acyclic(g) && m <= |g.edges|
    ensures forall w :: w in Walks(g, from, m) ==> w != [] && w[0] < m
  {
    hide IsWalk, Walks;
    forall w | w in Walks(g, from, m) ensures w != [] && w[0] < m {
      WalksComplete(g, from, m, w);
      NonEmptyWalk(g, from, w);
    }
  }

  lemma OnceEmpty()
    ensures Once([])
  {}

  lemma OnceBehind(before: seq<Path>, e: nat, ws: seq<Path>)
    requires Once(before) && Once(ws) && (forall w :: w in before ==> w != [] && w[0] < e)
    requires forall w :: w in ws ==> w != []
    ensures Once(before + ([[e]] + Behind(e, ws)))
  {
    var after := [[e]] + Behind(e, ws);
    forall i, j | 0 <= i < j < |after| ensures after[i] != after[j] {
      assert after[j] == [e] + ws[j - 1] && ws[j - 1] in ws;
      assert after[j][1..] == ws[j - 1];
      if i > 0 { assert after[i][1..] == ws[i - 1]; } else { assert |after[0]| == 1; }
    }
    var all := before + after;
    forall i, j | 0 <= i < j < |all| ensures all[i] != all[j] {
      if i < |before| <= j {
        assert before[i] in before;
        BehindStarts(e, ws, after[j - |before|]);
      }
    }
  }

  lemma {:induction false} UnitsAppend(kind: Kind, g: Graph, from: nat, a: seq<Path>, b: seq<Path>)
    requires AllWalks(g, from, a) && AllWalks(g, from, b)
    ensures AllWalks(g, from, a + b) && Units(kind, g, from, a + b) == Units(kind, g, from, a) + Units(kind, g, from, b)
  {
    hide IsWalk, EndOf;
    if a == [] {
      assert a + b == b;
    } else {
      assert forall w :: w in a[1..] ==> w in a;
      UnitsAppend(kind, g, from, a[1..], b);
      assert (a + b)[1..] == a[1..] + b;
    }
  }

  /** Walks that first take one edge end where their rest ends. */
  lemma {:induction false} UnitsBehind(kind: Kind, g: Graph, from: nat, e: nat, ws: seq<Path>)
    requires e < |g.edges| && g.edges[e].source == from && Lookup(g.nodes, g.edges[e].target).Some?
    requires AllWalks(g, g.edges[e].target, ws)
    ensures AllWalks(g, from, Behind(e, ws))
    ensures Units(kind, g, from, Behind(e, ws)) == Units(kind, g, g.edges[e].target, ws)
  {
    forall i | 0 <= i < |ws| ensures IsWalk(g, from, [e] + ws[i]) {
      assert ws[i] in ws && ([e] + ws[i])[1..] == ws[i];
    }
    if ws != [] {
      assert ws[0] in ws && forall w :: w in ws[1..] ==> w in ws;
      UnitsBehind(kind, g, from, e, ws[1..]);
      assert Behind(e, ws)[1..] == Behind(e, ws[1..]);
      assert ([e] + ws[0])[1..] == ws[0];
      assert EndOf(g, from, [e] + ws[0]) == EndOf(g, g.edges[e].target, ws[0]);
    }
  }

  lemma WalksAllWalk(g: Graph, from: nat, m: nat)
    requires Acyclic(g) && m <= |g.edges|
    ensures AllWalks(g, from, Walks(g, from, m))
  {
    hide IsWalk, Walks;
    forall w | w in Walks(g, from, m) ensures IsWalk(g, from, w) { WalksComplete(g, from, m, w); }
  }

  lemma OneStep(kind: Kind, g: Graph, from: nat, e: nat)
    requires e < |g.edges| && g.edges[e].source == from && Lookup(g.nodes, g.edges[e].target).Some?
    ensures AllWalks(g, from, [[e]])
    ensures Units(kind, g, from, [[e]]) == UnitsAt(kind, Lookup(g.nodes, g.edges[e].target).value)
  {
    assert [[e]][1..] == [];
  }

  /** What the first `m` edges contribute to the sum under a vertex. */
  lemma {:induction false} UnderFirst(kind: Kind, g: Graph, from: nat, m: nat)
    requires Acyclic(g) && m <= |g.edges|
    ensures ChildrenOf(g, from, Kids(g.edges[..m], from)) && AllWalks(g, from, Walks(g, from, m))
    ensures UnderAll(kind, g, from, Kids(g.edges[..m], from)) == Units(kind, g, from, Walks(g, from, m))
    decreases RankOf(g)(from), m
  {
    hide IsWalk, EndOf, Units, Lookup, Walks, Under, UnderAll;
    KidsOfFirst(g, from, m);
    WalksAllWalk(g, from, m);
    if m == 0 {
      NoUnits(kind, g, from);
    } else {
      var e := g.edges[m - 1];
      assert e in g.edges;
      KidsOfFirst(g, from, m - 1);
      WalksStep(g, from, m);
      UnderFirst(kind, g, from, m - 1);
      if e.source == from {
        NextChild(kind, g, from, m);
        if Lookup(g.nodes, e.target).Some? {
          UnderAny(kind, g, e.target);
          var further := Walks(g, e.target, |g.edges|);
          OneStep(kind, g, from, m - 1);
          UnitsBehind(kind, g, from, m - 1, further);
          UnitsAppend(kind, g, from, [[m - 1]], Behind(m - 1, further));
          UnitsAppend(kind, g, from, Walks(g, from, m - 1), [[m - 1]] + Behind(m - 1, further));
        }
      } else {
        SameChildren(g, from, m);
      }
    }
  }

  lemma KidsOfFirst(g: Graph, from: nat, m: nat)
    requires m <= |g.edges|
    ensures ChildrenOf(g, from, Kids(g.edges[..m], from))
  {
    KidsMembers(g.edges[..m], from);
  }

  lemma SameChildren(g: Graph, from: nat, m: nat)
    requires 0 < m <= |g.edges| && g.edges[m - 1].source != from
    ensures Kids(g.edges[..m], from) == Kids(g.edges[..m - 1], from)
  {
    assert g.edges[..m][..m - 1] == g.edges[..m - 1];
  }

  lemma NoUnits(kind: Kind, g: Graph, from: nat)
    requires Acyclic(g)
    ensures Kids(g.edges[..0], from) == [] && Walks(g, from, 0) == []
    ensures UnderAll(kind, g, from, []) == 0 && Units(kind, g, from, []) == 0
  {}

  lemma NextChild(kind: Kind, g: Graph, from: nat, m: nat)
    requires Acyclic(g) && 0 < m <= |g.edges| && g.edges[m - 1].source == from
    requires ChildrenOf(g, from, Kids(g.edges[..m], from)) && ChildrenOf(g, from, Kids(g.edges[..m - 1], from))
    ensures var v := Lookup(g.nodes, g.edges[m - 1].target);
      UnderAll(kind, g, from, Kids(g.edges[..m], from)) == UnderAll(kind, g, from, Kids(g.edges[..m - 1], from))
        + (if v.None? then 0 else UnitsAt(kind, v.value) + Under(kind, g, g.edges[m - 1].target))
  {
    hide Lookup, Under;
    var ks := Kids(g.edges[..m], from);
    assert g.edges[..m][..m - 1] == g.edges[..m - 1];
    assert ks == Kids(g.edges[..m - 1], from) + [g.edges[m - 1].target];
    assert ks[..|ks| - 1] == Kids(g.edges[..m - 1], from);
  }

  lemma {:induction false} UnderAny(kind: Kind, g: Graph, from: nat)
    requires Acyclic(g)
    ensures AllWalks(g, from, Walks(g, from, |g.edges|))
    ensures Under(kind, g, from) == Units(kind, g, from, Walks(g, from, |g.edges|))
    decreases RankOf(g)(from), |g.edges| + 1
  {
    KidsMembers(g.edges, from);
    UnderFirst(kind, g, from, |g.edges|);
    assert g.edges[..|g.edges|] == g.edges;
  }

  /** The units under a vertex of any graph without endless walks: there is a list of all walks from it, each
      once, and the sum runs over their ends. A size of zero or less counts as one, a target that is no vertex
      not at all, and a vertex reached by two walks twice. */
  lemma UnderIsWalkSum(kind: Kind, g: Graph, from: nat)
    requires Acyclic(g)
    ensures exists ws ::
      Once(ws) && AllWalks(g, from, ws) && (forall w :: IsWalk(g, from, w) ==> w in ws)
      && Under(kind, g, from) == Units(kind, g, from, ws)
  {
    hide IsWalk, Walks, Under, Units;
    var ws := Walks(g, from, |g.edges|);
    UnderAny(kind, g, from);
    WalksOnce(g, from, |g.edges|);
    forall w | IsWalk(g, from, w) ensures w in ws {
      NonEmptyWalk(g, from, w);
      WalksComplete(g, from, |g.edges|, w);
    }
  }
}
