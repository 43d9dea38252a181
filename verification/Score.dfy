/** Ranking feasible clusters: the default score over exact rationals, the shuffle that breaks
    ties, the stable sort, and the trace of the decision. */
module Score {
  import opened Jobspec
  import M = Matcher

  datatype Scored = Scored(cand: M.Candidate, score: real)

  function Surplus(spec: Spec, c: M.Candidate): nat {
    if c.freeNodes < spec.Nodes() then 0 else c.freeNodes - spec.Nodes()
  }

  /** Default.Score: subsystem matches first, then best fit, then a bonus for being free now. */
  function DefaultScore(spec: Spec, c: M.Candidate): real {
    if !c.feasible then -1.0
    else |c.matched| as real * 10.0 + 1.0 / (1 + Surplus(spec, c)) as real + (if c.freeNow then 0.5 else 0.0)
  }

  // ---- Stable sort by score, highest first ----

  predicate Descending(s: seq<Scored>) {
    forall i, j :: 0 <= i < j < |s| ==> s[i].score >= s[j].score
  }

  /** Puts `x` after everything that scores at least as much. */
  function Insert(s: seq<Scored>, x: Scored): (r: seq<Scored>) {
    if s == [] || s[|s| - 1].score >= x.score then s + [x]
    else Insert(s[..|s| - 1], x) + [s[|s| - 1]]
  }

  function SortDesc(s: seq<Scored>): seq<Scored> {
    if s == [] then [] else Insert(SortDesc(s[..|s| - 1]), s[|s| - 1])
  }

  /** The candidates with one score, in order. */
  function WithScore(s: seq<Scored>, v: real): seq<Scored> {
    if s == [] then []
    else WithScore(s[..|s| - 1], v) + if s[|s| - 1].score == v then [s[|s| - 1]] else []
  }

  lemma {:induction false} WithScoreMembers(s: seq<Scored>, v: real)
    ensures forall x :: x in WithScore(s, v) <==> x in s && x.score == v
  {
    if s != [] {
      WithScoreMembers(s[..|s| - 1], v);
      assert s == s[..|s| - 1] + [s[|s| - 1]];
    }
  }

  lemma {:induction false} InsertMultiset(s: seq<Scored>, x: Scored)
    ensures multiset(Insert(s, x)) == multiset(s) + multiset{x}
  {
    if s != [] && s[|s| - 1].score < x.score {
      InsertMultiset(s[..|s| - 1], x);
      assert s == s[..|s| - 1] + [s[|s| - 1]];
    }
  }

  lemma {:induction false} InsertMembers(s: seq<Scored>, x: Scored)
    ensures forall y :: y in Insert(s, x) <==> y in s || y == x
  {
    if s != [] && s[|s| - 1].score < x.score {
      InsertMembers(s[..|s| - 1], x);
      assert s == s[..|s| - 1] + [s[|s| - 1]];
    }
  }

  lemma {:induction false} InsertDescending(s: seq<Scored>, x: Scored)
    requires Descending(s)
    ensures Descending(Insert(s, x))
  {
    if s != [] && s[|s| - 1].score < x.score {
      var front, last := s[..|s| - 1], s[|s| - 1];
      InsertDescending(front, x);
      InsertMembers(front, x);
      var r := Insert(front, x);
      forall i | 0 <= i < |r| ensures r[i].score >= last.score {
        assert r[i] in r;
      }
    }
  }

  lemma {:induction false} InsertStable(s: seq<Scored>, x: Scored, v: real)
    requires Descending(s)
    ensures WithScore(Insert(s, x), v) == WithScore(s, v) + if x.score == v then [x] else []
  {
    if s == [] || s[|s| - 1].score >= x.score {
      assert (s + [x])[..|s|] == s;
    } else {
      var front, last := s[..|s| - 1], s[|s| - 1];
      InsertStable(front, x, v);
      var r := Insert(s, x);
      assert r[..|r| - 1] == Insert(front, x);
      if last.score == v {
        assert x.score != v;
      }
    }
  }

  lemma EmptyDescending()
    ensures Descending([])
  {}

  /** Sorting yields a descending permutation... */
  lemma {:induction false} SortPermutes(s: seq<Scored>)
    ensures Descending(SortDesc(s)) && multiset(SortDesc(s)) == multiset(s)
  {
    hide Insert, Descending;
    if s == [] {
      EmptyDescending();
    } else {
      var front, last := s[..|s| - 1], s[|s| - 1];
      SortPermutes(front);
      InsertDescending(SortDesc(front), last);
      InsertMultiset(SortDesc(front), last);
      assert s == front + [last];
    }
  }

  /** ...that keeps equal scores in order. */
  lemma {:induction false} SortStable(s: seq<Scored>)
    ensures SameByScore(SortDesc(s), s)
  {
    if s != [] {
      var front, last := s[..|s| - 1], s[|s| - 1];
      SortStable(front);
      SortPermutes(front);
      forall v ensures WithScore(SortDesc(s), v) == WithScore(s, v) {
        InsertStable(SortDesc(front), last, v);
        assert WithScore(SortDesc(front), v) == WithScore(front, v);
      }
    }
  }

  ghost predicate SameByScore(a: seq<Scored>, b: seq<Scored>) {
    forall v :: WithScore(a, v) == WithScore(b, v)
  }

  /** Those facts leave no freedom: the descending stable arrangement is unique. */
  lemma {:induction false} SortUnique(a: seq<Scored>, b: seq<Scored>)
    requires Descending(a) && Descending(b) && SameByScore(a, b)
    ensures a == b
    decreases |a|
  {
    hide WithScore, SameByScore;
    SameEmptiness(a, b);
    if a != [] {
      var fa, fb := a[..|a| - 1], b[..|b| - 1];
      LastsAgree(a, b);
      assert SameByScore(fa, fb) by { FrontsAgree(a, b); }
      SortUnique(fa, fb);
      assert a == fa + [a[|a| - 1]] && b == fb + [b[|b| - 1]];
    }
  }

  lemma LastsAgree(a: seq<Scored>, b: seq<Scored>)
    requires Descending(a) && Descending(b) && SameByScore(a, b) && a != [] && b != []
    ensures a[|a| - 1] == b[|b| - 1]
  {
    hide WithScore;
    var x, y := a[|a| - 1], b[|b| - 1];
    WithScoreMembers(a, x.score);
    WithScoreMembers(b, x.score);
    WithScoreMembers(a, y.score);
    WithScoreMembers(b, y.score);
    assert x in WithScore(b, x.score) && y in WithScore(a, y.score);
    assert x.score == y.score;
    LastWithScore(a);
    LastWithScore(b);
  }

  lemma FrontsAgree(a: seq<Scored>, b: seq<Scored>)
    requires a != [] && b != [] && a[|a| - 1] == b[|b| - 1] && SameByScore(a, b)
    ensures SameByScore(a[..|a| - 1], b[..|b| - 1])
  {
    hide WithScore;
    var fa, fb := a[..|a| - 1], b[..|b| - 1];
    forall v ensures WithScore(fa, v) == WithScore(fb, v) {
      UnrollWithScore(a, v);
      UnrollWithScore(b, v);
      assert WithScore(a, v) == WithScore(b, v);
      var x := a[|a| - 1];
      if x.score == v {
        CancelLast(WithScore(fa, v), WithScore(fb, v), x);
      } else {
        assert WithScore(fa, v) + [] == WithScore(fa, v) && WithScore(fb, v) + [] == WithScore(fb, v);
      }
    }
  }

  lemma UnrollWithScore(s: seq<Scored>, v: real)
    requires s != []
    ensures WithScore(s, v) == WithScore(s[..|s| - 1], v) + if s[|s| - 1].score == v then [s[|s| - 1]] else []
  {}

  lemma CancelLast(p: seq<Scored>, q: seq<Scored>, x: Scored)
    requires p + [x] == q + [x]
    ensures p == q
  {
    assert (p + [x])[..|p|] == p && (q + [x])[..|q|] == q;
  }

  lemma SameEmptiness(a: seq<Scored>, b: seq<Scored>)
    requires SameByScore(a, b)
    ensures a == [] <==> b == []
  {
    if a != [] {
      WithScoreMembers(a, a[0].score);
      WithScoreMembers(b, a[0].score);
      assert a[0] in WithScore(b, a[0].score);
    }
    if b != [] {
      WithScoreMembers(a, b[0].score);
      WithScoreMembers(b, b[0].score);
      assert b[0] in WithScore(a, b[0].score);
    }
  }

  lemma LastWithScore(s: seq<Scored>)
    requires s != []
    ensures var w := WithScore(s, s[|s| - 1].score); w != [] && w[|w| - 1] == s[|s| - 1]
  {}

  // ---- The ranking method ----

  datatype Trace = Trace(
    considered: nat, feasible: nat, selected: string, ranked: seq<Scored>, rejected: seq<M.Candidate>,
        tiedAtTop: seq<string>)

  /** One swap of a shuffle; indices the library would never produce change nothing. */
  function Swap(s: seq<M.Candidate>, p: (nat, nat)): seq<M.Candidate> {
    if p.0 < |s| && p.1 < |s| then s[p.0 := s[p.1]][p.1 := s[p.0]] else s
  }

  function Shuffled(s: seq<M.Candidate>, swaps: seq<(nat, nat)>): seq<M.Candidate> {
    if swaps == [] then s else Swap(Shuffled(s, swaps[..|swaps| - 1]), swaps[|swaps| - 1])
  }

  lemma {:induction false} ShuffledSame(s: seq<M.Candidate>, swaps: seq<(nat, nat)>)
    ensures |Shuffled(s, swaps)| == |s| && multiset(Shuffled(s, swaps)) == multiset(s)
  {
    if swaps != [] { ShuffledSame(s, swaps[..|swaps| - 1]); }
  }

  function FeasibleOnly(cands: seq<M.Candidate>, feasible: bool): seq<M.Candidate> {
    if cands == [] then []
    else
      var last := cands[|cands| - 1];
      FeasibleOnly(cands[..|cands| - 1], feasible) + if last.feasible == feasible then [last] else []
  }

  lemma {:induction false} FeasiblePartition(cands: seq<M.Candidate>)
    ensures multiset(FeasibleOnly(cands, true)) + multiset(FeasibleOnly(cands, false)) == multiset(cands)
  {
    hide FeasibleOnly;
    FeasibleOnlyLast(cands, true);
    FeasibleOnlyLast(cands, false);
    if cands != [] {
      var front, last := cands[..|cands| - 1], cands[|cands| - 1];
      FeasiblePartition(front);
      SplitLast(FeasibleOnly(front, true), FeasibleOnly(front, false), front, last);
      assert cands == front + [last];
    }
  }

  lemma FeasibleOnlyLast(cands: seq<M.Candidate>, feasible: bool)
    ensures cands == [] ==> FeasibleOnly(cands, feasible) == []
    ensures cands != [] ==> var last := cands[|cands| - 1]; var rest := FeasibleOnly(cands[..|cands| - 1], feasible);
      FeasibleOnly(cands, feasible) == if last.feasible == feasible then rest + [last] else rest
  {}

  lemma SplitLast<T>(a: seq<T>, b: seq<T>, whole: seq<T>, x: T)
    requires multiset(a) + multiset(b) == multiset(whole)
    ensures multiset(a + [x]) + multiset(b) == multiset(whole + [x])
    ensures multiset(a) + multiset(b + [x]) == multiset(whole + [x])
  {}

  lemma {:induction false} FeasibleOnlyMembers(cands: seq<M.Candidate>, feasible: bool)
    ensures forall c :: c in FeasibleOnly(cands, feasible) <==> c in cands && c.feasible == feasible
  {
    if cands != [] {
      FeasibleOnlyMembers(cands[..|cands| - 1], feasible);
      assert cands == cands[..|cands| - 1] + [cands[|cands| - 1]];
    }
  }

  function ScoreAll(score: M.Candidate -> real, cs: seq<M.Candidate>): (r: seq<Scored>)
    ensures |r| == |cs| && forall i :: 0 <= i < |cs| ==> r[i] == Scored(cs[i], score(cs[i]))
  {
    seq(|cs|, i requires 0 <= i < |cs| => Scored(cs[i], score(cs[i])))
  }

  function Names(s: seq<Scored>): (r: seq<string>)
    ensures |r| == |s| && forall i :: 0 <= i < |s| ==> r[i] == s[i].cand.cluster
  {
    seq(|s|, i requires 0 <= i < |s| => s[i].cand.cluster)
  }

  /** Clusters tied with the winner, winner included; empty when the winner stands alone. */
  function Tied(ranked: seq<Scored>): seq<string> {
    if ranked == [] then []
    else
      var top := WithScore(ranked, ranked[0].score);
      if |top| >= 2 then Names(top) else []
  }

  function Ranking(score: M.Candidate -> real, cands: seq<M.Candidate>, swaps: seq<(nat, nat)>): seq<Scored> {
    SortDesc(ScoreAll(score, Shuffled(FeasibleOnly(cands, true), swaps)))
  }

  /** Sinks the last element past everything that scores less. */
  method SinkLast(s: seq<Scored>) returns (r: seq<Scored>)
    requires s != []
    ensures r == Insert(s[..|s| - 1], s[|s| - 1])
  {
    ghost var front, x := s[..|s| - 1], s[|s| - 1];
    var k := |s| - 1;
    r := s;
    assert front[..k] == front && r[k + 1..] == [];
    while k > 0 && r[k - 1].score < r[k].score
      invariant 0 <= k < |r| == |s|
      invariant r[k] == x && r[..k] == front[..k]
      invariant Insert(front, x) == Insert(front[..k], x) + r[k + 1..]
    {
      ghost var tail := r[k + 1..];
      assert front[k - 1] == r[k - 1] && front[..k][..k - 1] == front[..k - 1];
      r := r[k := r[k - 1]][k - 1 := r[k]];
      assert r[k..] == [front[k - 1]] + tail;
      k := k - 1;
    }
    assert k > 0 ==> front[..k][|front[..k]| - 1] == r[k - 1];
    assert r == front[..k] + [x] + r[k + 1..];
  }

  method StableSort(s: seq<Scored>) returns (r: seq<Scored>)
    ensures r == SortDesc(s)
  {
    r := [];
    for i := 0 to |s|
      invariant r == SortDesc(s[..i])
    {
      assert s[..i + 1][..i] == s[..i];
      ghost var sorted := r;
      r := SinkLast(r + [s[i]]);
      assert (sorted + [s[i]])[..|sorted|] == sorted;
    }
    assert s[..|s|] == s;
  }

  /** RankWithTrace, for every scorer and every shuffle. */
  method RankWithTrace(score: M.Candidate -> real, cands: seq<M.Candidate>, swaps: seq<(nat, nat)>)
    returns (ranked: seq<Scored>, tr: Trace)
    ensures ranked == Ranking(score, cands, swaps)
    ensures tr == Trace(|cands|, |ranked|, if ranked == [] then "" else ranked[0].cand.cluster,
                        ranked, FeasibleOnly(cands, false), Tied(ranked))
  {
    var feasible: seq<M.Candidate>, rejected: seq<M.Candidate> := [], [];
    for i := 0 to |cands|
      invariant feasible == FeasibleOnly(cands[..i], true) && rejected == FeasibleOnly(cands[..i], false)
    {
      assert cands[..i + 1][..i] == cands[..i];
      if cands[i].feasible { feasible := feasible + [cands[i]]; } else { rejected := rejected + [cands[i]]; }
    }
    assert cands[..|cands|] == cands;
    var order := Shuffle(feasible, swaps);
    ranked := StableSort(ScoreAll(score, order));
    var tied := TopTies(ranked);
    RankedLength(score, cands, swaps);
    tr := Trace(|cands|, |feasible|, if ranked == [] then "" else ranked[0].cand.cluster, ranked, rejected, tied);
  }

  method Shuffle(s: seq<M.Candidate>, swaps: seq<(nat, nat)>) returns (r: seq<M.Candidate>)
    ensures r == Shuffled(s, swaps)
  {
    r := s;
    for i := 0 to |swaps|
      invariant r == Shuffled(s, swaps[..i])
    {
      assert swaps[..i + 1][..i] == swaps[..i];
      var (a, b) := swaps[i];
      if a < |r| && b < |r| { r := r[a := r[b]][b := r[a]]; }
    }
    assert swaps[..|swaps|] == swaps;
  }

  method TopTies(ranked: seq<Scored>) returns (tied: seq<string>)
    ensures tied == Tied(ranked)
  {
    tied := [];
    if ranked == [] { return; }
    var top := ranked[0].score;
    ghost var w := WithScore(ranked[..1], top);
    assert ranked[..1][..0] == [];
    for i := 1 to |ranked|
      invariant w == WithScore(ranked[..i], top) && w != [] && w[0] == ranked[0]
      invariant tied == Names(w)[1..]
    {
      assert ranked[..i + 1][..i] == ranked[..i];
      if ranked[i].score == top { tied := tied + [ranked[i].cand.cluster]; }
      w := WithScore(ranked[..i + 1], top);
    }
    assert ranked[..|ranked|] == ranked;
    if tied != [] { tied := [ranked[0].cand.cluster] + tied; }
  }

  lemma RankedLength(score: M.Candidate -> real, cands: seq<M.Candidate>, swaps: seq<(nat, nat)>)
    ensures |Ranking(score, cands, swaps)| == |FeasibleOnly(cands, true)|
  {
    hide SortDesc, Shuffled, FeasibleOnly;
    var order := Shuffled(FeasibleOnly(cands, true), swaps);
    ShuffledSame(FeasibleOnly(cands, true), swaps);
    SortPermutes(ScoreAll(score, order));
    assert |multiset(SortDesc(ScoreAll(score, order)))| == |multiset(ScoreAll(score, order))|;
  }

  function Cands(s: seq<Scored>): (r: seq<M.Candidate>)
    ensures |r| == |s| && forall i :: 0 <= i < |s| ==> r[i] == s[i].cand
  {
    seq(|s|, i requires 0 <= i < |s| => s[i].cand)
  }

  /** For every scorer and shuffle: the ranking is a score-descending permutation of the feasible
      candidates, and with the rejected ones it accounts for every candidate considered. */
  lemma RankingFacts(score: M.Candidate -> real, cands: seq<M.Candidate>, swaps: seq<(nat, nat)>)
    ensures var ranked := Ranking(score, cands, swaps);
      && Descending(ranked)
      && (forall x :: x in ranked ==> x.score == score(x.cand))
      && multiset(Cands(ranked)) + multiset(FeasibleOnly(cands, false)) == multiset(cands)
  {
    hide SortDesc, Shuffled, FeasibleOnly;
    var order := Shuffled(FeasibleOnly(cands, true), swaps);
    var scored, ranked := ScoreAll(score, order), Ranking(score, cands, swaps);
    ShuffledSame(FeasibleOnly(cands, true), swaps);
    SortPermutes(scored);
    FeasiblePartition(cands);
    forall x | x in ranked ensures x.score == score(x.cand) {
      assert x in multiset(ranked);
      assert x in multiset(scored);
    }
    SortCands(scored);
    assert Cands(scored) == order;
  }

  lemma {:induction false} InsertCands(s: seq<Scored>, x: Scored)
    ensures multiset(Cands(Insert(s, x))) == multiset(Cands(s)) + multiset{x.cand}
  {
    if s == [] || s[|s| - 1].score >= x.score {
      assert Cands(s + [x]) == Cands(s) + [x.cand];
    } else {
      var front, last := s[..|s| - 1], s[|s| - 1];
      InsertCands(front, x);
      assert Cands(Insert(front, x) + [last]) == Cands(Insert(front, x)) + [last.cand];
      assert Cands(s) == Cands(front) + [last.cand];
    }
  }

  lemma {:induction false} SortCands(s: seq<Scored>)
    ensures multiset(Cands(SortDesc(s))) == multiset(Cands(s))
  {
    if s != [] {
      var front, last := s[..|s| - 1], s[|s| - 1];
      SortCands(front);
      InsertCands(SortDesc(front), last);
      assert Cands(s) == Cands(front) + [last.cand];
    }
  }

  /** Ranked is exactly the feasible candidates, whatever the scorer and the shuffle. */
  lemma RankingMembers(score: M.Candidate -> real, cands: seq<M.Candidate>, swaps: seq<(nat, nat)>)
    ensures forall c :: c in Cands(Ranking(score, cands, swaps)) <==> c in cands && c.feasible
  {
    hide SortDesc, Shuffled, FeasibleOnly;
    var feasible := FeasibleOnly(cands, true);
    var order := Shuffled(feasible, swaps);
    var scored := ScoreAll(score, order);
    ShuffledSame(feasible, swaps);
    SortCands(scored);
    FeasibleOnlyMembers(cands, true);
    assert Cands(scored) == order;
    forall c ensures c in Cands(Ranking(score, cands, swaps)) <==> c in feasible {
      assert c in multiset(Cands(SortDesc(scored))) <==> c in multiset(order);
      assert c in multiset(order) <==> c in multiset(feasible);
    }
  }

  /** The best candidates are those tied at the top: everything else scores strictly less. */
  lemma TiedAreTheBest(s: seq<Scored>)
    requires Descending(s) && s != []
    ensures forall x :: x in s ==> x.score <= s[0].score
    ensures forall x :: x in WithScore(s, s[0].score) <==> x in s && forall y :: y in s ==> y.score <= x.score
  {
    WithScoreMembers(s, s[0].score);
  }

  /** The first `n` candidates, and no other, have the top score. */
  predicate TopAre(s: seq<Scored>, n: nat) {
    && 1 <= n <= |s| && (forall i :: 0 <= i < n ==> s[i].score == s[0].score)
    && (forall i :: n <= i < |s| ==> s[i].score < s[0].score)
  }

  /** The ties reported for a ranking: none when one candidate alone has the best score, and otherwise the
      names of all best candidates, in rank order, winner first. */
  lemma TiedMeaning(s: seq<Scored>)
    requires Descending(s) && s != []
    ensures exists n: nat :: TopAre(s, n) && Tied(s) == if n >= 2 then Names(s[..n]) else []
  {
    var n := TopRun(s);
    WithScoreRun(s, n);
  }

  /** How many stand at the top. */
  lemma {:induction false} TopRun(s: seq<Scored>) returns (n: nat)
    requires Descending(s) && s != []
    ensures TopAre(s, n)
  {
    if |s| == 1 || s[|s| - 1].score == s[0].score {
      n := |s|;
    } else {
      n := TopRun(s[..|s| - 1]);
    }
  }

  lemma {:induction false} WithScoreRun(s: seq<Scored>, n: nat)
    requires TopAre(s, n)
    ensures WithScore(s, s[0].score) == s[..n]
  {
    if n < |s| {
      WithScoreRun(s[..|s| - 1], n);
      assert s[..|s| - 1][..n] == s[..n];
    } else {
      AllSame(s, s[0].score);
      assert s[..n] == s;
    }
  }

  lemma {:induction false} AllSame(s: seq<Scored>, v: real)
    requires forall i :: 0 <= i < |s| ==> s[i].score == v
    ensures WithScore(s, v) == s
  {
    if s != [] { AllSame(s[..|s| - 1], v); }
  }

  // ---- What the shuffle can do ----

  lemma SwapExchanges(s: seq<M.Candidate>, a: nat, b: nat)
    ensures |Swap(s, (a, b))| == |s|
    ensures a < |s| && b < |s| ==>
      forall i :: 0 <= i < |s| ==> Swap(s, (a, b))[i] == s[if i == a then b else if i == b then a else i]
    ensures a >= |s| || b >= |s| ==> Swap(s, (a, b)) == s
  {}

  lemma {:induction false} ShuffledThen(s: seq<M.Candidate>, p: seq<(nat, nat)>, q: seq<(nat, nat)>)
    ensures Shuffled(s, p + q) == Shuffled(Shuffled(s, p), q)
  {
    if q == [] {
      assert p + q == p;
    } else {
      ShuffledThen(s, p, q[..|q| - 1]);
      assert (p + q)[..|p + q| - 1] == p + q[..|q| - 1];
    }
  }

  /** From any order the shuffle can produce any other: the first `n` places are put right from the left. */
  lemma {:induction false} PutRight(s: seq<M.Candidate>, t: seq<M.Candidate>, n: nat) returns (swaps: seq<(nat, nat)>)
    requires multiset(s) == multiset(t) && n <= |s|
    ensures |s| == |t| == |Shuffled(s, swaps)| && multiset(Shuffled(s, swaps)) == multiset(t)
    ensures Shuffled(s, swaps)[..n] == t[..n]
  {
    assert |s| == |multiset(s)| == |t|;
    if n == 0 {
      swaps := [];
    } else {
      var before := PutRight(s, t, n - 1);
      var r := Shuffled(s, before);
      var k := FindLater(r, t, n - 1);
      swaps := before + [(n - 1, k)];
      ShuffledThen(s, before, [(n - 1, k)]);
      assert Shuffled(r, [(n - 1, k)]) == Swap(r, (n - 1, k)) by { assert [(n - 1, k)][..0] == []; }
      ShuffledSame(r, [(n - 1, k)]);
    }
  }

  /** What the next place should hold stands further on. */
  lemma FindLater(r: seq<M.Candidate>, t: seq<M.Candidate>, n: nat) returns (k: nat)
    requires multiset(r) == multiset(t) && n < |t| == |r| && r[..n] == t[..n]
    ensures n <= k < |r| && r[k] == t[n]
  {
    assert r == r[..n] + r[n..] && t == t[..n] + t[n..];
    var h, x, y := multiset(r[..n]), multiset(r[n..]), multiset(t[n..]);
    assert multiset(r) == h + x && multiset(t) == h + y;
    assert x == h + x - h && y == h + y - h;
    assert t[n] == t[n..][0] && t[n] in multiset(r[n..]);
    var j :| 0 <= j < |r[n..]| && r[n..][j] == t[n];
    k := n + j;
  }

  /** Every order of the feasible candidates can come out of the shuffle, so every order of equal scores
      can come out of the ranking. */
  lemma AnyOrder(s: seq<M.Candidate>, t: seq<M.Candidate>) returns (swaps: seq<(nat, nat)>)
    requires multiset(s) == multiset(t)
    ensures Shuffled(s, swaps) == t
  {
    assert |s| == |multiset(s)| == |t|;
    swaps := PutRight(s, t, |s|);
    assert Shuffled(s, swaps) == Shuffled(s, swaps)[..|s|] && t[..|s|] == t;
  }

  // ---- What the default score prefers ----

  /** Ten points for each matched subsystem, at most one for the fit and half for being free now; minus
      one for what is not feasible. */
  lemma DefaultScoreBand(spec: Spec, c: M.Candidate)
    ensures !c.feasible ==> DefaultScore(spec, c) == -1.0
    ensures c.feasible ==>
      0.0 < DefaultScore(spec, c) - |c.matched| as real * 10.0 - (if c.freeNow then 0.5 else 0.0) <= 1.0
    ensures c.feasible && c.freeNodes <= spec.Nodes() && !c.freeNow ==>
      DefaultScore(spec, c) == |c.matched| as real * 10.0 + 1.0
  {
    ReciprocalOrder(Surplus(spec, c), Surplus(spec, c));
  }

  /** The order the default score puts candidates in: feasible before infeasible, then more matched
      subsystems, then, between two that are both free or both full, the tighter fit. */
  lemma ScoreOrder(spec: Spec, a: M.Candidate, b: M.Candidate)
    requires a.feasible
    ensures !b.feasible ==> DefaultScore(spec, a) > DefaultScore(spec, b)
    ensures b.feasible && |a.matched| > |b.matched| ==> DefaultScore(spec, a) > DefaultScore(spec, b)
    ensures b.feasible && |a.matched| == |b.matched| && a.freeNow == b.freeNow ==>
      (DefaultScore(spec, a) > DefaultScore(spec, b) <==> Surplus(spec, a) < Surplus(spec, b))
  {
    var j, k := Surplus(spec, a), Surplus(spec, b);
    ReciprocalOrder(j, k);
    ReciprocalOrder(k, j);
  }

  lemma ReciprocalOrder(j: nat, k: nat)
    ensures 0.0 < 1.0 / (1 + j) as real <= 1.0
    ensures j < k ==> 1.0 / (1 + j) as real > 1.0 / (1 + k) as real
  {
    var p, q := (1 + j) as real, (1 + k) as real;
    assert p * (1.0 / p) == 1.0 && q * (1.0 / q) == 1.0;
    if j < k { SmallerShare(p, q, 1.0 / p, 1.0 / q); }
  }

  lemma SmallerShare(p: real, q: real, x: real, y: real)
    requires 0.0 < p < q && p * x == 1.0 && q * y == 1.0
    ensures x > y
  {
    assert x > 0.0;
    assert q * x == p * x + (q - p) * x;
    assert (q - p) * x > 0.0;
    assert q * (x - y) > 0.0;
  }

  /** On candidates the matcher produced, the matched term is the same for every feasible cluster,
      so a full cluster outranks a free one exactly when the free one has two or more spare nodes. */
  lemma FullOutranksFree(l: M.Ledger, full: string, free: string, spec: Spec)
    requires full in l.clusters && free in l.clusters
    requires M.EvaluateOne(l, full, spec).feasible && M.EvaluateOne(l, free, spec).feasible
    requires !M.EvaluateOne(l, full, spec).freeNow && M.EvaluateOne(l, free, spec).freeNow
    ensures DefaultScore(spec, M.EvaluateOne(l, full, spec)) > DefaultScore(spec, M.EvaluateOne(l, free, spec))
      <==> M.EvaluateOne(l, free, spec).freeNodes >= spec.Nodes() + 2
  {
    hide M.FittingNodes, M.MatchedSubsystems;
    var a, b := M.EvaluateOne(l, full, spec), M.EvaluateOne(l, free, spec);
    assert a.matched == b.matched;
    var k := Surplus(spec, b);
    Reciprocal(k);
  }

  lemma Reciprocal(k: nat)
    ensures 1.0 > 1.0 / (1 + k) as real + 0.5 <==> k >= 2
  {
    var r := (1 + k) as real;
    assert r * (1.0 / r) == 1.0;
    if k >= 2 {
      assert r >= 3.0;
      assert 1.0 / r <= 1.0 / 3.0;
    } else if k == 1 {
      assert r == 2.0;
    }
  }
}
