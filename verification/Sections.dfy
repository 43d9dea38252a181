/** Subsystem requirement sections: `anyof` entries are alternatives, all other entries are conjuncts. */
module Sections {
  import opened Jobspec

  type Row = seq<Resource>

  /** The entries that may stand for `r` in a concrete row. */
  function Choices(r: Resource): Row {
    if r.kind == AnyOf then r.with else [r]
  }

  /** Every row extended by every choice, rows first. */
  function Cross(alts: seq<Row>, choices: Row): seq<Row> {
    if alts == [] then [] else Extensions(alts[0], choices) + Cross(alts[1..], choices)
  }

  function Extensions(base: Row, choices: Row): seq<Row> {
    if choices == [] then [] else [base + [choices[0]]] + Extensions(base, choices[1..])
  }

  function Expand(section: Row): seq<Row> {
    if section == [] then [[]]
    else Cross(Expand(section[..|section| - 1]), Choices(section[|section| - 1]))
  }

  /** Direct meaning of a section, for any notion of one entry being satisfied. */
  ghost predicate Meets(section: Row, sat: Resource -> bool) {
    forall r :: r in section ==> if r.kind == AnyOf then exists c :: c in r.with && sat(c) else sat(r)
  }

  ghost predicate AllSat(row: Row, sat: Resource -> bool) {
    forall r :: r in row ==> sat(r)
  }

  ghost predicate SomeRow(rows: seq<Row>, sat: Resource -> bool) {
    exists row :: row in rows && AllSat(row, sat)
  }

  lemma {:induction false} ExtensionMembers(base: Row, choices: Row, row: Row)
    ensures row in Extensions(base, choices) <==> exists c :: c in choices && row == base + [c]
  {
    if choices != [] {
      ExtensionMembers(base, choices[1..], row);
      assert choices == [choices[0]] + choices[1..];
    }
  }

  ghost predicate Extends(row: Row, alts: seq<Row>, choices: Row) {
    exists base, c :: base in alts && c in choices && row == base + [c]
  }

  lemma {:induction false} CrossMembers(alts: seq<Row>, choices: Row, row: Row)
    ensures row in Cross(alts, choices) <==> Extends(row, alts, choices)
  {
    if alts != [] {
      CrossMembers(alts[1..], choices, row);
      ExtensionMembers(alts[0], choices, row);
      assert alts == [alts[0]] + alts[1..];
      if Extends(row, alts[1..], choices) {
        var base, c :| base in alts[1..] && c in choices && row == base + [c];
        assert base in alts;
      }
      if exists c :: c in choices && row == alts[0] + [c] {
        assert alts[0] in alts;
      }
    }
  }

  lemma SomeRowCross(alts: seq<Row>, choices: Row, sat: Resource -> bool)
    ensures SomeRow(Cross(alts, choices), sat) <==> SomeRow(alts, sat) && exists c :: c in choices && sat(c)
  {
    if SomeRow(Cross(alts, choices), sat) {
      var row :| row in Cross(alts, choices) && AllSat(row, sat);
      CrossMembers(alts, choices, row);
      var base, c :| base in alts && c in choices && row == base + [c];
      assert c in row && forall r :: r in base ==> r in row;
      assert AllSat(base, sat);
    }
    if SomeRow(alts, sat) && exists c :: c in choices && sat(c) {
      var base :| base in alts && AllSat(base, sat);
      var c :| c in choices && sat(c);
      CrossMembers(alts, choices, base + [c]);
      assert AllSat(base + [c], sat);
    }
  }

  /** Expansion preserves meaning: some concrete row is wholly satisfied iff the section is met. */
  lemma {:induction false} ExpandMeaning(section: Row, sat: Resource -> bool)
    ensures SomeRow(Expand(section), sat) <==> Meets(section, sat)
  {
    if section == [] {
      assert AllSat([], sat) && [] in Expand(section);
    } else {
      var front, last := section[..|section| - 1], section[|section| - 1];
      ExpandMeaning(front, sat);
      SomeRowCross(Expand(front), Choices(last), sat);
      assert section == front + [last];
      if last.kind != AnyOf { assert last in Choices(last); }
    }
  }

  function Arities(section: Row): nat {
    if section == [] then 1 else Arities(section[..|section| - 1]) * |Choices(section[|section| - 1])|
  }

  lemma {:induction false} ExtensionsLength(base: Row, choices: Row)
    ensures |Extensions(base, choices)| == |choices|
  {
    if choices != [] { ExtensionsLength(base, choices[1..]); }
  }

  lemma {:induction false} CrossLength(alts: seq<Row>, choices: Row)
    ensures |Cross(alts, choices)| == |alts| * |choices|
  {
    if alts != [] {
      CrossLength(alts[1..], choices);
      ExtensionsLength(alts[0], choices);
      assert |alts| * |choices| == |choices| + (|alts| - 1) * |choices|;
    }
  }

  /** The number of rows is the product of the arities, and each row keeps one entry per section entry. */
  lemma {:induction false} ExpandShape(section: Row)
    ensures |Expand(section)| == Arities(section)
    ensures forall row :: row in Expand(section) ==> |row| == |section|
  {
    if section != [] {
      var front, last := section[..|section| - 1], section[|section| - 1];
      ExpandShape(front);
      CrossLength(Expand(front), Choices(last));
      forall row | row in Expand(section) ensures |row| == |section| {
        CrossMembers(Expand(front), Choices(last), row);
      }
    }
  }

  /** An empty `anyof` denotes no row at all, so the section can never be satisfied. */
  lemma EmptyAnyOf(section: Row, sat: Resource -> bool)
    requires exists r :: r in section && r.kind == AnyOf && r.with == []
    ensures !SomeRow(Expand(section), sat)
  {
    ExpandMeaning(section, sat);
  }

  lemma {:induction false} CrossAppend(a: seq<Row>, b: seq<Row>, choices: Row)
    ensures Cross(a + b, choices) == Cross(a, choices) + Cross(b, choices)
  {
    if a == [] {
      assert a + b == b;
    } else {
      CrossAppend(a[1..], b, choices);
      assert (a + b)[1..] == a[1..] + b;
    }
  }

  lemma {:induction false} ExtensionsSnoc(base: Row, choices: Row, c: Resource)
    ensures Extensions(base, choices + [c]) == Extensions(base, choices) + [base + [c]]
  {
    if choices != [] {
      ExtensionsSnoc(base, choices[1..], c);
      assert (choices + [c])[1..] == choices[1..] + [c];
    }
  }

  lemma CrossSnoc(alts: seq<Row>, base: Row, choices: Row)
    ensures Cross(alts + [base], choices) == Cross(alts, choices) + Extensions(base, choices)
  {
    CrossAppend(alts, [base], choices);
    assert [base][1..] == [];
  }

  method ExtendRow(rows: seq<Row>, base: Row, r: Resource) returns (next: seq<Row>)
    ensures next == rows + Extensions(base, Choices(r))
  {
    next := rows;
    if r.kind == AnyOf {
      for k := 0 to |r.with|
        invariant next == rows + Extensions(base, r.with[..k])
      {
        next := next + [base + [r.with[k]]];
        ExtensionsSnoc(base, r.with[..k], r.with[k]);
        assert r.with[..k] + [r.with[k]] == r.with[..k + 1];
      }
      assert r.with[..|r.with|] == r.with;
    } else {
      next := next + [base + [r]];
      assert [r][1..] == [];
    }
  }

  method ExtendRows(alts: seq<Row>, r: Resource) returns (next: seq<Row>)
    ensures next == Cross(alts, Choices(r))
  {
    next := [];
    for b := 0 to |alts|
      invariant next == Cross(alts[..b], Choices(r))
    {
      next := ExtendRow(next, alts[b], r);
      CrossSnoc(alts[..b], alts[b], Choices(r));
      assert alts[..b] + [alts[b]] == alts[..b + 1];
    }
    assert alts[..|alts|] == alts;
  }

  /** ExpandSection: the alternatives built entry by entry, row by row. */
  method ExpandSection(section: Row) returns (alts: seq<Row>)
    ensures alts == Expand(section)
  {
    alts := [[]];
    for i := 0 to |section|
      invariant alts == Expand(section[..i])
    {
      assert section[..i + 1][..i] == section[..i];
      alts := ExtendRows(alts, section[i]);
    }
    assert section[..|section|] == section;
  }
}
