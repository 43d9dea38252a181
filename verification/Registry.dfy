/** The fleet's and the matcher's copies of the registered clusters. Copying a cluster record copies
    references to its maps, so the two copies may share a map, and an update through one copy may or
    may not be seen through the other. Different clusters share no map. */
module Registry {
  import opened Graphs
  import opened Jobspec
  import M = Matcher

  // ---- What the two sides show, change by change ----

  /** One cluster: its subsystems (the same on both sides), the matcher's descriptive flags, and the
      fleet's. `masked` says it registered with a subsystem map but without a flag map. */
  datatype Shown = Shown(
    subs: map<string, Graph>, flags: map<string, bool>, fleetFlags: map<string, bool>, masked: bool)

  datatype View = View(order: seq<string>, shown: map<string, Shown>)

  const NOBODY := View([], map[])

  /** The four operations of the manager. A nil map reads as an empty one. */
  datatype Change =
    | RegisterCluster(c: M.Cluster, nilSubs: bool, nilFlags: bool)
    | UnregisterCluster(id: string)
    | RegisterSubsystem(id: string, name: string, g: Graph, descriptive: bool)
    | UnregisterSubsystem(id: string, name: string)
  {
    ghost predicate Allowed() {
      && (RegisterCluster? ==> (nilSubs ==> c.subsystems == map[]) && (nilFlags ==> c.flags == map[]))
      && (RegisterSubsystem? && name == M.CONTAINMENT ==> Acyclic(g))
    }
  }

  function Attached(sh: Shown, name: string, g: Graph, descriptive: bool): Shown {
    sh.(subs := sh.subs[name := g],
        flags := sh.flags[name := descriptive],
        fleetFlags := sh.fleetFlags[name := descriptive])
  }

  function Detached(sh: Shown, name: string): Shown {
    sh.(subs := sh.subs - {name},
        flags := sh.flags - {name},
        fleetFlags := if sh.masked then sh.fleetFlags else sh.fleetFlags - {name})
  }

  predicate Detachable(sh: Shown, name: string) { name != M.CONTAINMENT && name in sh.subs }

  function Step(v: View, change: Change): View {
    match change
    case RegisterCluster(c, nilSubs, nilFlags) =>
      View(if c.id in v.order then v.order else v.order + [c.id],
           v.shown[c.id := Shown(c.subsystems, c.flags, c.flags, !nilSubs && nilFlags)])
    case UnregisterCluster(id) => View(M.Without(v.order, id), v.shown - {id})
    case RegisterSubsystem(id, name, g, descriptive) =>
      if id in v.shown then v.(shown := v.shown[id := Attached(v.shown[id], name, g, descriptive)]) else v
    case UnregisterSubsystem(id, name) =>
      if id in v.shown && Detachable(v.shown[id], name) then v.(shown := v.shown[id := Detached(v.shown[id], name)])
      else v
  }

  function After(changes: seq<Change>): View {
    if changes == [] then NOBODY else Step(After(changes[..|changes| - 1]), changes[|changes| - 1])
  }

  /** Unmasked copies carry the same flags; of a masked pair the matcher's flags are the fleet's,
      cut down to the subsystems still attached. */
  ghost predicate FlagsRelated(sh: Shown) {
    if sh.masked then
      && (forall n :: n in sh.flags <==> n in sh.fleetFlags && n in sh.subs)
      && (forall n :: n in sh.flags ==> sh.flags[n] == sh.fleetFlags[n])
    else sh.flags == sh.fleetFlags
  }

  lemma {:induction false} FlagsAlwaysRelated(changes: seq<Change>)
    requires forall ch :: ch in changes ==> ch.Allowed()
    ensures forall id :: id in After(changes).shown ==> FlagsRelated(After(changes).shown[id])
  {
    if changes != [] {
      var front, last := changes[..|changes| - 1], changes[|changes| - 1];
      assert last in changes && forall ch :: ch in front ==> ch in changes;
      FlagsAlwaysRelated(front);
      RelatedStep(After(front), last);
    }
  }

  lemma RelatedStep(v: View, change: Change)
    requires change.Allowed() && forall id :: id in v.shown ==> FlagsRelated(v.shown[id])
    ensures forall id :: id in Step(v, change).shown ==> FlagsRelated(Step(v, change).shown[id])
  {
    hide M.Without;
  }

  /** When the descriptive flags of fleet and matcher agree, after any operations on any clusters:
      always, unless the cluster registered with a subsystem map and without a flag map; then exactly
      while every name the fleet's copy has a flag for is still attached. */
  lemma FlagsAgreeIff(changes: seq<Change>, id: string)
    requires forall ch :: ch in changes ==> ch.Allowed()
    requires id in After(changes).shown
    ensures var sh := After(changes).shown[id];
      sh.fleetFlags == sh.flags <==> (sh.masked ==> sh.fleetFlags.Keys <= sh.subs.Keys)
  {
    hide After;
    FlagsAlwaysRelated(changes);
    var sh := After(changes).shown[id];
    assert FlagsRelated(sh);
    if sh.masked && sh.fleetFlags.Keys <= sh.subs.Keys {
      assert forall n :: n in sh.flags <==> n in sh.fleetFlags;
    }
  }

  // ---- The allocation ledger under the same operations ----

  ghost function LedgerStep(l: M.Ledger, change: Change): M.Ledger
    requires change.Allowed()
  {
    match change
    case RegisterCluster(c, _, _) => M.AddCluster(l, c)
    case UnregisterCluster(id) => M.RemoveCluster(l, id)
    case RegisterSubsystem(id, name, g, d) => (match M.AddSubsystem(l, id, name, g, d) case Some(m) => m case None => l)
    case UnregisterSubsystem(id, name) => (match M.RemoveSubsystem(l, id, name) case Some(m) => m case None => l)
  }

  ghost function LedgerAfter(changes: seq<Change>): M.Ledger
    requires forall ch :: ch in changes ==> ch.Allowed()
  {
    if changes == [] then M.EMPTY
    else
      assert changes[|changes| - 1] in changes;
      LedgerStep(LedgerAfter(changes[..|changes| - 1]), changes[|changes| - 1])
  }

  ghost predicate LedgerShows(l: M.Ledger, v: View) {
    && l.order == v.order && l.clusters.Keys == v.shown.Keys
    && forall id :: id in v.shown ==>
         l.clusters[id].subsystems == v.shown[id].subs && l.clusters[id].flags == v.shown[id].flags
  }

  /** The ledger's clusters, their order, subsystems and flags are what the matcher's side shows. */
  lemma {:induction false} LedgerFollows(changes: seq<Change>)
    requires forall ch :: ch in changes ==> ch.Allowed()
    ensures M.Inv(LedgerAfter(changes)) && LedgerShows(LedgerAfter(changes), After(changes))
  {
    hide M.Inv, LedgerShows, LedgerStep, Step;
    if changes == [] {
      M.EmptyInv();
      EmptyShown();
    } else {
      var front, last := changes[..|changes| - 1], changes[|changes| - 1];
      assert last in changes && forall ch :: ch in front ==> ch in changes;
      LedgerFollows(front);
      LedgerFollowsStep(LedgerAfter(front), After(front), last);
    }
  }

  lemma EmptyShown()
    ensures LedgerShows(M.EMPTY, NOBODY)
  {}

  lemma LedgerFollowsStep(l: M.Ledger, v: View, change: Change)
    requires M.Inv(l) && LedgerShows(l, v) && change.Allowed()
    ensures M.Inv(LedgerStep(l, change)) && LedgerShows(LedgerStep(l, change), Step(v, change))
  {
    hide M.Inv, M.Without, LedgerShows;
    match change
    case RegisterCluster(c, nilSubs, nilFlags) =>
      M.AddClusterInv(l, c);
      AddShows(l, v, c, nilSubs, nilFlags);
    case UnregisterCluster(id) =>
      M.RemoveClusterInv(l, id);
      RemoveShows(l, v, id);
    case RegisterSubsystem(id, name, g, d) =>
      M.AttachInv(l, id, name, g, d);
      AttachShows(l, v, id, name, g, d);
    case UnregisterSubsystem(id, name) =>
      M.DetachInv(l, id, name);
      DetachShows(l, v, id, name);
  }

  lemma AddShows(l: M.Ledger, v: View, c: M.Cluster, nilSubs: bool, nilFlags: bool)
    requires M.Inv(l) && LedgerShows(l, v)
    ensures LedgerShows(M.AddCluster(l, c), Step(v, Change.RegisterCluster(c, nilSubs, nilFlags)))
  {
    Listed(l);
    hide M.Inv, LedgerShows;
    ShownKeys(l, v);
    var l1, v1 := M.AddCluster(l, c), Step(v, Change.RegisterCluster(c, nilSubs, nilFlags));
    assert l1.order == v1.order;
    assert l1.clusters == l.clusters[c.id := c] && v1.shown == v.shown[c.id := v1.shown[c.id]];
    SameShown(l, v, l1, v1, c.id);
  }

  lemma ShownKeys(l: M.Ledger, v: View)
    requires LedgerShows(l, v)
    ensures l.order == v.order && l.clusters.Keys == v.shown.Keys
  {}

  lemma RemoveShows(l: M.Ledger, v: View, id: string)
    requires LedgerShows(l, v)
    ensures LedgerShows(M.RemoveCluster(l, id), Step(v, Change.UnregisterCluster(id)))
  {
    hide M.Without;
  }

  lemma AttachShows(l: M.Ledger, v: View, id: string, name: string, g: Graph, d: bool)
    requires LedgerShows(l, v) && (name == M.CONTAINMENT ==> Acyclic(g))
    ensures LedgerShows(LedgerStep(l, Change.RegisterSubsystem(id, name, g, d)),
        Step(v, Change.RegisterSubsystem(id, name, g, d)))
  {
    if id in v.shown {
      SameShown(l, v, M.AddSubsystem(l, id, name, g, d).value, Step(v, Change.RegisterSubsystem(id, name, g, d)), id);
    }
  }

  lemma DetachShows(l: M.Ledger, v: View, id: string, name: string)
    requires LedgerShows(l, v)
    ensures LedgerShows(LedgerStep(l, Change.UnregisterSubsystem(id, name)),
        Step(v, Change.UnregisterSubsystem(id, name)))
  {
    if id in v.shown && Detachable(v.shown[id], name) {
      SameShown(l, v, M.RemoveSubsystem(l, id, name).value, Step(v, Change.UnregisterSubsystem(id, name)), id);
    }
  }

  /** A change to one cluster leaves what is shown of the others. */
  lemma SameShown(l: M.Ledger, v: View, l1: M.Ledger, v1: View, id: string)
    requires LedgerShows(l, v) && l1.order == v1.order
    requires id in l1.clusters && id in v1.shown
    requires l1.clusters[id].subsystems == v1.shown[id].subs && l1.clusters[id].flags == v1.shown[id].flags
    requires l1.clusters == l.clusters[id := l1.clusters[id]] && v1.shown == v.shown[id := v1.shown[id]]
    ensures LedgerShows(l1, v1)
  {
    forall x | x in v1.shown
      ensures x in l1.clusters && l1.clusters[x].subsystems == v1.shown[x].subs
          && l1.clusters[x].flags == v1.shown[x].flags
    {
      if x != id { assert x in v.shown && l1.clusters[x] == l.clusters[x] && v1.shown[x] == v.shown[x]; }
    }
  }

  lemma Listed(l: M.Ledger)
    requires M.Inv(l)
    ensures forall id :: id in l.order <==> id in l.clusters
  {}

  // ---- Records and their maps in memory ----

  /** A map held by reference. */
  class Shared<V> {
    var m: map<string, V>

    constructor (m0: map<string, V>)
      ensures m == m0
    {
      m := m0;
    }
  }

  /** The two map fields of a cluster record; null is a nil map. */
  datatype Record = Record(subs: Shared?<Graph>, desc: Shared?<bool>)

  ghost function Subs(r: Record): map<string, Graph>
    reads r.subs
  {
    if r.subs == null then map[] else r.subs.m
  }

  ghost function Flags(r: Record): map<string, bool>
    reads r.desc
  {
    if r.desc == null then map[] else r.desc.m
  }

  /** The maps a record refers to. */
  ghost function Own(r: Record): set<object> {
    (if r.subs == null then {} else {r.subs as object}) + (if r.desc == null then {} else {r.desc as object})
  }

  /** AttachSubsystem on one copy: nil maps are made first, for this copy only. */
  method Attach(r: Record, name: string, g: Graph, descriptive: bool) returns (c: Record)
    modifies r.subs, r.desc
    ensures r.subs == null ==> c.subs != null && fresh(c.subs)
    ensures r.subs != null ==> c.subs == r.subs
    ensures r.desc == null ==> c.desc != null && fresh(c.desc)
    ensures r.desc != null ==> c.desc == r.desc
    ensures Subs(c) == old(Subs(r))[name := g] && Flags(c) == old(Flags(r))[name := descriptive]
  {
    c := r;
    if c.subs == null {
      var s := new Shared<Graph>(map[]);
      c := c.(subs := s);
    }
    if c.desc == null {
      var d := new Shared<bool>(map[]);
      c := c.(desc := d);
    }
    c.subs.m := c.subs.m[name := g];
    c.desc.m := c.desc.m[name := descriptive];
  }

  /** DetachSubsystem on one copy: refuses containment and absent names, touching nothing then. */
  method Detach(r: Record, name: string) returns (ok: bool)
    modifies r.subs, r.desc
    ensures ok == (name != M.CONTAINMENT && name in old(Subs(r)))
    ensures Subs(r) == if ok then old(Subs(r)) - {name} else old(Subs(r))
    ensures Flags(r) == if ok then old(Flags(r)) - {name} else old(Flags(r))
  {
    if name == M.CONTAINMENT || r.subs == null { return false; }
    if name !in r.subs.m { return false; }
    r.subs.m := r.subs.m - {name};
    if r.desc != null { r.desc.m := r.desc.m - {name}; }
    ok := true;
  }

  /** The fleet's copy `f` and the matcher's copy `m` of one cluster show `sh`. A masked pair shares its
      subsystem map and nothing else. */
  ghost predicate Pair(f: Record, m: Record, sh: Shown)
    reads f.subs, f.desc, m.subs, m.desc
  {
    && (f.subs == null <==> m.subs == null) && (f.desc == null <==> m.desc == null)
    && Subs(f) == sh.subs && Subs(m) == sh.subs && Flags(m) == sh.flags && Flags(f) == sh.fleetFlags
    && (sh.masked <==> f.subs != null && f.subs == m.subs && (f.desc == null || f.desc != m.desc))
  }

  /** The matcher's copy first, then the fleet's. */
  method AttachBoth(f: Record, m: Record, name: string, g: Graph, descriptive: bool, ghost sh: Shown)
    returns (f1: Record, m1: Record)
    requires Pair(f, m, sh)
    modifies f.subs, f.desc, m.subs, m.desc
    ensures Pair(f1, m1, Attached(sh, name, g, descriptive))
    ensures fresh(Own(f1) + Own(m1) - (Own(f) + Own(m)))
  {
    m1 := Attach(m, name, g, descriptive);
    f1 := Attach(f, name, g, descriptive);
  }

  method DetachBoth(f: Record, m: Record, name: string, ghost sh: Shown) returns (ok: bool)
    requires Pair(f, m, sh)
    modifies f.subs, f.desc, m.subs, m.desc
    ensures ok == Detachable(sh, name)
    ensures Pair(f, m, if ok then Detached(sh, name) else sh)
  {
    ok := Detach(m, name);
    if ok { var _ := Detach(f, name); }
  }

  // ---- The two registries ----

  ghost function Cells(f: Record, m: Record): set<object> { Own(f) + Own(m) }

  /** No two clusters share a map. */
  ghost predicate Apart(fleetOf: map<string, Record>, matcher: map<string, Record>, repr: set<object>) {
    && fleetOf.Keys == matcher.Keys
    && (forall id :: id in matcher ==> Cells(fleetOf[id], matcher[id]) <= repr)
    && (forall a, b :: a in matcher && b in matcher && a != b ==>
          Cells(fleetOf[a], matcher[a]) !! Cells(fleetOf[b], matcher[b]))
  }

  ghost predicate Row(fleetOf: map<string, Record>, matcher: map<string, Record>, shown: map<string, Shown>,
                      repr: set<object>, id: string)
    reads repr
  {
    && id in fleetOf && id in matcher && id in shown && Cells(fleetOf[id], matcher[id]) <= repr
    && Pair(fleetOf[id], matcher[id], shown[id])
  }

  /** Each cluster's pair of copies shows what it should. */
  ghost predicate Rows(fleetOf: map<string, Record>, matcher: map<string, Record>, shown: map<string, Shown>,
                       repr: set<object>)
    reads repr
  {
    && Apart(fleetOf, matcher, repr) && shown.Keys == matcher.Keys
    && forall id :: id in matcher ==> Row(fleetOf, matcher, shown, repr, id)
  }

  /** These maps belong to no registered cluster but, possibly, this one. */
  ghost predicate OffOthers(fleetOf: map<string, Record>, matcher: map<string, Record>, id: string,
                            cells: set<object>)
  {
    forall x :: x in matcher && x in fleetOf && x != id ==> Cells(fleetOf[x], matcher[x]) !! cells
  }

  /** Its own maps and new ones do not. */
  lemma OwnOrNew(fleetOf: map<string, Record>, matcher: map<string, Record>, repr: set<object>, id: string,
                 cells: set<object>)
    requires Apart(fleetOf, matcher, repr) && id in matcher
    requires forall o :: o in cells && o in repr ==> o in Cells(fleetOf[id], matcher[id])
    ensures OffOthers(fleetOf, matcher, id, cells)
  {
    hide Cells;
    forall x | x in matcher && x != id ensures Cells(fleetOf[x], matcher[x]) !! cells {
      assert Cells(fleetOf[x], matcher[x]) !! Cells(fleetOf[id], matcher[id]);
      forall o | o in Cells(fleetOf[x], matcher[x]) ensures o !in cells { assert o in repr; }
    }
  }

  /** One cluster's copies are now `f` and `m`, in maps that are nobody else's. */
  lemma ApartWritten(fleetOf: map<string, Record>, matcher: map<string, Record>, repr: set<object>,
                     id: string, f: Record, m: Record)
    requires Apart(fleetOf, matcher, repr)
    requires OffOthers(fleetOf, matcher, id, Cells(f, m))
    ensures Apart(fleetOf[id := f], matcher[id := m], repr + Cells(f, m))
  {
    hide Cells;
    var fleetOf1, matcher1 := fleetOf[id := f], matcher[id := m];
    forall x | x in matcher1
      ensures Cells(fleetOf1[x], matcher1[x]) <= repr + Cells(f, m)
      ensures x != id ==> x in matcher && Cells(fleetOf1[x], matcher1[x]) == Cells(fleetOf[x], matcher[x])
    {}
  }

  /** One cluster's copies were rewritten and nobody else's changed. */
  lemma RowWritten(fleetOf: map<string, Record>, matcher: map<string, Record>, shown: map<string, Shown>,
                   repr: set<object>, id: string, f: Record, m: Record, sh: Shown)
    requires Apart(fleetOf, matcher, repr) && shown.Keys == matcher.Keys
    requires forall x :: x in matcher && x != id ==> Row(fleetOf, matcher, shown, repr, x)
    requires Pair(f, m, sh)
    requires OffOthers(fleetOf, matcher, id, Cells(f, m))
    ensures Rows(fleetOf[id := f], matcher[id := m], shown[id := sh], repr + Cells(f, m))
  {
    hide Pair, Own, Apart, Cells;
    ApartWritten(fleetOf, matcher, repr, id, f, m);
    var fleetOf1, matcher1, shown1 := fleetOf[id := f], matcher[id := m], shown[id := sh];
    forall x | x in matcher1 ensures Row(fleetOf1, matcher1, shown1, repr + Cells(f, m), x) {
      if x != id { assert Row(fleetOf, matcher, shown, repr, x); }
    }
  }

  lemma RowRewritten(fleetOf: map<string, Record>, matcher: map<string, Record>, shown: map<string, Shown>,
                     repr: set<object>, id: string, sh: Shown)
    requires Apart(fleetOf, matcher, repr) && shown.Keys == matcher.Keys && id in matcher
    requires forall x :: x in matcher && x != id ==> Row(fleetOf, matcher, shown, repr, x)
    requires id in fleetOf && Cells(fleetOf[id], matcher[id]) <= repr && Pair(fleetOf[id], matcher[id], sh)
    ensures Rows(fleetOf, matcher, shown[id := sh], repr)
    ensures id in shown && (sh == shown[id] ==> Rows(fleetOf, matcher, shown, repr))
  {
    hide Pair, Cells, Apart;
    assert OffOthers(fleetOf, matcher, id, Cells(fleetOf[id], matcher[id])) by {
      OwnOrNew(fleetOf, matcher, repr, id, Cells(fleetOf[id], matcher[id]));
    }
    RowWritten(fleetOf, matcher, shown, repr, id, fleetOf[id], matcher[id], sh);
    assert fleetOf[id := fleetOf[id]] == fleetOf && matcher[id := matcher[id]] == matcher;
    assert repr + Cells(fleetOf[id], matcher[id]) == repr;
    assert sh == shown[id] ==> shown[id := sh] == shown;
  }

  lemma RowDropped(fleetOf: map<string, Record>, matcher: map<string, Record>, shown: map<string, Shown>,
                   repr: set<object>, id: string)
    requires Rows(fleetOf, matcher, shown, repr)
    ensures Rows(fleetOf - {id}, matcher - {id}, shown - {id}, repr)
  {
    hide Pair, Cells;
    forall x | x in matcher && x != id ensures Row(fleetOf - {id}, matcher - {id}, shown - {id}, repr, x) {
      assert Row(fleetOf, matcher, shown, repr, x);
    }
  }

  lemma RowKeys(fleetOf: map<string, Record>, matcher: map<string, Record>, shown: map<string, Shown>,
      repr: set<object>)
    requires Rows(fleetOf, matcher, shown, repr)
    ensures Apart(fleetOf, matcher, repr) && fleetOf.Keys == matcher.Keys == shown.Keys
    ensures forall x :: x in matcher ==> Row(fleetOf, matcher, shown, repr, x)
  {}

  lemma RowAt(fleetOf: map<string, Record>, matcher: map<string, Record>, shown: map<string, Shown>,
              repr: set<object>, id: string)
    requires Rows(fleetOf, matcher, shown, repr) && id in matcher
    ensures id in fleetOf && id in shown && Cells(fleetOf[id], matcher[id]) <= repr
    ensures Pair(fleetOf[id], matcher[id], shown[id])
    ensures forall o :: o in Own(fleetOf[id]) || o in Own(matcher[id]) ==> o in repr
  {}

  lemma OthersApart(fleetOf: map<string, Record>, matcher: map<string, Record>, repr: set<object>, id: string,
      x: string)
    requires Apart(fleetOf, matcher, repr) && id in matcher && x in matcher && x != id
    ensures Own(fleetOf[x]) + Own(matcher[x]) !! Own(fleetOf[id]) + Own(matcher[id])
  {
    assert Cells(fleetOf[x], matcher[x]) !! Cells(fleetOf[id], matcher[id]);
  }

  /** AttachBoth on the copies of one registered cluster. */
  method AttachRow(id: string, f: Record, m: Record, name: string, g: Graph, descriptive: bool,
                   ghost fleetOf: map<string, Record>, ghost matcher: map<string, Record>,
                   ghost shown: map<string, Shown>, ghost repr: set<object>)
    returns (f1: Record, m1: Record)
    requires Rows(fleetOf, matcher, shown, repr)
    requires id in matcher && id in fleetOf && f == fleetOf[id] && m == matcher[id]
    modifies f.subs, f.desc, m.subs, m.desc
    ensures id in shown
    ensures Rows(fleetOf[id := f1], matcher[id := m1], shown[id := Attached(shown[id], name, g, descriptive)],
                 repr + Cells(f1, m1))
    ensures fresh(Cells(f1, m1) - repr)
  {
    hide Pair, Attached, Apart, Rows;
    RowKeys(fleetOf, matcher, shown, repr);
    RowAt(fleetOf, matcher, shown, repr, id);
    f1, m1 := AttachBoth(f, m, name, g, descriptive, shown[id]);
    forall x | x in matcher && x != id ensures Row(fleetOf, matcher, shown, repr, x) {
      OthersApart(fleetOf, matcher, repr, id, x);
    }
    OwnOrNew(fleetOf, matcher, repr, id, Cells(f1, m1));
    RowWritten(fleetOf, matcher, shown, repr, id, f1, m1, Attached(shown[id], name, g, descriptive));
  }

  method DetachRow(id: string, f: Record, m: Record, name: string,
                   ghost fleetOf: map<string, Record>, ghost matcher: map<string, Record>,
                   ghost shown: map<string, Shown>, ghost repr: set<object>)
    returns (ok: bool)
    requires Rows(fleetOf, matcher, shown, repr)
    requires id in matcher && id in fleetOf && f == fleetOf[id] && m == matcher[id]
    modifies f.subs, f.desc, m.subs, m.desc
    ensures id in shown && ok == Detachable(shown[id], name)
    ensures Rows(fleetOf, matcher, if ok then shown[id := Detached(shown[id], name)] else shown, repr)
  {
    hide Pair, Detached, Apart, Rows;
    RowKeys(fleetOf, matcher, shown, repr);
    RowAt(fleetOf, matcher, shown, repr, id);
    ok := DetachBoth(f, m, name, shown[id]);
    forall x | x in matcher && x != id ensures Row(fleetOf, matcher, shown, repr, x) {
      OthersApart(fleetOf, matcher, repr, id, x);
    }
    RowRewritten(fleetOf, matcher, shown, repr, id, if ok then Detached(shown[id], name) else shown[id]);
  }

  datatype Entry = Entry(id: string, rec: Record)

  function Ids(es: seq<Entry>): (ids: seq<string>)
    ensures |ids| == |es| && forall i :: 0 <= i < |es| ==> ids[i] == es[i].id
  {
    seq(|es|, i requires 0 <= i < |es| => es[i].id)
  }

  /** A list of entries without repetition, and the map it amounts to. */
  ghost predicate Lists(es: seq<Entry>, recs: map<string, Record>) {
    && M.NoDuplicates(Ids(es))
    && (forall id :: id in recs <==> id in Ids(es))
    && (forall e :: e in es ==> e.id in recs && recs[e.id] == e.rec)
  }

  lemma ListSet(es: seq<Entry>, recs: map<string, Record>, i: nat, rec: Record)
    requires Lists(es, recs) && i < |es|
    ensures Lists(es[i := Entry(es[i].id, rec)], recs[es[i].id := rec])
    ensures Ids(es[i := Entry(es[i].id, rec)]) == Ids(es)
  {
    var id, after := es[i].id, es[i := Entry(es[i].id, rec)];
    assert Ids(after) == Ids(es);
    assert id in Ids(es) by { assert Ids(es)[i] == id; }
    forall e | e in after ensures e.id in recs[id := rec] && recs[id := rec][e.id] == e.rec {
      var k :| 0 <= k < |after| && after[k] == e;
      if k != i {
        assert es[k] in es && Ids(es)[k] != Ids(es)[i];
      }
    }
  }

  lemma ListAdd(es: seq<Entry>, recs: map<string, Record>, id: string, rec: Record)
    requires Lists(es, recs) && id !in Ids(es)
    ensures Lists(es + [Entry(id, rec)], recs[id := rec]) && Ids(es + [Entry(id, rec)]) == Ids(es) + [id]
  {
    var after := es + [Entry(id, rec)];
    assert Ids(after) == Ids(es) + [id];
    forall e | e in after ensures e.id in recs[id := rec] && recs[id := rec][e.id] == e.rec {
      if e in es {
        var k :| 0 <= k < |es| && es[k] == e;
        assert Ids(es)[k] in Ids(es);
      }
    }
  }

  lemma ListDrop(es: seq<Entry>, recs: map<string, Record>, i: nat)
    requires Lists(es, recs) && i < |es|
    ensures Lists(es[..i] + es[i + 1..], recs - {es[i].id})
    ensures Ids(es[..i] + es[i + 1..]) == Ids(es)[..i] + Ids(es)[i + 1..]
  {
    var after, ids := es[..i] + es[i + 1..], Ids(es);
    assert Ids(after) == ids[..i] + ids[i + 1..];
    DropMembers(ids, i);
    forall e | e in after ensures e.id in recs - {es[i].id} && recs[e.id] == e.rec {
      var k :| 0 <= k < |after| && after[k] == e;
      assert e in es && Ids(after)[k] in Ids(after);
    }
  }

  lemma DropMembers(ids: seq<string>, i: nat)
    requires M.NoDuplicates(ids) && i < |ids|
    ensures var after := ids[..i] + ids[i + 1..];
      M.NoDuplicates(after) && forall x :: x in after <==> x in ids && x != ids[i]
  {
    var after := ids[..i] + ids[i + 1..];
    forall x | x in ids && x != ids[i] ensures x in after {
      var k :| 0 <= k < |ids| && ids[k] == x;
      assert after[if k < i then k else k - 1] == x;
    }
    forall x | x in after ensures x in ids && x != ids[i] {
      var k :| 0 <= k < |after| && after[k] == x;
      assert ids[if k < i then k else k + 1] == x;
    }
  }

  lemma {:induction false} WithoutAt(order: seq<string>, id: string, i: nat)
    requires M.NoDuplicates(order) && i <= |order| && (i < |order| <==> id in order)
    requires i < |order| ==> order[i] == id
    ensures M.Without(order, id) == if i < |order| then order[..i] + order[i + 1..] else order
  {
    if order != [] && order[0] != id {
      var rest := order[1..];
      assert order == [order[0]] + rest;
      assert i < |order| ==> rest[i - 1] == id;
      WithoutAt(rest, id, i - 1);
      if i < |order| { assert order[..i] == [order[0]] + rest[..i - 1] && order[i + 1..] == rest[i..]; }
    }
  }

  /** The fleet's list of records beside the matcher's map of records and its own order. */
  class Registrar {
    var fleet: seq<Entry>
    var matcher: map<string, Record>
    var order: seq<string>
    ghost var fleetOf: map<string, Record>
    ghost var view: View
    ghost var repr: set<object>

    /** Both sides hold the same clusters in the same order, and each pair of copies shows the view. */
    ghost predicate Valid()
      reads this, repr
    {
      && this !in repr
      && Lists(fleet, fleetOf) && Ids(fleet) == order == view.order
      && Rows(fleetOf, matcher, view.shown, repr)
    }

    /** The matcher's copy of this cluster has the same subsystems, and the same flags exactly when the
        record did not come with subsystems and without flags, or no detached name kept its flag. */
    ghost predicate Agree(id: string, rec: Record)
      reads this, repr
    {
      && id in matcher && id in view.shown && Cells(rec, matcher[id]) <= repr
      && Subs(rec) == Subs(matcher[id])
      && (Flags(rec) == Flags(matcher[id]) <==> (view.shown[id].masked ==> Flags(rec).Keys <= Subs(rec).Keys))
    }

    lemma ValidAgrees(changes: seq<Change>)
      requires Valid() && view == After(changes) && forall ch :: ch in changes ==> ch.Allowed()
      ensures Ids(fleet) == order && matcher.Keys == view.shown.Keys && (forall id :: id in order <==> id in matcher)
      ensures forall i :: 0 <= i < |fleet| ==> Agree(fleet[i].id, fleet[i].rec)
    {
      hide After, Apart, Lists, Rows;
      ListsKeys(fleet, fleetOf);
      RowKeys(fleetOf, matcher, view.shown, repr);
      forall i | 0 <= i < |fleet| ensures Agree(fleet[i].id, fleet[i].rec) {
        assert fleet[i] in fleet;
        RowAt(fleetOf, matcher, view.shown, repr, fleet[i].id);
        FlagsAgreeIff(changes, fleet[i].id);
      }
    }

    constructor ()
      ensures Valid() && view == NOBODY && fresh(repr)
    {
      fleet, matcher, order, fleetOf, view, repr := [], map[], [], map[], NOBODY, {};
    }

    /** Fleet.Get by position. */
    method Find(id: string) returns (i: nat)
      requires Valid()
      ensures i <= |fleet| && (i < |fleet| <==> id in order) && (id in order <==> id in matcher)
      ensures i < |fleet| ==> fleet[i].id == id && fleet[i].rec == fleetOf[id]
    {
      hide Rows;
      RowKeys(fleetOf, matcher, view.shown, repr);
      i := 0;
      while i < |fleet|
        invariant i <= |fleet| && id !in order[..i]
      {
        if fleet[i].id == id {
          assert fleet[i] in fleet && order[i] == id;
          return;
        }
        assert order[..i + 1] == order[..i] + [order[i]];
        i := i + 1;
      }
      assert order[..i] == order;
    }

    /** RegisterCluster: both sides store the same record, whose maps no other cluster has. It may be the
        very record this cluster is registered with. */
    method RegisterCluster(c: M.Cluster, rec: Record)
      requires Valid() && OffOthers(fleetOf, matcher, c.id, Own(rec))
      requires Subs(rec) == c.subsystems && Flags(rec) == c.flags
      modifies this
      ensures Valid() && repr == old(repr) + Own(rec)
      ensures view == Step(old(view), Change.RegisterCluster(c, rec.subs == null, rec.desc == null))
    {
      hide Rows, Lists, Pair, Own, Subs, Flags;
      var i := Find(c.id);
      ghost var sh := Shown(c.subsystems, c.flags, c.flags, rec.subs != null && rec.desc == null);
      TwoCopies(rec, sh);
      NotAMap(rec, this);
      RowRegistered(fleetOf, matcher, view.shown, repr, c.id, rec, sh);
      if i < |fleet| {
        ListSet(fleet, fleetOf, i, rec);
        fleet := fleet[i := Entry(c.id, rec)];
      } else {
        ListAdd(fleet, fleetOf, c.id, rec);
        fleet := fleet + [Entry(c.id, rec)];
      }
      if c.id !in matcher { order := order + [c.id]; }
      matcher := matcher[c.id := rec];
      fleetOf := fleetOf[c.id := rec];
      repr := repr + Own(rec);
      view := Step(view, Change.RegisterCluster(c, rec.subs == null, rec.desc == null));
    }

    /** UnregisterCluster: the matcher's map and order, then the fleet's list. */
    method UnregisterCluster(id: string) returns (present: bool)
      requires Valid()
      modifies this
      ensures Valid() && view == Step(old(view), Change.UnregisterCluster(id)) && repr == old(repr)
      ensures present == (id in old(order))
    {
      hide Rows, Lists, M.Without;
      var i := Find(id);
      NoRepeats(fleet, fleetOf);
      WithoutAt(order, id, i);
      RowDropped(fleetOf, matcher, view.shown, repr, id);
      present := i < |fleet|;
      matcher := matcher - {id};
      if present {
        ListDrop(fleet, fleetOf, i);
        order := order[..i] + order[i + 1..];
        fleet := fleet[..i] + fleet[i + 1..];
      } else {
        NotListed(fleet, fleetOf, id);
      }
      fleetOf := fleetOf - {id};
      view := Step(view, Change.UnregisterCluster(id));
    }

    method RegisterSubsystem(id: string, name: string, g: Graph, descriptive: bool) returns (ok: bool)
      requires Valid()
      modifies this, repr
      ensures Valid() && view == Step(old(view), Change.RegisterSubsystem(id, name, g, descriptive))
      ensures ok == (id in old(order)) && fresh(repr - old(repr))
    {
      hide Rows, Lists, Pair, Attached, Apart, Cells;
      var i := Find(id);
      RowKeys(fleetOf, matcher, view.shown, repr);
      ok := i < |fleet|;
      if ok {
        RowAt(fleetOf, matcher, view.shown, repr, id);
        var f, m := AttachRow(id, fleet[i].rec, matcher[id], name, g, descriptive, fleetOf, matcher, view.shown, repr);
        ListSet(fleet, fleetOf, i, f);
        matcher := matcher[id := m];
        fleet := fleet[i := Entry(id, f)];
        fleetOf := fleetOf[id := f];
        repr := repr + Cells(f, m);
      }
      view := Step(view, Change.RegisterSubsystem(id, name, g, descriptive));
    }

    method UnregisterSubsystem(id: string, name: string) returns (ok: bool)
      requires Valid()
      modifies this, repr
      ensures Valid() && view == Step(old(view), Change.UnregisterSubsystem(id, name)) && repr == old(repr)
      ensures ok == (id in old(order) && Detachable(old(view).shown[id], name))
    {
      hide Rows, Lists, Pair, Detached, Apart, Cells;
      var i := Find(id);
      RowKeys(fleetOf, matcher, view.shown, repr);
      ok := false;
      if i < |fleet| {
        RowAt(fleetOf, matcher, view.shown, repr, id);
        ok := DetachRow(id, fleet[i].rec, matcher[id], name, fleetOf, matcher, view.shown, repr);
        assert ok ==> id in view.shown && Detachable(view.shown[id], name);
      }
      view := Step(view, Change.UnregisterSubsystem(id, name));
    }
  }

  lemma ListsKeys(es: seq<Entry>, recs: map<string, Record>)
    requires Lists(es, recs)
    ensures forall id :: id in recs <==> id in Ids(es)
    ensures forall e :: e in es ==> e.id in recs && recs[e.id] == e.rec
  {}

  lemma NoRepeats(es: seq<Entry>, recs: map<string, Record>)
    requires Lists(es, recs)
    ensures M.NoDuplicates(Ids(es))
  {}

  lemma NotListed(es: seq<Entry>, recs: map<string, Record>, id: string)
    requires Lists(es, recs) && id !in Ids(es)
    ensures Lists(es, recs - {id})
  {
    assert recs - {id} == recs;
  }

  lemma NotAMap(rec: Record, r: Registrar)
    ensures r !in Own(rec)
  {}

  lemma TwoCopies(rec: Record, sh: Shown)
    requires sh == Shown(Subs(rec), Flags(rec), Flags(rec), rec.subs != null && rec.desc == null)
    ensures Pair(rec, rec, sh)
  {}

  lemma RowRegistered(fleetOf: map<string, Record>, matcher: map<string, Record>, shown: map<string, Shown>,
                      repr: set<object>, id: string, rec: Record, sh: Shown)
    requires Rows(fleetOf, matcher, shown, repr) && OffOthers(fleetOf, matcher, id, Own(rec)) && Pair(rec, rec, sh)
    ensures Rows(fleetOf[id := rec], matcher[id := rec], shown[id := sh], repr + Own(rec))
  {
    hide Pair, Own, Row, Apart, OffOthers;
    assert Cells(rec, rec) == Own(rec);
    RowWritten(fleetOf, matcher, shown, repr, id, rec, rec, sh);
  }

  /** Any sequence of the four operations on any number of clusters whose maps are their own. Fleet and
      matcher end up with the same clusters in the same order, each with the same subsystems; the flags
      are as the view says, so they agree exactly under the condition of FlagsAgreeIff. */
  method Run(changes: seq<Change>) returns (r: Registrar)
    requires forall ch :: ch in changes ==> ch.Allowed()
    ensures fresh(r) && r.Valid() && r.view == After(changes) && Ids(r.fleet) == r.order
    ensures forall i :: 0 <= i < |r.fleet| ==> r.Agree(r.fleet[i].id, r.fleet[i].rec)
  {
    hide Step, Registrar.Valid;
    r := new Registrar();
    for n := 0 to |changes|
      invariant fresh(r) && fresh(r.repr) && r.Valid() && r.view == After(changes[..n])
    {
      assert changes[n] in changes && changes[..n + 1][..n] == changes[..n];
      match changes[n] {
        case RegisterCluster(c, nilSubs, nilFlags) =>
          var rec := Record(null, null);
          if !nilSubs {
            var subs := new Shared<Graph>(c.subsystems);
            rec := rec.(subs := subs);
          }
          if !nilFlags {
            var desc := new Shared<bool>(c.flags);
            rec := rec.(desc := desc);
          }
          r.RegisterCluster(c, rec);
        case UnregisterCluster(id) => var _ := r.UnregisterCluster(id);
        case RegisterSubsystem(id, name, g, d) => var _ := r.RegisterSubsystem(id, name, g, d);
        case UnregisterSubsystem(id, name) => var _ := r.UnregisterSubsystem(id, name);
      }
    }
    assert changes[..|changes|] == changes;
    r.ValidAgrees(changes);
  }

  /** The usual path to disagreement: a cluster built from its containment has no flag map when it
      registers; a subsystem registered and unregistered leaves its flag in the fleet's copy only. */
  lemma StaleFlag(c: M.Cluster, g: Graph)
    requires c.flags == map[]
    ensures var sh := After([
        Change.RegisterCluster(c, false, true),
        Change.RegisterSubsystem(c.id, "software", g, false),
        Change.UnregisterSubsystem(c.id, "software")]).shown;
      c.id in sh && sh[c.id].flags == map[] && sh[c.id].fleetFlags == map["software" := false]
  {
    var a, b := Change.RegisterCluster(c, false, true), Change.RegisterSubsystem(c.id, "software", g, false);
    var d := Change.UnregisterSubsystem(c.id, "software");
    assert [a][..0] == [] && [a, b][..1] == [a] && [a, b, d][..2] == [a, b];
    assert "software" != M.CONTAINMENT;
    assert After([a]) == Step(NOBODY, a);
    assert After([a, b]) == Step(After([a]), b);
    assert After([a, b, d]) == Step(After([a, b]), d);
  }
}
