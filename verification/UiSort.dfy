/**
 The row order of ui/ui.go: a stable sort by the active column, then a stable partition that
 floats pinned rows to the top.
 */
module UiSort {
  import opened StringOrder
  import opened Sequences
  import opened UiRows

  type Order = (Row, Row) -> bool

  // ---------- A stable sort, as sort.SliceStable promises it ----------

  ghost predicate StrictWeak(lt: Order) {
    && (forall a: Row :: !lt(a, a))
    && (forall a: Row, b: Row, c: Row :: lt(a, b) && lt(b, c) ==> lt(a, c))
    && (forall a: Row, b: Row, c: Row :: lt(a, c) ==> lt(a, b) || lt(b, c))
  }

  function Insert(x: Row, s: seq<Row>, lt: Order): seq<Row> {
    if s == [] then [x]
    else if lt(s[0], x) then [s[0]] + Insert(x, s[1..], lt)
    else [x] + s
  }

  function StableSort(s: seq<Row>, lt: Order): seq<Row> {
    if s == [] then [] else Insert(s[0], StableSort(s[1..], lt), lt)
  }

  ghost predicate Sorted(s: seq<Row>, lt: Order) {
    forall i, j | 0 <= i < j < |s| :: !lt(s[j], s[i])
  }

  function Filter(s: seq<Row>, keep: Row -> bool): seq<Row> {
    if s == [] then []
    else if keep(s[0]) then [s[0]] + Filter(s[1..], keep)
    else Filter(s[1..], keep)
  }

  lemma {:induction false} InsertMembers(x: Row, s: seq<Row>, lt: Order)
    ensures multiset(Insert(x, s, lt)) == multiset{x} + multiset(s)
    decreases |s|
  {
    if s != [] && lt(s[0], x) {
      InsertMembers(x, s[1..], lt);
      assert s == [s[0]] + s[1..];
    }
  }

  ghost predicate NoneBefore(s: seq<Row>, x: Row, lt: Order) {
    forall j | 0 <= j < |s| :: !lt(s[j], x)
  }

  lemma {:induction false} SortedCons(x: Row, s: seq<Row>, lt: Order)
    ensures Sorted([x] + s, lt) <==> NoneBefore(s, x, lt) && Sorted(s, lt)
  {
    var t := [x] + s;
    assert forall j | 0 <= j < |s| :: t[j + 1] == s[j];
    if Sorted(t, lt) {
      forall j | 0 <= j < |s| ensures !lt(s[j], x) { assert !lt(t[j + 1], t[0]); }
      forall i, j | 0 <= i < j < |s| ensures !lt(s[j], s[i]) { assert !lt(t[j + 1], t[i + 1]); }
    }
  }

  lemma {:induction false} NoneBeforeInsert(x: Row, s: seq<Row>, y: Row, lt: Order)
    requires NoneBefore(s, y, lt) && !lt(x, y)
    ensures NoneBefore(Insert(x, s, lt), y, lt)
    decreases |s|
  {
    if s != [] {
      NoneBeforeInsert(x, s[1..], y, lt);
      assert !lt(s[0], y);
    }
  }

  lemma {:induction false} InsertSorted(x: Row, s: seq<Row>, lt: Order)
    requires StrictWeak(lt) && Sorted(s, lt)
    ensures Sorted(Insert(x, s, lt), lt)
    decreases |s|
  {
    hide Sorted;
    if s == [] {
      SortedCons(x, s, lt);
      NothingSorted(lt);
      assert [x] + s == [x];
    } else {
      var a, rest := s[0], s[1..];
      Uncons(s);
      SortedCons(a, rest, lt);
      if lt(a, x) {
        assert !lt(x, a);
        InsertSorted(x, rest, lt);
        NoneBeforeInsert(x, rest, a, lt);
        SortedCons(a, Insert(x, rest, lt), lt);
      } else {
        assert forall j | 0 <= j < |rest| :: !lt(rest[j], a) && !lt(rest[j], x);
        assert NoneBefore(s, x, lt);
        SortedCons(x, s, lt);
      }
    }
  }

  lemma NothingSorted(lt: Order)
    ensures Sorted([], lt)
  {
  }

  lemma {:induction false} Permutation(s: seq<Row>, lt: Order)
    ensures multiset(StableSort(s, lt)) == multiset(s)
    decreases |s|
  {
    if s != [] {
      Permutation(s[1..], lt);
      InsertMembers(s[0], StableSort(s[1..], lt), lt);
      assert s == [s[0]] + s[1..];
    }
  }

  lemma {:induction false} InOrder(s: seq<Row>, lt: Order)
    requires StrictWeak(lt)
    ensures Sorted(StableSort(s, lt), lt)
    decreases |s|
  {
    if s != [] {
      InOrder(s[1..], lt);
      InsertSorted(s[0], StableSort(s[1..], lt), lt);
    }
  }

  /** Inserting a row touches only the rows it is kept with, and keeps its place among them. */
  lemma {:induction false} FilterInsert(x: Row, s: seq<Row>, lt: Order, keep: Row -> bool)
    requires StrictWeak(lt) && Sorted(s, lt)
    ensures Filter(Insert(x, s, lt), keep) == if keep(x) then Insert(x, Filter(s, keep), lt) else Filter(s, keep)
    decreases |s|
  {
    if s == [] {
      assert [x][1..] == [];
    } else if lt(s[0], x) {
      FilterInsert(x, s[1..], lt, keep);
      assert ([s[0]] + Insert(x, s[1..], lt))[1..] == Insert(x, s[1..], lt);
      assert ([s[0]] + Filter(s[1..], keep))[1..] == Filter(s[1..], keep);
    } else {
      assert ([x] + s)[1..] == s;
      forall j | 0 <= j < |s| ensures !lt(s[j], x) {
        assert j > 0 ==> !lt(s[j], s[0]);
      }
      FilterKeepsBound(x, s, lt, keep);
    }
  }

  lemma {:induction false} FilterKeepsBound(x: Row, s: seq<Row>, lt: Order, keep: Row -> bool)
    requires forall j | 0 <= j < |s| :: !lt(s[j], x)
    ensures Filter(s, keep) == [] || !lt(Filter(s, keep)[0], x)
    decreases |s|
  {
    if s != [] { FilterKeepsBound(x, s[1..], lt, keep); }
  }

  predicate Tied(a: Row, b: Row, lt: Order) {
    !lt(a, b) && !lt(b, a)
  }

  /** Rows that tie with each other keep the order they came in. */
  lemma {:induction false} TiesKeepOrder(s: seq<Row>, lt: Order, x: Row)
    requires StrictWeak(lt)
    ensures Filter(StableSort(s, lt), y => Tied(x, y, lt)) == Filter(s, y => Tied(x, y, lt))
    decreases |s|
  {
    if s != [] {
      var keep := y => Tied(x, y, lt);
      TiesKeepOrder(s[1..], lt, x);
      InOrder(s[1..], lt);
      FilterInsert(s[0], StableSort(s[1..], lt), lt, keep);
      if keep(s[0]) {
        FilteredAreKept(s[1..], keep);
        var t := Filter(s[1..], keep);
        assert t != [] ==> keep(t[0]) && !lt(t[0], s[0]);
      }
    }
  }

  lemma {:induction false} FilteredAreKept(s: seq<Row>, keep: Row -> bool)
    ensures forall i | 0 <= i < |Filter(s, keep)| :: keep(Filter(s, keep)[i])
    decreases |s|
  {
    if s != [] { FilteredAreKept(s[1..], keep); }
  }

  // ---------- The columns ----------

  datatype Column = ByPort | ByPid | ByWhat | ByRisk | ByOwner | ByDir | ByCpu

  predicate Less(column: Column, a: Row, b: Row) {
    match column
    case ByPid => a.l.pid < b.l.pid
    case ByWhat => StringLess(a.what, b.what)
    case ByRisk => a.risk < b.risk
    case ByOwner => StringLess(a.source, b.source)
    case ByDir => StringLess(a.dir, b.dir)
    case ByCpu => a.cpu < b.cpu
    case ByPort => a.portNumber < b.portNumber
  }

  /** The comparison the sort is given: descending swaps the two rows, so ties still keep their order. */
  predicate ActiveLess(column: Column, asc: bool, a: Row, b: Row) {
    if asc then Less(column, a, b) else Less(column, b, a)
  }

  /** Pinned rows first, then the active column in the active direction. */
  predicate CompoundLess(column: Column, asc: bool, favs: set<string>, a: Row, b: Row) {
    || (IsFavorite(a, favs) && !IsFavorite(b, favs))
    || (IsFavorite(a, favs) == IsFavorite(b, favs) && ActiveLess(column, asc, a, b))
  }

  function Active(column: Column, asc: bool): Order {
    (a: Row, b: Row) => ActiveLess(column, asc, a, b)
  }

  function Compound(column: Column, asc: bool, favs: set<string>): Order {
    (a: Row, b: Row) => CompoundLess(column, asc, favs, a, b)
  }

  function PinnedRows(favs: set<string>): Row -> bool {
    r => IsFavorite(r, favs)
  }

  function UnpinnedRows(favs: set<string>): Row -> bool {
    r => !IsFavorite(r, favs)
  }

  lemma {:induction false} LessIsStrictWeak(column: Column, a: Row, b: Row, c: Row)
    ensures !Less(column, a, a)
    ensures Less(column, a, b) && Less(column, b, c) ==> Less(column, a, c)
    ensures Less(column, a, c) ==> Less(column, a, b) || Less(column, b, c)
  {
    StringLessIrreflexive(a.what);
    StringLessIrreflexive(a.source);
    StringLessIrreflexive(a.dir);
    StringLessTransitive(a.what, b.what, c.what);
    StringLessTransitive(a.source, b.source, c.source);
    StringLessTransitive(a.dir, b.dir, c.dir);
    StringLessSplits(a.what, b.what, c.what);
    StringLessSplits(a.source, b.source, c.source);
    StringLessSplits(a.dir, b.dir, c.dir);
  }

  lemma {:induction false} ActiveIsStrictWeak(column: Column, asc: bool)
    ensures StrictWeak(Active(column, asc))
  {
    hide Less;
    forall a: Row, b: Row, c: Row
      ensures !ActiveLess(column, asc, a, a)
      ensures ActiveLess(column, asc, a, b) && ActiveLess(column, asc, b, c) ==> ActiveLess(column, asc, a, c)
      ensures ActiveLess(column, asc, a, c) ==> ActiveLess(column, asc, a, b) || ActiveLess(column, asc, b, c)
    {
      LessIsStrictWeak(column, a, b, c);
      LessIsStrictWeak(column, c, b, a);
    }
  }

  // ---------- sortView ----------

  /** The stable sort, then pinned rows before the rest. */
  function SortView(view: seq<Row>, column: Column, asc: bool, favs: set<string>): seq<Row> {
    var sorted := StableSort(view, Active(column, asc));
    Filter(sorted, PinnedRows(favs)) + Filter(sorted, UnpinnedRows(favs))
  }

  lemma {:induction false} InsertAmong(x: Row, q: seq<Row>, column: Column, asc: bool, favs: set<string>)
    requires forall i | 0 <= i < |q| :: IsFavorite(q[i], favs) == IsFavorite(x, favs)
    ensures Insert(x, q, Compound(column, asc, favs)) == Insert(x, q, Active(column, asc))
    decreases |q|
  {
    hide ActiveLess, IsFavorite;
    if q != [] { InsertAmong(x, q[1..], column, asc, favs); }
  }

  /** Inserting into pinned rows followed by the rest, by the compound order. */
  lemma {:induction false} InsertStep(x: Row, a: Row, s: seq<Row>, lt: Order)
    ensures Insert(x, [a] + s, lt) == if lt(a, x) then [a] + Insert(x, s, lt) else [x] + ([a] + s)
  {
    assert ([a] + s)[1..] == s;
  }

  lemma {:induction false} InsertCompound(
    x: Row, p: seq<Row>, q: seq<Row>, column: Column, asc: bool, favs: set<string>)
    requires forall i | 0 <= i < |p| :: IsFavorite(p[i], favs)
    requires forall i | 0 <= i < |q| :: !IsFavorite(q[i], favs)
    ensures Insert(x, p + q, Compound(column, asc, favs))
            == if IsFavorite(x, favs) then Insert(x, p, Active(column, asc)) + q
              else p + Insert(x, q, Active(column, asc))
    decreases |p|
  {
    hide ActiveLess, IsFavorite;
    if p == [] {
      assert p + q == q;
      if IsFavorite(x, favs) {
        InsertFirst(x, q, column, asc, favs);
      } else {
        hide Insert;
        InsertAmong(x, q, column, asc, favs);
        assert p + Insert(x, q, Active(column, asc)) == Insert(x, q, Active(column, asc));
      }
    } else {
      hide Insert;
      var a, rest := p[0], p[1..];
      InsertCompound(x, rest, q, column, asc, favs);
      Uncons(p);
      Regroup3([a], rest, q);
      InsertStep(x, a, rest + q, Compound(column, asc, favs));
      InsertStep(x, a, rest, Active(column, asc));
      Regroup3([x], p, q);
      Regroup3([a], rest, Insert(x, q, Active(column, asc)));
      Regroup3([a], Insert(x, rest, Active(column, asc)), q);
    }
  }

  lemma {:induction false} InsertFirst(x: Row, q: seq<Row>, column: Column, asc: bool, favs: set<string>)
    requires IsFavorite(x, favs) && forall i | 0 <= i < |q| :: !IsFavorite(q[i], favs)
    ensures Insert(x, q, Compound(column, asc, favs)) == [x] + q == Insert(x, [], Active(column, asc)) + q
  {
    hide ActiveLess, IsFavorite;
  }

  /** sortView is one stable sort by the compound order. */
  lemma {:induction false} OneStableSort(view: seq<Row>, column: Column, asc: bool, favs: set<string>)
    ensures SortView(view, column, asc, favs) == StableSort(view, Compound(column, asc, favs))
    decreases |view|
  {
    hide ActiveLess, IsFavorite, CompoundLess;
    if view != [] {
      var lt, pinned, rest := Active(column, asc), PinnedRows(favs), UnpinnedRows(favs);
      var x, s := view[0], StableSort(view[1..], lt);
      OneStableSort(view[1..], column, asc, favs);
      ActiveIsStrictWeak(column, asc);
      InOrder(view[1..], lt);
      FilterInsert(x, s, lt, pinned);
      FilterInsert(x, s, lt, rest);
      FilteredAreKept(s, pinned);
      FilteredAreKept(s, rest);
      InsertCompound(x, Filter(s, pinned), Filter(s, rest), column, asc, favs);
    }
  }

  /** The view keeps its rows: sorting and pinning only reorder. */
  lemma SortKeepsRows(view: seq<Row>, column: Column, asc: bool, favs: set<string>)
    ensures multiset(SortView(view, column, asc, favs)) == multiset(view)
  {
    OneStableSort(view, column, asc, favs);
    Permutation(view, Compound(column, asc, favs));
  }

  lemma {:induction false} CompoundIsStrictWeak(column: Column, asc: bool, favs: set<string>)
    ensures StrictWeak(Compound(column, asc, favs))
  {
    hide Less, IsFavorite;
    forall a: Row, b: Row, c: Row
      ensures !CompoundLess(column, asc, favs, a, a)
      ensures CompoundLess(column, asc, favs, a, b) && CompoundLess(column, asc, favs, b, c)
        ==> CompoundLess(column, asc, favs, a, c)
      ensures CompoundLess(column, asc, favs, a, c)
        ==> CompoundLess(column, asc, favs, a, b) || CompoundLess(column, asc, favs, b, c)
    {
      LessIsStrictWeak(column, a, b, c);
      LessIsStrictWeak(column, c, b, a);
    }
  }

  /** The sorted view is in compound order, and tied rows stand as they stood before, in both directions. */
  lemma {:induction false} ViewInOrder(view: seq<Row>, column: Column, asc: bool, favs: set<string>, x: Row)
    ensures var order := Compound(column, asc, favs);
            var v := SortView(view, column, asc, favs);
            && Sorted(v, order)
            && Filter(v, y => Tied(x, y, order)) == Filter(view, y => Tied(x, y, order))
  {
    CompoundIsStrictWeak(column, asc, favs);
    OneStableSort(view, column, asc, favs);
    InOrder(view, Compound(column, asc, favs));
    TiesKeepOrder(view, Compound(column, asc, favs), x);
  }

  /** What each column shows in ascending order. */
  ghost predicate NotAfter(column: Column, a: Row, b: Row) {
    match column
    case ByPid => a.l.pid <= b.l.pid
    case ByWhat => a.what == b.what || Precedes(a.what, b.what)
    case ByRisk => a.risk <= b.risk
    case ByOwner => a.source == b.source || Precedes(a.source, b.source)
    case ByDir => a.dir == b.dir || Precedes(a.dir, b.dir)
    case ByCpu => a.cpu <= b.cpu
    case ByPort => a.portNumber <= b.portNumber
  }

  lemma {:induction false} NotLess(column: Column, a: Row, b: Row)
    ensures !Less(column, b, a) <==> NotAfter(column, a, b)
  {
    hide StringLess, Precedes;
    DictionaryOrder(a.what, b.what);
    DictionaryOrder(a.source, b.source);
    DictionaryOrder(a.dir, b.dir);
  }

  lemma {:induction false} DictionaryOrder(a: string, b: string)
    ensures !StringLess(b, a) <==> a == b || Precedes(a, b)
  {
    hide StringLess;
    StringLessExactly(a, b);
    StringLessTotal(a, b);
    StringLessIrreflexive(a);
    StringLessTransitive(a, b, a);
  }

  ghost predicate HasPinnedPort(r: Row, favs: set<string>) {
    exists port :: port in r.ports && port in favs
  }

  lemma {:induction false} FavoriteExactly(r: Row, favs: set<string>)
    ensures IsFavorite(r, favs) <==> HasPinnedPort(r, favs)
  {
    if port :| port in r.ports && port in favs {
      var i :| 0 <= i < |r.ports| && r.ports[i] == port;
    }
  }

  /**
   What is seen in the view: rows with a pinned port stand above all others, and within each of the
   two parts the active column goes up, or goes down when the direction is descending.
   */
  lemma {:induction false} ColumnsInOrder(
    view: seq<Row>, column: Column, asc: bool, favs: set<string>, i: nat, j: nat)
    requires i < j < |SortView(view, column, asc, favs)|
    ensures var v := SortView(view, column, asc, favs);
            && (HasPinnedPort(v[j], favs) ==> HasPinnedPort(v[i], favs))
            && (HasPinnedPort(v[j], favs) == HasPinnedPort(v[i], favs) ==>
                  if asc then NotAfter(column, v[i], v[j]) else NotAfter(column, v[j], v[i]))
  {
    hide SortView, Less, NotAfter, IsFavorite, HasPinnedPort;
    var v := SortView(view, column, asc, favs);
    ViewInOrder(view, column, asc, favs, v[i]);
    FavoriteExactly(v[i], favs);
    FavoriteExactly(v[j], favs);
    NotLess(column, v[i], v[j]);
    NotLess(column, v[j], v[i]);
    assert !CompoundLess(column, asc, favs, v[j], v[i]);
  }
}
