/**
 The list lines of ui/group.go: rows under a header per owner, with groups that may be folded.
 */
module UiGroups {
  import opened UiRows

  /** One line of the list. viewIdx is the row's place in the sorted, filtered view. */
  datatype Item =
    | Header(owner: string, count: nat, hidden: nat)
    | Line(row: Row, viewIdx: nat)

  /** What decides folding: a filter, the pinned ports, and what the user folded or unfolded. */
  datatype Folding = Folding(grouped: bool, filtering: bool, favs: set<string>, collapsed: map<string, bool>)

  // ---------- Folding ----------

  predicate DefaultCollapsed(rows: seq<Row>) {
    |rows| >= 3 && forall i | 0 <= i < |rows| :: !rows[i].actionable
  }

  /** A filter or a pinned port keeps a group open. */
  predicate ForcedOpen(f: Folding, rows: seq<Row>) {
    f.filtering || exists i :: 0 <= i < |rows| && IsFavorite(rows[i], f.favs)
  }

  predicate IsCollapsed(f: Folding, owner: string, rows: seq<Row>) {
    if ForcedOpen(f, rows) then false
    else if owner in f.collapsed then f.collapsed[owner]
    else DefaultCollapsed(rows)
  }

  // ---------- The lines ----------

  /** The places, among the first n, of the rows of an owner. */
  function Indices(view: seq<Row>, n: nat, owner: string): (s: seq<nat>)
    requires n <= |view|
    ensures forall k | 0 <= k < |s| :: s[k] < n
  {
    if n == 0 then []
    else Indices(view, n - 1, owner) + (if view[n - 1].source == owner then [n - 1] else [])
  }

  /** Owners in the order they first appear. */
  function Owners(view: seq<Row>, n: nat): seq<string>
    requires n <= |view|
  {
    if n == 0 then []
    else
      var before := Owners(view, n - 1);
      if view[n - 1].source in before then before else before + [view[n - 1].source]
  }

  function RowsAt(view: seq<Row>, places: seq<nat>): (rows: seq<Row>)
    requires forall k | 0 <= k < |places| :: places[k] < |view|
    ensures |rows| == |places| && forall k | 0 <= k < |rows| :: rows[k] == view[places[k]]
  {
    seq(|places|, k requires 0 <= k < |places| => view[places[k]])
  }

  function Lines(view: seq<Row>, places: seq<nat>): (items: seq<Item>)
    requires forall k | 0 <= k < |places| :: places[k] < |view|
    ensures |items| == |places| && forall k | 0 <= k < |items| :: items[k] == Line(view[places[k]], places[k])
  {
    seq(|places|, k requires 0 <= k < |places| => Line(view[places[k]], places[k]))
  }

  predicate Folded(view: seq<Row>, f: Folding, owner: string) {
    IsCollapsed(f, owner, RowsAt(view, Indices(view, |view|, owner)))
  }

  function GroupItems(view: seq<Row>, f: Folding, owner: string): seq<Item> {
    var places := Indices(view, |view|, owner);
    if Folded(view, f, owner) then [Header(owner, |places|, |places|)]
    else [Header(owner, |places|, 0)] + Lines(view, places)
  }

  function ItemsOf(view: seq<Row>, f: Folding, owners: seq<string>): seq<Item> {
    if owners == [] then []
    else ItemsOf(view, f, owners[..|owners| - 1]) + GroupItems(view, f, owners[|owners| - 1])
  }

  function Everywhere(n: nat): (s: seq<nat>)
    ensures |s| == n && forall k | 0 <= k < n :: s[k] == k
  {
    seq(n, k => k)
  }

  function Items(view: seq<Row>, f: Folding): seq<Item> {
    if f.grouped then ItemsOf(view, f, Owners(view, |view|)) else Lines(view, Everywhere(|view|))
  }

  lemma {:induction false} ItemsSplit(view: seq<Row>, f: Folding, front: seq<string>, last: string)
    ensures ItemsOf(view, f, front + [last]) == ItemsOf(view, f, front) + GroupItems(view, f, last)
  {
    hide GroupItems;
    assert (front + [last])[..|front|] == front;
  }

  // ---------- Counting lines ----------

  function CountLines(items: seq<Item>, i: nat): nat {
    if items == [] then 0
    else CountLines(items[..|items| - 1], i)
         + (if items[|items| - 1].Line? && items[|items| - 1].viewIdx == i then 1 else 0)
  }

  /** Lines shown, lines hidden under folded headers, and the counts the headers announce. */
  function Shown(items: seq<Item>): nat {
    if items == [] then 0 else Shown(items[..|items| - 1]) + (if items[|items| - 1].Line? then 1 else 0)
  }

  function Hidden(items: seq<Item>): nat {
    if items == [] then 0
    else Hidden(items[..|items| - 1]) + (if items[|items| - 1].Header? then items[|items| - 1].hidden else 0)
  }

  function Announced(items: seq<Item>): nat {
    if items == [] then 0
    else Announced(items[..|items| - 1]) + (if items[|items| - 1].Header? then items[|items| - 1].count else 0)
  }

  lemma {:induction false} CountsAppend(a: seq<Item>, b: seq<Item>, i: nat)
    ensures CountLines(a + b, i) == CountLines(a, i) + CountLines(b, i)
    ensures Shown(a + b) == Shown(a) + Shown(b)
    ensures Hidden(a + b) == Hidden(a) + Hidden(b)
    ensures Announced(a + b) == Announced(a) + Announced(b)
    decreases |b|
  {
    if b == [] {
      assert a + b == a;
    } else {
      var front := b[..|b| - 1];
      assert (a + b)[..|a + b| - 1] == a + front;
      CountsAppend(a, front, i);
    }
  }

  predicate Has(s: seq<nat>, i: nat) {
    exists k :: 0 <= k < |s| && s[k] == i
  }

  lemma {:induction false} HasMore(s: seq<nat>, x: nat, i: nat)
    ensures Has(s + [x], i) <==> Has(s, i) || i == x
  {
    var t := s + [x];
    if Has(s, i) {
      var k :| 0 <= k < |s| && s[k] == i;
      assert t[k] == i;
    }
    if i == x { assert t[|s|] == i; }
    if Has(t, i) && i != x {
      var k :| 0 <= k < |t| && t[k] == i;
      assert s[k] == i;
    }
  }

  predicate Increasing(s: seq<nat>) {
    forall k, l | 0 <= k < l < |s| :: s[k] < s[l]
  }

  lemma {:induction false} PlaceIs(view: seq<Row>, n: nat, owner: string, i: nat)
    requires n <= |view|
    ensures Has(Indices(view, n, owner), i) <==> i < n && view[i].source == owner
  {
    hide Has;
    if n == 0 {
      assert Indices(view, 0, owner) == [];
      NoneHas(i);
    } else {
      var s := Indices(view, n - 1, owner);
      assert Indices(view, n, owner) == if view[n - 1].source == owner then s + [n - 1] else s;
      PlaceIs(view, n - 1, owner, i);
      HasMore(Indices(view, n - 1, owner), n - 1, i);
    }
  }

  lemma NoneHas(i: nat)
    ensures !Has([], i)
  {
  }

  lemma {:induction false} IndicesIncrease(view: seq<Row>, n: nat, owner: string)
    requires n <= |view|
    ensures Increasing(Indices(view, n, owner))
  {
    if n > 0 {
      IndicesIncrease(view, n - 1, owner);
      var s := Indices(view, n - 1, owner);
      assert Indices(view, n, owner) == if view[n - 1].source == owner then s + [n - 1] else s;
    }
  }

  lemma {:induction false} IndicesAre(view: seq<Row>, n: nat, owner: string)
    requires n <= |view|
    ensures forall i: nat :: Has(Indices(view, n, owner), i) <==> i < n && view[i].source == owner
    ensures Increasing(Indices(view, n, owner))
  {
    hide Indices, Has, Increasing;
    IndicesIncrease(view, n, owner);
    forall i: nat ensures Has(Indices(view, n, owner), i) <==> i < n && view[i].source == owner {
      PlaceIs(view, n, owner, i);
    }
  }

  lemma {:induction false} CountOfLines(view: seq<Row>, places: seq<nat>, i: nat)
    requires forall k | 0 <= k < |places| :: places[k] < |view|
    requires Increasing(places)
    ensures CountLines(Lines(view, places), i) == if Has(places, i) then 1 else 0
    ensures Shown(Lines(view, places)) == |places| && Hidden(Lines(view, places)) == 0
      && Announced(Lines(view, places)) == 0
    decreases |places|
  {
    if places != [] {
      var front := places[..|places| - 1];
      CountOfLines(view, front, i);
      assert Lines(view, places)[..|places| - 1] == Lines(view, front);
      if Has(front, i) {
        var k :| 0 <= k < |front| && front[k] == i;
        assert places[k] == i;
      }
      if Has(places, i) && places[|places| - 1] != i {
        var k :| 0 <= k < |places| && places[k] == i;
        assert front[k] == i;
      }
      if places[|places| - 1] == i {
        assert !Has(front, i);
      }
    }
  }

  lemma {:induction false} CountOfGroup(view: seq<Row>, f: Folding, owner: string, i: nat)
    ensures var g := GroupItems(view, f, owner);
            var size := |Indices(view, |view|, owner)|;
            && CountLines(g, i) == (if !Folded(view, f, owner) && i < |view| && view[i].source == owner then 1 else 0)
            && Shown(g) + Hidden(g) == size && Announced(g) == size
  {
    hide Folded, Indices, Increasing, CountLines, Shown, Hidden, Announced, Has;
    var places := Indices(view, |view|, owner);
    IndicesAre(view, |view|, owner);
    CountOfLines(view, places, i);
    var hidden := if Folded(view, f, owner) then |places| else 0;
    CountOfHeader(owner, |places|, hidden, i);
    CountsAppend([Header(owner, |places|, hidden)], Lines(view, places), i);
  }

  lemma {:induction false} CountOfHeader(owner: string, count: nat, hidden: nat, i: nat)
    ensures var h := [Header(owner, count, hidden)];
            CountLines(h, i) == 0 && Shown(h) == 0 && Hidden(h) == hidden && Announced(h) == count
  {
    var h := [Header(owner, count, hidden)];
    assert h[..0] == [];
  }

  predicate Distinct(s: seq<string>) {
    forall a, b | 0 <= a < b < |s| :: s[a] != s[b]
  }

  function Sizes(view: seq<Row>, n: nat, owners: seq<string>): nat
    requires n <= |view|
  {
    if owners == [] then 0
    else Sizes(view, n, owners[..|owners| - 1]) + |Indices(view, n, owners[|owners| - 1])|
  }

  lemma EmptyCounts(i: nat)
    ensures CountLines([], i) == 0 && Shown([]) == 0 && Hidden([]) == 0 && Announced([]) == 0
  {
  }

  lemma {:induction false} CountOfItems(view: seq<Row>, f: Folding, owners: seq<string>, i: nat)
    requires Distinct(owners) && i < |view|
    ensures var items := ItemsOf(view, f, owners);
            && CountLines(items, i) == (if view[i].source in owners && !Folded(view, f, view[i].source) then 1 else 0)
            && Shown(items) + Hidden(items) == Sizes(view, |view|, owners)
            && Announced(items) == Sizes(view, |view|, owners)
    decreases |owners|
  {
    hide GroupItems, Folded, Indices, CountLines, Shown, Hidden, Announced;
    if owners == [] {
      EmptyCounts(i);
    } else {
      var front, last := owners[..|owners| - 1], owners[|owners| - 1];
      assert owners == front + [last];
      ItemsSplit(view, f, front, last);
      CountOfItems(view, f, front, i);
      CountOfGroup(view, f, last, i);
      CountsAppend(ItemsOf(view, f, front), GroupItems(view, f, last), i);
    }
  }

  lemma {:induction false} OwnersAre(view: seq<Row>, n: nat)
    requires n <= |view|
    ensures Distinct(Owners(view, n))
    ensures forall i | 0 <= i < n :: view[i].source in Owners(view, n)
  {
    if n > 0 { OwnersAre(view, n - 1); }
  }

  /** Adding one row makes exactly its owner's group one longer. */
  lemma {:induction false} SizesStep(view: seq<Row>, n: nat, owners: seq<string>)
    requires 0 < n <= |view| && Distinct(owners)
    ensures Sizes(view, n, owners) == Sizes(view, n - 1, owners) + (if view[n - 1].source in owners then 1 else 0)
    decreases |owners|
  {
    if owners != [] {
      var front, last := owners[..|owners| - 1], owners[|owners| - 1];
      SizesStep(view, n, front);
      assert owners == front + [last];
    }
  }

  lemma {:induction false} SizesOfNew(view: seq<Row>, n: nat, owners: seq<string>, owner: string)
    requires n <= |view|
    ensures Sizes(view, n, owners + [owner]) == Sizes(view, n, owners) + |Indices(view, n, owner)|
  {
    assert (owners + [owner])[..|owners|] == owners;
  }

  lemma {:induction false} SizesCoverView(view: seq<Row>, n: nat)
    requires n <= |view|
    ensures Sizes(view, n, Owners(view, n)) == n
  {
    hide Sizes, Indices;
    if n == 0 {
      NoSizes(view);
    } else {
      var before, owner := Owners(view, n - 1), view[n - 1].source;
      assert Owners(view, n) == if owner in before then before else before + [owner];
      SizesCoverView(view, n - 1);
      hide Owners, Distinct;
      OwnersAre(view, n - 1);
      OwnersAre(view, n);
      SizesStep(view, n, before);
      if owner !in before {
        SizesStep(view, n, before + [owner]);
        SizesOfNew(view, n - 1, before, owner);
        NoIndices(view, n - 1, owner);
      }
    }
  }

  lemma NoSizes(view: seq<Row>)
    ensures Sizes(view, 0, Owners(view, 0)) == 0
  {
  }

  lemma {:induction false} NoIndices(view: seq<Row>, n: nat, owner: string)
    requires n <= |view| && owner !in Owners(view, n)
    ensures Indices(view, n, owner) == []
  {
    if n > 0 {
      var before := Owners(view, n - 1);
      assert owner !in before && (view[n - 1].source in before || view[n - 1].source == Owners(view, n)[|before|]);
      NoIndices(view, n - 1, owner);
    }
  }

  /** A row is hidden exactly when its group is folded, and folding only happens while grouping. */
  predicate Visible(view: seq<Row>, f: Folding, i: nat)
    requires i < |view|
  {
    !f.grouped || !Folded(view, f, view[i].source)
  }

  /**
   No row is lost or doubled: a visible row has exactly one line, a folded one has none, and
   shown and hidden rows add up to the view, as do the counts in the headers.
   */
  lemma {:induction false} Conservation(view: seq<Row>, f: Folding, i: nat)
    requires i < |view|
    ensures var items := Items(view, f);
            && CountLines(items, i) == (if Visible(view, f, i) then 1 else 0)
            && Shown(items) + Hidden(items) == |view|
            && (f.grouped ==> Announced(items) == |view|)
  {
    hide GroupItems, Folded;
    if f.grouped {
      OwnersAre(view, |view|);
      CountOfItems(view, f, Owners(view, |view|), i);
      SizesCoverView(view, |view|);
    } else {
      var places := Everywhere(|view|);
      assert places[i] == i;
      CountOfLines(view, places, i);
    }
  }

  /** A filter match, a row of a pinned group, or an actionable row the user did not fold is visible. */
  lemma {:induction false} NeverHidden(view: seq<Row>, f: Folding, i: nat, j: nat)
    requires i < |view| && j < |view| && view[j].source == view[i].source
    requires || f.filtering
             || IsFavorite(view[j], f.favs)
             || (view[i].actionable && !(view[i].source in f.collapsed && f.collapsed[view[i].source]))
    ensures Visible(view, f, i) && CountLines(Items(view, f), i) == 1
  {
    hide Items, GroupItems, CountLines;
    Conservation(view, f, i);
    var places := Indices(view, |view|, view[i].source);
    IndicesAre(view, |view|, view[i].source);
    assert Has(places, i) && Has(places, j);
    var k :| 0 <= k < |places| && places[k] == i;
    var l :| 0 <= l < |places| && places[l] == j;
    var rows := RowsAt(view, places);
    assert rows[k] == view[i] && rows[l] == view[j];
  }

  /** The places of an owner's rows, as a set. */
  function PlacesOf(view: seq<Row>, owner: string): set<nat> {
    set i: nat | i < |view| && view[i].source == owner
  }

  function SetOf(s: seq<nat>): set<nat> {
    set i: nat | i in s
  }

  lemma {:induction false} SetOfMore(front: seq<nat>, last: nat)
    requires forall k | 0 <= k < |front| :: front[k] < last
    ensures |SetOf(front + [last])| == |SetOf(front)| + 1
  {
    var s := front + [last];
    assert s[|front|] == last && forall k | 0 <= k < |front| :: s[k] == front[k];
    forall i: nat ensures i in SetOf(s) <==> i in SetOf(front) || i == last {
      assert i in s <==> i in front || i == last;
    }
    assert last !in SetOf(front);
    assert SetOf(s) == SetOf(front) + {last};
  }

  lemma {:induction false} SizeOfIncreasing(s: seq<nat>)
    requires Increasing(s)
    ensures |SetOf(s)| == |s|
    decreases |s|
  {
    if s == [] {
      assert SetOf(s) == {};
    } else {
      hide SetOf;
      var front, last := s[..|s| - 1], s[|s| - 1];
      SizeOfIncreasing(front);
      SetOfMore(front, last);
      assert s == front + [last];
    }
  }

  lemma {:induction false} IndicesFill(view: seq<Row>, owner: string)
    ensures |Indices(view, |view|, owner)| == |PlacesOf(view, owner)|
  {
    var s := Indices(view, |view|, owner);
    IndicesAre(view, |view|, owner);
    SizeOfIncreasing(s);
    forall i: nat ensures i in s <==> i in PlacesOf(view, owner) {
      assert Has(s, i) <==> i in s;
    }
    assert SetOf(s) == PlacesOf(view, owner);
  }

  /** Every header counts the rows of its owner, and hides all of them or none. */
  lemma {:induction false} HeadersTell(view: seq<Row>, f: Folding, k: nat)
    requires k < |Items(view, f)| && Items(view, f)[k].Header?
    ensures var h := Items(view, f)[k];
            h.count == |PlacesOf(view, h.owner)| && h.hidden == (if Folded(view, f, h.owner) then h.count else 0)
  {
    if f.grouped {
      HeadersTellOf(view, f, Owners(view, |view|), k);
    }
  }

  lemma {:induction false} HeadersTellOf(view: seq<Row>, f: Folding, owners: seq<string>, k: nat)
    requires k < |ItemsOf(view, f, owners)| && ItemsOf(view, f, owners)[k].Header?
    ensures var h := ItemsOf(view, f, owners)[k];
            h.count == |PlacesOf(view, h.owner)| && h.hidden == (if Folded(view, f, h.owner) then h.count else 0)
    decreases |owners|
  {
    hide Folded, Indices, PlacesOf;
    var front, last := owners[..|owners| - 1], owners[|owners| - 1];
    if k < |ItemsOf(view, f, front)| {
      HeadersTellOf(view, f, front, k);
    } else {
      IndicesFill(view, last);
    }
  }

  /** A row of this owner has a pinned port. */
  ghost predicate OwnerPinned(view: seq<Row>, owner: string, favs: set<string>) {
    exists i, port :: 0 <= i < |view| && view[i].source == owner && port in view[i].ports && port in favs
  }

  /**
   A group is folded exactly when nothing is searched for, none of its ports is pinned, and either the
   user folded it or, if left alone, it has at least three rows and none to act on.
   */
  lemma {:induction false} FoldedExactly(view: seq<Row>, f: Folding, owner: string)
    ensures Folded(view, f, owner) <==>
      && !f.filtering && !OwnerPinned(view, owner, f.favs)
      && if owner in f.collapsed then f.collapsed[owner]
         else && |PlacesOf(view, owner)| >= 3
              && forall i | 0 <= i < |view| && view[i].source == owner :: !view[i].actionable
  {
    hide Indices, PlacesOf;
    var places := Indices(view, |view|, owner);
    var rows := RowsAt(view, places);
    IndicesAre(view, |view|, owner);
    IndicesFill(view, owner);
    forall i: nat | i < |view| && view[i].source == owner ensures view[i] in rows {
      assert Has(places, i);
      var k :| 0 <= k < |places| && places[k] == i;
      assert rows[k] == view[i];
    }
    forall k | 0 <= k < |rows|
      ensures places[k] < |view| && view[places[k]].source == owner && rows[k] == view[places[k]] {
      assert Has(places, places[k]);
    }
    PinAmong(view, rows, owner, f.favs);
    hide RowsAt, Has, Increasing, OwnerPinned, IsFavorite;
  }

  lemma {:induction false} PinAmong(view: seq<Row>, rows: seq<Row>, owner: string, favs: set<string>)
    requires forall i | 0 <= i < |view| && view[i].source == owner :: view[i] in rows
    requires forall row | row in rows :: row in view && row.source == owner
    ensures OwnerPinned(view, owner, favs) <==> exists k :: 0 <= k < |rows| && IsFavorite(rows[k], favs)
  {
    if i, port :| 0 <= i < |view| && view[i].source == owner && port in view[i].ports && port in favs {
      var k :| 0 <= k < |rows| && rows[k] == view[i];
      var n :| 0 <= n < |rows[k].ports| && rows[k].ports[n] == port;
      assert IsFavorite(rows[k], favs);
    }
    if k :| 0 <= k < |rows| && IsFavorite(rows[k], favs) {
      assert rows[k] in rows;
      var i :| 0 <= i < |view| && view[i] == rows[k];
      var n :| 0 <= n < |rows[k].ports| && rows[k].ports[n] in favs;
      assert rows[k].ports[n] in view[i].ports;
    }
  }

  // ---------- Order ----------

  /** Where an owner first appears. */
  predicate FirstAt(view: seq<Row>, owner: string, i: nat) {
    i < |view| && view[i].source == owner && forall j | 0 <= j < i :: view[j].source != owner
  }

  function HeaderOwners(items: seq<Item>): seq<string> {
    if items == [] then []
    else HeaderOwners(items[..|items| - 1]) + (if items[|items| - 1].Header? then [items[|items| - 1].owner] else [])
  }

  lemma {:induction false} HeadersAppend(a: seq<Item>, b: seq<Item>)
    ensures HeaderOwners(a + b) == HeaderOwners(a) + HeaderOwners(b)
    decreases |b|
  {
    if b == [] {
      assert a + b == a;
    } else {
      var front := b[..|b| - 1];
      assert (a + b)[..|a + b| - 1] == a + front;
      HeadersAppend(a, front);
    }
  }

  lemma {:induction false} NoHeaders(items: seq<Item>)
    requires forall k | 0 <= k < |items| :: items[k].Line?
    ensures HeaderOwners(items) == []
    decreases |items|
  {
    if items != [] { NoHeaders(items[..|items| - 1]); }
  }

  lemma {:induction false} HeadersAreOwners(view: seq<Row>, f: Folding, owners: seq<string>)
    ensures HeaderOwners(ItemsOf(view, f, owners)) == owners
    decreases |owners|
  {
    hide GroupItems, HeaderOwners;
    if owners == [] {
      NoHeaders([]);
    } else {
      var front, last := owners[..|owners| - 1], owners[|owners| - 1];
      assert owners == front + [last];
      ItemsSplit(view, f, front, last);
      HeadersAreOwners(view, f, front);
      HeaderOfGroup(view, f, last);
      HeadersAppend(ItemsOf(view, f, front), GroupItems(view, f, last));
    }
  }

  lemma {:induction false} HeaderOfGroup(view: seq<Row>, f: Folding, owner: string)
    ensures HeaderOwners(GroupItems(view, f, owner)) == [owner]
  {
    hide Folded, Indices;
    var g := GroupItems(view, f, owner);
    assert g == [g[0]] + g[1..];
    NoHeaders(g[1..]);
    HeadersAppend([g[0]], g[1..]);
    assert [g[0]][..0] == [];
    assert HeaderOwners([g[0]]) == [] + [owner];
  }

  /** One header per owner, in the order the owners first appear in the view. */
  lemma {:induction false} HeadersInFirstAppearance(view: seq<Row>, f: Folding, a: nat, b: nat, i: nat, j: nat)
    requires f.grouped
    requires var owners := HeaderOwners(Items(view, f));
             a < b < |owners| && FirstAt(view, owners[a], i) && FirstAt(view, owners[b], j)
    ensures i < j
  {
    HeadersAreOwners(view, f, Owners(view, |view|));
    FirstsIncrease(view, |view|, a, b, i, j);
  }

  /** The last owner is new: its first row is the last one, later than every other owner's. */
  lemma {:induction false} NewOwnerComesLast(view: seq<Row>, n: nat, owner: string, i: nat, j: nat)
    requires 0 < n <= |view| && owner in Owners(view, n - 1) && view[n - 1].source !in Owners(view, n - 1)
    requires FirstAt(view, owner, i) && FirstAt(view, view[n - 1].source, j)
    ensures i < j
  {
    OwnersAre(view, n - 1);
    FirstIsWithin(view, n - 1, owner, i);
    var before := Owners(view, n - 1);
    hide Owners;
    assert forall m | 0 <= m < n - 1 :: view[m].source in before;
  }

  lemma {:induction false} FirstIsWithin(view: seq<Row>, n: nat, owner: string, i: nat)
    requires n <= |view| && owner in Owners(view, n) && FirstAt(view, owner, i)
    ensures i < n
  {
    var a :| 0 <= a < |Owners(view, n)| && Owners(view, n)[a] == owner;
    OwnersAppear(view, n, a);
  }

  lemma {:induction false} FirstsIncrease(view: seq<Row>, n: nat, a: nat, b: nat, i: nat, j: nat)
    requires n <= |view| && a < b < |Owners(view, n)|
    requires FirstAt(view, Owners(view, n)[a], i) && FirstAt(view, Owners(view, n)[b], j)
    ensures i < j
    decreases n
  {
    hide FirstAt;
    var before := Owners(view, n - 1);
    if b < |before| {
      FirstsIncrease(view, n - 1, a, b, i, j);
    } else {
      NewOwnerComesLast(view, n, before[a], i, j);
    }
  }

  lemma {:induction false} OwnersAppear(view: seq<Row>, n: nat, a: nat)
    requires n <= |view| && a < |Owners(view, n)|
    ensures exists k :: 0 <= k < n && view[k].source == Owners(view, n)[a]
  {
    if n > 0 {
      if a < |Owners(view, n - 1)| {
        OwnersAppear(view, n - 1, a);
        var k :| 0 <= k < n - 1 && view[k].source == Owners(view, n - 1)[a];
        assert view[k].source == Owners(view, n)[a];
      } else {
        assert view[n - 1].source == Owners(view, n)[a];
      }
    }
  }

  function OwnerOf(item: Item): string {
    match item
    case Header(owner, _, _) => owner
    case Line(row, _) => row.source
  }

  predicate Under(previous: Item, item: Item) {
    item.Line? ==>
      OwnerOf(previous) == item.row.source && (previous.Line? ==> previous.viewIdx < item.viewIdx)
  }

  /** Under a header stand only rows of its owner, in view order: no group is split. */
  predicate Contiguous(items: seq<Item>) {
    && (items != [] ==> items[0].Header?)
    && forall k | 0 < k < |items| :: Under(items[k - 1], items[k])
  }

  lemma {:induction false} GroupIsContiguous(view: seq<Row>, f: Folding, owner: string)
    ensures Contiguous(GroupItems(view, f, owner))
  {
    var places := Indices(view, |view|, owner);
    IndicesAre(view, |view|, owner);
    forall k | 0 <= k < |places| ensures view[places[k]].source == owner {
      assert Has(places, places[k]);
    }
  }

  lemma {:induction false} ContiguousAppend(a: seq<Item>, b: seq<Item>)
    requires Contiguous(a) && Contiguous(b)
    ensures Contiguous(a + b)
  {
    var c := a + b;
    forall k | 0 < k < |c| ensures Under(c[k - 1], c[k]) {
      if k > |a| { assert Under(b[k - |a| - 1], b[k - |a|]); }
    }
  }

  lemma {:induction false} ItemsAreContiguous(view: seq<Row>, f: Folding, owners: seq<string>)
    ensures Contiguous(ItemsOf(view, f, owners))
    decreases |owners|
  {
    hide GroupItems;
    if owners != [] {
      var front, last := owners[..|owners| - 1], owners[|owners| - 1];
      ItemsAreContiguous(view, f, front);
      GroupIsContiguous(view, f, last);
      ContiguousAppend(ItemsOf(view, f, front), GroupItems(view, f, last));
    }
  }

  predicate FromView(view: seq<Row>, item: Item) {
    item.Line? ==> item.viewIdx < |view| && item.row == view[item.viewIdx]
  }

  /** Every line's row is the view's row at its index; grouped lines stand under their own header. */
  lemma {:induction false} LinesMatchView(view: seq<Row>, f: Folding)
    ensures forall k | 0 <= k < |Items(view, f)| :: FromView(view, Items(view, f)[k])
    ensures f.grouped ==> Contiguous(Items(view, f))
  {
    if f.grouped {
      MatchOfItems(view, f, Owners(view, |view|));
      ItemsAreContiguous(view, f, Owners(view, |view|));
    }
  }

  lemma {:induction false} MatchOfGroup(view: seq<Row>, f: Folding, owner: string)
    ensures forall k | 0 <= k < |GroupItems(view, f, owner)| :: FromView(view, GroupItems(view, f, owner)[k])
  {
    hide Folded, Indices;
  }

  lemma {:induction false} MatchOfItems(view: seq<Row>, f: Folding, owners: seq<string>)
    ensures forall k | 0 <= k < |ItemsOf(view, f, owners)| :: FromView(view, ItemsOf(view, f, owners)[k])
    decreases |owners|
  {
    hide GroupItems, FromView;
    if owners != [] {
      MatchOfItems(view, f, owners[..|owners| - 1]);
      MatchOfGroup(view, f, owners[|owners| - 1]);
    }
  }
}
