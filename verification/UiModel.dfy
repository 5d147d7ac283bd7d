/**
 The list part of the model in ui/ui.go and ui/group.go, updated in place: filter, sort, grouping,
 selection and cursor. Each method is tied to the function of UiSort, UiGroups or UiSelection
 that says what it computes.
 */
module UiModel {
  import opened UiRows
  import opened UiSort
  import opened UiGroups
  import opened UiSelection

  predicate ContainsAt(hay: string, needle: string, i: nat) {
    i + |needle| <= |hay| && hay[i..i + |needle|] == needle
  }

  /** strings.Contains; an empty query keeps every row. */
  predicate Matches(r: Row, query: string) {
    query == "" || exists i :: 0 <= i <= |r.haystack| && ContainsAt(r.haystack, query, i)
  }

  lemma {:induction false} MatchesExactly(r: Row, query: string)
    ensures Matches(r, query) <==> exists before: string, after: string :: r.haystack == before + query + after
  {
    if query == "" {
      assert r.haystack == "" + query + r.haystack;
    }
    if i :| 0 <= i <= |r.haystack| && ContainsAt(r.haystack, query, i) {
      assert r.haystack == r.haystack[..i] + query + r.haystack[i + |query|..];
    }
    if before: string, after: string :| r.haystack == before + query + after {
      assert r.haystack[|before|..|before| + |query|] == query;
      assert ContainsAt(r.haystack, query, |before|);
    }
  }

  function Matching(query: string): Row -> bool {
    r => Matches(r, query)
  }

  lemma {:induction false} FilterSnoc(s: seq<Row>, x: Row, keep: Row -> bool)
    ensures Filter(s + [x], keep) == Filter(s, keep) + (if keep(x) then [x] else [])
    decreases |s|
  {
    if s == [] {
      assert s + [x] == [x] && [x][1..] == [];
    } else {
      assert (s + [x])[1..] == s[1..] + [x];
      FilterSnoc(s[1..], x, keep);
    }
  }

  /** The owners of the first n rows in order, and the places of the rows of each. */
  ghost predicate Collected(view: seq<Row>, n: nat, order: seq<string>, byOwner: map<string, seq<nat>>) {
    && n <= |view| && order == Owners(view, n)
    && (forall owner :: owner in byOwner <==> owner in order)
    && (forall owner | owner in byOwner :: byOwner[owner] == Indices(view, n, owner))
  }

  lemma NothingCollected(view: seq<Row>)
    ensures Collected(view, 0, [], map[])
  {
  }

  lemma {:induction false} CollectOne(view: seq<Row>, n: nat, order: seq<string>, byOwner: map<string, seq<nat>>)
    requires n < |view| && Collected(view, n, order, byOwner)
    ensures var owner := view[n].source;
            if owner in byOwner then Collected(view, n + 1, order, byOwner[owner := byOwner[owner] + [n]])
            else Collected(view, n + 1, order + [owner], byOwner[owner := [n]])
  {
    var owner := view[n].source;
    forall other ensures Indices(view, n + 1, other) == Indices(view, n, other) + (if other == owner then [n] else []) {
    }
    if owner !in byOwner { NoIndices(view, n, owner); }
    hide Indices;
  }

  lemma AllCollected(view: seq<Row>, order: seq<string>, byOwner: map<string, seq<nat>>)
    requires Collected(view, |view|, order, byOwner)
    ensures order == Owners(view, |view|)
    ensures forall owner | owner in order :: owner in byOwner && byOwner[owner] == Indices(view, |view|, owner)
  {
  }

  class Model {
    var all: seq<Row>
    var view: seq<Row>
    var items: seq<Item>
    var cursor: int
    var offset: int
    var height: int
    var selectionLost: bool
    var paneFocus: bool
    var query: string
    var column: Column
    var asc: bool
    var favs: set<string>
    var grouped: bool
    var collapsed: map<string, bool>

    function Screen(): Ui
      reads this
    {
      Ui(items, cursor, offset, height, selectionLost, paneFocus)
    }

    function Folds(): Folding
      reads this
    {
      Folding(grouped, query != "", favs, collapsed)
    }

    /** The lines are those of the view, as every handler leaves them. */
    ghost predicate Current()
      reads this
    {
      items == Items(view, Folds())
    }

    constructor (query: string, favs: set<string>, grouped: bool, height: int)
      ensures Inv(Screen()) && Current() && all == [] && view == []
    {
      all, view, items, cursor, offset := [], [], [], 0, 0;
      this.height, selectionLost, paneFocus := height, false, false;
      this.query, this.favs, this.grouped := query, favs, grouped;
      column, asc, collapsed := ByPort, true, map[];
    }

    method SortRows()
      modifies `view
      ensures view == SortView(old(view), column, asc, favs)
    {
      hide StableSort, Filter, IsFavorite;
      view := StableSort(view, Active(column, asc));
      var pinned, rest := Partition(view);
      view := pinned + rest;
    }

    /** The loop that floats pinned rows; without pins it leaves the rows as they are. */
    method Partition(rows: seq<Row>) returns (pinned: seq<Row>, rest: seq<Row>)
      ensures pinned == Filter(rows, PinnedRows(favs)) && rest == Filter(rows, UnpinnedRows(favs))
    {
      hide IsFavorite;
      pinned, rest := [], [];
      for i := 0 to |rows|
        invariant pinned == Filter(rows[..i], PinnedRows(favs)) && rest == Filter(rows[..i], UnpinnedRows(favs))
      {
        assert rows[..i + 1] == rows[..i] + [rows[i]];
        FilterSnoc(rows[..i], rows[i], PinnedRows(favs));
        FilterSnoc(rows[..i], rows[i], UnpinnedRows(favs));
        if IsFavorite(rows[i], favs) {
          pinned := pinned + [rows[i]];
        } else {
          rest := rest + [rows[i]];
        }
      }
      assert rows[..|rows|] == rows;
    }

    method BuildItems()
      modifies `items
      ensures Current()
    {
      hide Folded, Indices;
      if !grouped {
        items := Lines(view, Everywhere(|view|));
        return;
      }
      var order, byOwner := CollectOwners();
      var built: seq<Item> := [];
      for k := 0 to |order|
        invariant built == ItemsOf(view, Folds(), order[..k])
      {
        assert order[..k + 1] == order[..k] + [order[k]];
        ItemsSplit(view, Folds(), order[..k], order[k]);
        var places := byOwner[order[k]];
        var folded := GroupFolded(order[k], places);
        if folded {
          built := built + [Header(order[k], |places|, |places|)];
        } else {
          built := built + ([Header(order[k], |places|, 0)] + Lines(view, places));
        }
      }
      assert order[..|order|] == order;
      items := built;
    }

    /** Owners in first-appearance order, and the places of each owner's rows. */
    method CollectOwners() returns (order: seq<string>, byOwner: map<string, seq<nat>>)
      ensures order == Owners(view, |view|)
      ensures forall owner | owner in order :: owner in byOwner && byOwner[owner] == Indices(view, |view|, owner)
    {
      hide Collected;
      order, byOwner := [], map[];
      NothingCollected(view);
      for i := 0 to |view|
        invariant Collected(view, i, order, byOwner)
      {
        var owner := view[i].source;
        CollectOne(view, i, order, byOwner);
        if owner !in byOwner {
          order := order + [owner];
          byOwner := byOwner[owner := [i]];
        } else {
          byOwner := byOwner[owner := byOwner[owner] + [i]];
        }
      }
      AllCollected(view, order, byOwner);
    }

    method GroupFolded(owner: string, places: seq<nat>) returns (folded: bool)
      requires places == Indices(view, |view|, owner)
      ensures folded <==> Folded(view, Folds(), owner)
    {
      var rows := RowsAt(view, places);
      if query != "" {
        return false;
      }
      for i := 0 to |rows|
        invariant forall j | 0 <= j < i :: !IsFavorite(rows[j], favs)
      {
        if IsFavorite(rows[i], favs) {
          return false;
        }
      }
      if owner in collapsed {
        return collapsed[owner];
      }
      return DefaultCollapsed(rows);
    }

    /** The view is rebuilt from scratch, so sorting it never touches all. */
    method ApplyFilter()
      modifies `view, `items
      ensures view == SortView(Filter(all, Matching(query)), column, asc, favs)
      ensures Current()
    {
      hide SortView, Items;
      var out: seq<Row> := [];
      for i := 0 to |all|
        invariant out == Filter(all[..i], Matching(query))
      {
        assert all[..i + 1] == all[..i] + [all[i]];
        FilterSnoc(all[..i], all[i], Matching(query));
        if Matches(all[i], query) {
          out := out + [all[i]];
        }
      }
      assert all[..|all|] == all;
      view := out;
      SortRows();
      BuildItems();
    }

    method RestoreSelection(s: Selection)
      modifies `cursor, `selectionLost, `paneFocus
      ensures Screen() == Restore(old(Screen()), s)
    {
      match s {
        case Lost => selectionLost, paneFocus := true, false;
        case Nothing =>
        case _ =>
          var found := FindFit(items, s);
          if found.Some? {
            cursor, selectionLost := found.value, false;
          } else {
            selectionLost, paneFocus := true, false;
          }
      }
    }

    method ClampCursor()
      modifies `cursor, `offset, `paneFocus
      ensures Screen() == Clamp(old(Screen()))
    {
      if paneFocus {
        if Selected(Screen()).None? {
          paneFocus := false;
        }
      }
      if cursor < 0 {
        cursor := 0;
      }
      if cursor > |items| - 1 {
        cursor := |items| - 1;
      }
      if cursor < 0 {
        cursor := 0;
      }
      var rows := ListHeight(height);
      if cursor < offset {
        offset := cursor;
      }
      if cursor >= offset + rows {
        offset := cursor - rows + 1;
      }
      if offset < 0 {
        offset := 0;
      }
    }

    method MoveCursor(d: int)
      modifies `cursor, `offset, `paneFocus, `selectionLost
      ensures Screen() == Move(old(Screen()), d)
    {
      if |items| == 0 {
        return;
      }
      selectionLost := false;
      cursor := cursor + d;
      ClampCursor();
    }

    /** How every reordering ends: the lines are built anew and the selection is put back. */
    method SortAndReselect(selected: Selection)
      modifies `view, `items, `cursor, `offset, `selectionLost, `paneFocus
      ensures view == SortView(old(view), column, asc, favs)
      ensures Current() && Screen() == Clamp(Restore(old(Screen()).(items := items), selected))
    {
      hide SortView, Items, Clamp, Restore;
      SortRows();
      BuildItems();
      RestoreSelection(selected);
      ClampCursor();
    }

    /** A scan that is accepted: new rows, the old filter, sort and folds, the same selection. */
    method ShowRows(rows: seq<Row>)
      modifies `all, `view, `items, `cursor, `offset, `selectionLost, `paneFocus
      ensures all == rows && view == SortView(Filter(rows, Matching(query)), column, asc, favs)
      ensures Current() && Screen() == Step(old(Screen()), Refreshed(items))
    {
      hide SortView, Items, Clamp, Restore, CurrentSelection;
      var selected := CurrentSelection(Screen());
      all := rows;
      FilterAndReselect(selected);
    }

    method FilterAndReselect(selected: Selection)
      modifies `view, `items, `cursor, `offset, `selectionLost, `paneFocus
      ensures view == SortView(Filter(all, Matching(query)), column, asc, favs)
      ensures Current() && Screen() == Clamp(Restore(old(Screen()).(items := items), selected))
    {
      hide SortView, Items, Clamp, Restore;
      ApplyFilter();
      RestoreSelection(selected);
      ClampCursor();
    }

    /** A number key: the same column flips the direction, another one starts ascending. */
    method PressColumn(pressed: Column)
      modifies `column, `asc, `view, `items, `cursor, `offset, `selectionLost, `paneFocus
      ensures column == pressed && asc == (if old(column) == pressed then !old(asc) else true)
      ensures view == SortView(old(view), column, asc, favs)
      ensures Current() && Screen() == Step(old(Screen()), Refreshed(items))
    {
      hide SortView, Items, Clamp, Restore, CurrentSelection;
      if column == pressed {
        asc := !asc;
      } else {
        column, asc := pressed, true;
      }
      var selected := CurrentSelection(Screen());
      SortAndReselect(selected);
    }

    /** f on a row, selected or the menu's: its first port is pinned or unpinned and it is selected. */
    method TogglePin(r: Row)
      modifies `favs, `view, `items, `cursor, `offset, `selectionLost, `paneFocus
      ensures r.ports == [] ==> favs == old(favs) && view == old(view)
      ensures r.ports != [] ==>
        && favs == (if r.ports[0] in old(favs) then old(favs) - {r.ports[0]} else old(favs) + {r.ports[0]})
        && view == SortView(old(view), column, asc, favs)
        && Current()
      ensures Screen() == Step(old(Screen()), Pinned(r, items))
    {
      hide SortView, Items, Clamp, Restore;
      if |r.ports| == 0 {
        return;
      }
      var port := r.ports[0];
      if port !in favs {
        favs := favs + {port};
      } else {
        favs := favs - {port};
      }
      SortAndReselect(OnRow(r));
    }

    /** Fold or unfold one group: what is recorded is the opposite of how the group stood. */
    method ToggleGroup(owner: string)
      modifies `collapsed, `items, `cursor, `offset, `paneFocus
      ensures collapsed == old(collapsed)[owner := !Folded(old(view), old(Folds()), owner)]
      ensures Current() && Screen() == Step(old(Screen()), Rebuilt(items))
    {
      hide Items, Clamp;
      var folded := GroupFolded(owner, Indices(view, |view|, owner));
      collapsed := collapsed[owner := !folded];
      BuildItems();
      ClampCursor();
    }

    method FoldAll(fold: bool) returns (folds: map<string, bool>)
      ensures forall owner :: owner in folds <==> owner in Owners(view, |view|)
      ensures forall owner | owner in folds :: folds[owner] == fold
    {
      folds := map[];
      for i := 0 to |view|
        invariant forall owner :: owner in folds <==> owner in Owners(view, i)
        invariant forall owner | owner in folds :: folds[owner] == fold
      {
        folds := folds[view[i].source := fold];
      }
    }

    /** Fold or unfold every group at once. */
    method SetAllGroups(fold: bool)
      modifies `collapsed, `items, `cursor, `offset, `paneFocus
      ensures forall owner :: owner in collapsed <==> owner in Owners(view, |view|)
      ensures forall owner | owner in collapsed :: collapsed[owner] == fold
      ensures Current() && Screen() == Step(old(Screen()), Rebuilt(items))
    {
      hide Items, Clamp;
      var folds := FoldAll(fold);
      collapsed := folds;
      BuildItems();
      ClampCursor();
    }
  }

  /** Toggling a group that no filter or pin keeps open changes how it shows; toggling twice restores it. */
  lemma {:induction false} ToggleFlips(view: seq<Row>, f: Folding, owner: string)
    ensures var g := f.(collapsed := f.collapsed[owner := !Folded(view, f, owner)]);
            var rows := RowsAt(view, Indices(view, |view|, owner));
            Folded(view, g, owner) == (!ForcedOpen(f, rows) && !Folded(view, f, owner))
  {
    var g := f.(collapsed := f.collapsed[owner := !Folded(view, f, owner)]);
    var rows := RowsAt(view, Indices(view, |view|, owner));
    assert ForcedOpen(g, rows) == ForcedOpen(f, rows);
  }
}
