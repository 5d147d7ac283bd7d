/**
 Cursor, scrolling and selection in ui/ui.go: the selected row follows a process, never a place.
 */
module UiSelection {
  import opened Wrappers
  import opened UiRows
  import opened UiGroups

  /** The fields that decide what is selected. */
  datatype Ui = Ui(items: seq<Item>, cursor: int, offset: int, height: int, lost: bool, pane: bool)

  // ---------- Process identity ----------

  predicate SameProcess(a: Listener, b: Listener) {
    if a.pid != b.pid then false
    else if a.startTime != "" || b.startTime != "" then a.startTime != "" && a.startTime == b.startTime
    else a.hasCommandLine && b.hasCommandLine && a.commandLine == b.commandLine
  }

  /** Symmetric and transitive; reflexive exactly for listeners with an identity to compare. */
  lemma {:induction false} SameProcessIsPartialEquivalence(a: Listener, b: Listener, c: Listener)
    ensures SameProcess(a, b) <==> SameProcess(b, a)
    ensures SameProcess(a, b) && SameProcess(b, c) ==> SameProcess(a, c)
    ensures SameProcess(a, a) <==> a.startTime != "" || a.hasCommandLine
  {
  }

  /** What the fields must say: the same PID and start time, and without one the same full command line. */
  predicate SameIdentity(a: Listener, b: Listener) {
    && a.pid == b.pid && a.startTime == b.startTime
    && (a.startTime != "" || (a.hasCommandLine && b.hasCommandLine && a.commandLine == b.commandLine))
  }

  lemma {:induction false} SameProcessExactly(a: Listener, b: Listener)
    ensures SameProcess(a, b) <==> SameIdentity(a, b)
  {
  }

  // ---------- Selection ----------

  function Selected(u: Ui): Option<Row> {
    if !u.lost && 0 <= u.cursor < |u.items| && u.items[u.cursor].Line? then Some(u.items[u.cursor].row) else None
  }

  function SelectedGroup(u: Ui): Option<string> {
    if !u.lost && 0 <= u.cursor < |u.items| && u.items[u.cursor].Header? then Some(u.items[u.cursor].owner) else None
  }

  datatype Selection = Lost | OnRow(row: Row) | OnGroup(owner: string) | Nothing

  function CurrentSelection(u: Ui): Selection {
    if u.lost then Lost
    else if Selected(u).Some? then OnRow(Selected(u).value)
    else if SelectedGroup(u).Some? then OnGroup(SelectedGroup(u).value)
    else Nothing
  }

  predicate Fits(sel: Selection, item: Item) {
    match sel
    case OnRow(row) => item.Line? && SameProcess(row.l, item.row.l)
    case OnGroup(owner) => item.Header? && item.owner == owner
    case _ => false
  }

  function FindFit(items: seq<Item>, sel: Selection): (r: Option<nat>)
    ensures r.Some? ==> r.value < |items| && Fits(sel, items[r.value])
    ensures r.Some? ==> forall k | 0 <= k < r.value :: !Fits(sel, items[k])
    ensures r.None? ==> forall k | 0 <= k < |items| :: !Fits(sel, items[k])
  {
    if items == [] then None
    else if Fits(sel, items[0]) then Some(0)
    else match FindFit(items[1..], sel)
      case None => None
      case Some(n) => Some(n + 1)
  }

  function Restore(u: Ui, sel: Selection): Ui {
    match sel
    case Lost => u.(lost := true, pane := false)
    case Nothing => u
    case _ =>
      match FindFit(u.items, sel)
      case Some(i) => u.(cursor := i, lost := false)
      case None => u.(lost := true, pane := false)
  }

  // ---------- Cursor ----------

  function ListHeight(height: int): int {
    if height - 16 < 3 then 3 else height - 16
  }

  /** Later statements of clamp see the cursor the earlier ones left. */
  function Clamp(u: Ui): Ui {
    var pane := u.pane && Selected(u).Some?;
    var last := |u.items| - 1;
    var cursor := if u.cursor > last then (if last < 0 then 0 else last) else if u.cursor < 0 then 0 else u.cursor;
    var rows := ListHeight(u.height);
    var up := if cursor < u.offset then cursor else u.offset;
    var down := if cursor >= up + rows then cursor - rows + 1 else up;
    u.(pane := pane, cursor := cursor, offset := if down < 0 then 0 else down)
  }

  function Move(u: Ui, d: int): Ui {
    if u.items == [] then u else Clamp(u.(lost := false, cursor := u.cursor + d))
  }

  // ---------- Events ----------

  /**
   Rebuilt: filter typing, grouping, folding. Refreshed: a scan or a change of sort. Pinned: f on
   the selected row, or on the row an open action menu was opened for, which may be another. The
   lines they lead to are arbitrary here.
   */
  datatype Event =
    | Rebuilt(items: seq<Item>)
    | Refreshed(items: seq<Item>)
    | Pinned(row: Row, items: seq<Item>)
    | Moved(d: int)
    | Home
    | End
    | Clicked(y: int)
    | Tab
    | Enter
    | Escape
    | Resized(height: int)

  function EnterPane(u: Ui): Ui {
    if Selected(u).Some? then u.(pane := true) else u
  }

  function Step(u: Ui, e: Event): Ui {
    match e
    case Rebuilt(items) => Clamp(u.(items := items))
    case Refreshed(items) => Clamp(Restore(u.(items := items), CurrentSelection(u)))
    case Pinned(row, items) =>
      if row.ports == [] then u else Clamp(Restore(u.(items := items), OnRow(row)))
    case Moved(d) => Move(u, d)
    case Home => Clamp(u.(cursor := 0, lost := false))
    case End => Clamp(u.(cursor := |u.items| - 1, lost := false))
    case Clicked(y) =>
      var idx := u.offset + (y - 2);
      if y >= 2 && idx >= u.offset && idx < u.offset + ListHeight(u.height) && idx < |u.items|
      then Clamp(u.(cursor := idx, lost := false)) else u
    case Tab => if u.pane then u.(pane := false) else EnterPane(u)
    case Enter => if SelectedGroup(u).Some? then u else EnterPane(u)
    case Escape => u.(pane := false)
    case Resized(height) => u.(height := height)
  }

  function Run(u: Ui, events: seq<Event>): Ui
    decreases |events|
  {
    if events == [] then u else Run(Step(u, events[0]), events[1..])
  }

  /** What the renderer relies on. */
  predicate Inv(u: Ui) {
    && 0 <= u.offset <= u.cursor
    && (if u.items == [] then u.cursor == 0 else u.cursor < |u.items|)
    && (u.pane ==> Selected(u).Some?)
  }

  lemma {:induction false} ClampRestoresInv(u: Ui)
    ensures Inv(Clamp(u))
    ensures 0 <= u.cursor < |u.items| ==> Clamp(u).cursor == u.cursor
    ensures Clamp(u).offset <= Clamp(u).cursor < Clamp(u).offset + ListHeight(u.height)
    ensures var rows, c := if u.height < 19 then 3 else u.height - 16, Clamp(u).cursor;
            u.offset >= 0 ==>
              Clamp(u).offset == if c < u.offset then c else if c >= u.offset + rows then c - rows + 1 else u.offset
  {
  }

  lemma {:induction false} StepKeepsInv(u: Ui, e: Event)
    requires Inv(u)
    ensures Inv(Step(u, e))
  {
    hide Clamp, Restore;
    forall u': Ui ensures Inv(Clamp(u')) {
      ClampRestoresInv(u');
    }
  }

  /** Every run keeps the cursor on a line, the window at or above it, and pane focus on a row. */
  lemma {:induction false} RunKeepsInv(u: Ui, events: seq<Event>)
    requires Inv(u)
    ensures Inv(Run(u, events))
    decreases |events|
  {
    hide Step;
    if events != [] {
      StepKeepsInv(u, events[0]);
      RunKeepsInv(Step(u, events[0]), events[1..]);
    }
  }

  // ---------- The selection follows the user's choice ----------

  /** The selection is lost, or it is the chosen row or one whose listener has the same identity. */
  predicate Follows(choice: Row, u: Ui) {
    || u.lost
    || (Selected(u).Some? && (Selected(u).value == choice || SameIdentity(choice.l, Selected(u).value.l)))
  }

  /** An event that is not the user choosing another row: a pin counts only on the selected one. */
  predicate Automatic(u: Ui, e: Event) {
    match e
    case Refreshed(_) => true
    case Pinned(row, _) => Selected(u) == Some(row)
    case Resized(_) => true
    case Tab => true
    case Escape => true
    case _ => false
  }

  predicate AutomaticRun(u: Ui, events: seq<Event>)
    decreases |events|
  {
    events == [] || (Automatic(u, events[0]) && AutomaticRun(Step(u, events[0]), events[1..]))
  }

  lemma {:induction false} FollowsStep(choice: Row, u: Ui, e: Event)
    requires Inv(u) && Follows(choice, u) && Automatic(u, e)
    ensures Follows(choice, Step(u, e))
    ensures u.lost ==> Step(u, e).lost
  {
    hide FindFit, SameProcess;
    forall a: Listener, b: Listener ensures SameProcess(a, b) <==> SameIdentity(a, b) {
      SameProcessExactly(a, b);
    }
  }

  /**
   Over any run of refreshes, sorts and pins of the selected row the selected listener stays the
   process the user chose, or the selection is lost and stays lost.
   */
  lemma {:induction false} SelectionFollowsChoice(choice: Row, u: Ui, events: seq<Event>)
    requires Inv(u) && Follows(choice, u) && AutomaticRun(u, events)
    ensures Follows(choice, Run(u, events))
    ensures u.lost ==> Run(u, events).lost && Selected(Run(u, events)).None?
    decreases |events|
  {
    hide Step, Follows, Inv, Automatic;
    if events != [] {
      FollowsStep(choice, u, events[0]);
      StepKeepsInv(u, events[0]);
      SelectionFollowsChoice(choice, Step(u, events[0]), events[1..]);
    }
  }

  /** Pinning any row that has a port, the menu's row too, makes that row's process the choice. */
  lemma {:induction false} PinChooses(u: Ui, row: Row, items: seq<Item>)
    requires Inv(u) && row.ports != []
    ensures Follows(row, Step(u, Pinned(row, items)))
    ensures Step(u, Pinned(row, items)).lost
      <==> forall k | 0 <= k < |items| && items[k].Line? :: !SameIdentity(row.l, items[k].row.l)
  {
    hide SameProcess;
    forall a: Listener, b: Listener ensures SameProcess(a, b) <==> SameIdentity(a, b) {
      SameProcessExactly(a, b);
    }
  }

  /** A refresh loses the selected row only when no line of the same process is left. */
  lemma {:induction false} LostOnlyWhenGone(u: Ui, items: seq<Item>)
    requires Inv(u) && Selected(u).Some?
    ensures Step(u, Refreshed(items)).lost
       <==> forall k | 0 <= k < |items| && items[k].Line? :: !SameIdentity(Selected(u).value.l, items[k].row.l)
  {
    hide SameProcess;
    forall a: Listener, b: Listener ensures SameProcess(a, b) <==> SameIdentity(a, b) {
      SameProcessExactly(a, b);
    }
  }

  /** A selected group header stays selected over a refresh, unless no line heads that group any more. */
  lemma {:induction false} GroupStays(u: Ui, items: seq<Item>)
    requires Inv(u) && SelectedGroup(u).Some?
    ensures var owner, after := SelectedGroup(u).value, Step(u, Refreshed(items));
            var headed := exists k :: 0 <= k < |items| && items[k].Header? && items[k].owner == owner;
            && (headed ==> SelectedGroup(after) == Some(owner))
            && (!headed ==> after.lost && Selected(after).None? && SelectedGroup(after).None?)
  {
    hide SameProcess;
  }

  /** Where the keys and the mouse lead: to a line, which is selected, and within the list. */
  lemma {:induction false} NavigationLands(u: Ui, e: Event)
    requires Inv(u) && u.items != []
    ensures var last, after := |u.items| - 1, Step(u, e);
            && (e.Moved? ==>
                  var c := u.cursor + e.d;
                  !after.lost && after.cursor == if c < 0 then 0 else if c > last then last else c)
            && (e.Home? ==> !after.lost && after.cursor == 0)
            && (e.End? ==> !after.lost && after.cursor == last)
            && (e.Clicked? ==>
                  var line, rows := u.offset + e.y - 2, if u.height < 19 then 3 else u.height - 16;
                  if u.offset <= line < u.offset + rows && line <= last then !after.lost && after.cursor == line
                  else after == u)
  {
    hide Clamp, Restore;
    match e {
      case Moved(d) => ClampLands(u.(lost := false, cursor := u.cursor + d));
      case Home => ClampLands(u.(cursor := 0, lost := false));
      case End => ClampLands(u.(cursor := |u.items| - 1, lost := false));
      case Clicked(y) => ClampLands(u.(cursor := u.offset + (y - 2), lost := false));
      case _ =>
    }
  }

  lemma {:induction false} ClampLands(u: Ui)
    ensures Clamp(u).lost == u.lost
    ensures Clamp(u).cursor ==
      if u.cursor >= |u.items| then (if u.items == [] then 0 else |u.items| - 1) else if u.cursor < 0 then 0
        else u.cursor
  {
  }
}
