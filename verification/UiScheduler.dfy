/**
 The scan scheduler of ui/ui.go: one scan command at a time, requests meanwhile collapse into one
 successor, and a pause freezes the rows.
 */
module UiScheduler {
  import opened Wrappers

  /** The model's fields that scheduling touches; rows stand for m.all. */
  datatype State = State(
    paused: bool,
    inFlight: bool,
    nextId: nat,
    activeId: nat,
    apply: bool,
    manual: bool,
    pending: bool,
    pendingManual: bool,
    loading: bool,
    rows: seq<int>,
    lastScan: int)

  const INITIAL := State(false, false, 0, 0, false, false, false, false, true, [], 0)

  // ---------- What each handler does ----------

  /** requestScan: the state and the command it starts, if any. */
  function Request(s: State, manual: bool): (State, Option<nat>) {
    if s.paused && !manual then (s, None)
    else if s.inFlight then (s.(pending := true, pendingManual := s.pendingManual || manual), None)
    else
      var id := s.nextId + 1;
      (s.(nextId := id, activeId := id, inFlight := true, apply := true, manual := manual, loading := true), Some(id))
  }

  predicate Accepts(s: State, at: int) {
    s.apply && (!s.paused || s.manual) && at >= s.lastScan
  }

  /** The scannedMsg case; result is None when the scan failed. */
  function Scanned(s: State, id: nat, at: int, result: Option<seq<int>>): (State, Option<nat>) {
    if !s.inFlight || id != s.activeId then (s, None)
    else if s.pending then Request(Settled(s, at, result), s.pendingManual)
    else (Settled(s, at, result), None)
  }

  /** The slot is free again, the rows are taken over if they count, and no request waits. */
  function Settled(s: State, at: int, result: Option<seq<int>>): State {
    var freed := s.(inFlight := false, loading := false, pending := false, pendingManual := false);
    if Accepts(s, at) && result.Some? then freed.(rows := result.value, lastScan := at) else freed
  }

  function TogglePause(s: State): (State, Option<nat>) {
    if s.paused then Request(s.(paused := false), false)
    else (s.(paused := true, apply := false, pending := false, pendingManual := false, loading := false), None)
  }

  // ---------- The object ----------

  class Scheduler {
    var paused: bool
    var scanInFlight: bool
    var nextScanId: nat
    var activeScanId: nat
    var applyActiveScan: bool
    var activeManual: bool
    var pendingScan: bool
    var pendingManual: bool
    var loading: bool
    var all: seq<int>
    var lastScan: int

    function Now(): State
      reads this
    {
      State(paused, scanInFlight, nextScanId, activeScanId, applyActiveScan, activeManual,
            pendingScan, pendingManual, loading, all, lastScan)
    }

    constructor ()
      ensures Now() == INITIAL
    {
      paused, scanInFlight, nextScanId, activeScanId := false, false, 0, 0;
      applyActiveScan, activeManual, pendingScan, pendingManual := false, false, false, false;
      loading, all, lastScan := true, [], 0;
    }

    method RequestScan(manual: bool) returns (command: Option<nat>)
      modifies this
      ensures (Now(), command) == Request(old(Now()), manual)
    {
      if paused && !manual {
        return None;
      }
      if scanInFlight {
        pendingScan := true;
        pendingManual := pendingManual || manual;
        return None;
      }
      nextScanId := nextScanId + 1;
      activeScanId, scanInFlight := nextScanId, true;
      applyActiveScan, activeManual, loading := true, manual, true;
      return Some(activeScanId);
    }

    method OnScanned(id: nat, at: int, result: Option<seq<int>>) returns (command: Option<nat>)
      modifies this
      ensures (Now(), command) == Scanned(old(Now()), id, at, result)
    {
      hide Request, Settled;
      if !scanInFlight || id != activeScanId {
        return None;
      }
      var pending, manual := pendingScan, pendingManual;
      Settle(at, result);
      if pending {
        command := RequestScan(manual);
        return;
      }
      return None;
    }

    method Settle(at: int, result: Option<seq<int>>)
      modifies this
      ensures Now() == Settled(old(Now()), at, result)
    {
      scanInFlight, loading := false, false;
      if applyActiveScan && (!paused || activeManual) && !(at < lastScan) {
        if result.Some? {
          all, lastScan := result.value, at;
        }
      }
      pendingScan, pendingManual := false, false;
    }

    method OnPauseKey() returns (command: Option<nat>)
      modifies this
      ensures (Now(), command) == TogglePause(old(Now()))
    {
      paused := !paused;
      if paused {
        applyActiveScan := false;
        pendingScan, pendingManual, loading := false, false, false;
        return None;
      }
      command := RequestScan(false);
    }
  }

  // ---------- Runs ----------

  datatype Event =
    | Tick
    | Refresh
    | Pause
    | Message(id: nat, at: int, result: Option<seq<int>>)

  /** The state and the scan commands that have started and not yet answered. */
  datatype World = World(s: State, outstanding: set<nat>)

  function After(outstanding: set<nat>, outcome: (State, Option<nat>)): World {
    World(outcome.0, if outcome.1.Some? then outstanding + {outcome.1.value} else outstanding)
  }

  /** Ticks, stop results and the first request are all non-manual requests. */
  function Step(w: World, e: Event): World {
    match e
    case Tick => After(w.outstanding, Request(w.s, false))
    case Refresh => After(w.outstanding, Request(w.s, true))
    case Pause => After(w.outstanding, TogglePause(w.s))
    case Message(id, at, result) => After(w.outstanding - {id}, Scanned(w.s, id, at, result))
  }

  function Run(events: seq<Event>): World
    decreases |events|
  {
    if events == [] then World(INITIAL, {})
    else Step(Run(events[..|events| - 1]), events[|events| - 1])
  }

  predicate Inv(w: World) {
    && w.outstanding == (if w.s.inFlight then {w.s.activeId} else {})
    && (w.s.pending ==> w.s.inFlight)
    && (w.s.pendingManual ==> w.s.pending)
    && w.s.activeId <= w.s.nextId
    && (w.s.paused && w.s.pending ==> w.s.pendingManual)
    && (w.s.paused && w.s.inFlight && w.s.apply ==> w.s.manual)
  }

  lemma {:induction false} RequestKeepsInv(w: World, manual: bool)
    requires Inv(w)
    ensures Inv(After(w.outstanding, Request(w.s, manual)))
  {
  }

  lemma {:induction false} SettledKeepsInv(w: World, at: int, result: Option<seq<int>>)
    requires Inv(w) && w.s.inFlight
    ensures Inv(World(Settled(w.s, at, result), w.outstanding - {w.s.activeId}))
  {
  }

  lemma {:induction false} StepKeepsInv(w: World, e: Event)
    requires Inv(w)
    ensures Inv(Step(w, e))
  {
    match e {
      case Tick =>
        hide Inv;
        RequestKeepsInv(w, false);
      case Refresh =>
        hide Inv;
        RequestKeepsInv(w, true);
      case Pause =>
        if w.s.paused {
          RequestKeepsInv(w.(s := w.s.(paused := false)), false);
        }
      case Message(id, at, result) =>
        hide Request, Settled;
        if w.s.inFlight && id == w.s.activeId {
          SettledKeepsInv(w, at, result);
          RequestKeepsInv(World(Settled(w.s, at, result), w.outstanding - {id}), w.s.pendingManual);
        }
    }
  }

  /**
   At most one scan command is outstanding and it carries activeId; a pending request implies a
   scan in flight.
   */
  lemma {:induction false} OneCommand(events: seq<Event>)
    ensures Inv(Run(events))
    decreases |events|
  {
    if events != [] {
      OneCommand(events[..|events| - 1]);
      StepKeepsInv(Run(events[..|events| - 1]), events[|events| - 1]);
    }
  }

  lemma {:induction false} RequestKeepsRows(s: State, manual: bool)
    ensures var s' := Request(s, manual).0; s'.rows == s.rows && s'.lastScan == s.lastScan && s.nextId <= s'.nextId
  {
  }

  lemma {:induction false} SettledRows(s: State, at: int, result: Option<seq<int>>)
    ensures var s' := Settled(s, at, result);
            && s.lastScan <= s'.lastScan && s'.nextId == s.nextId
            && (s'.rows != s.rows || s'.lastScan != s.lastScan ==> s.apply && result == Some(s'.rows))
  {
  }

  /** lastScan never goes back, and rows change only together with an accepted scan message. */
  lemma {:induction false} ScanTimeGrows(events: seq<Event>, e: Event)
    ensures var before, after := Run(events).s, Step(Run(events), e).s;
      && before.lastScan <= after.lastScan
      && before.nextId <= after.nextId
      && (after.rows != before.rows || after.lastScan != before.lastScan ==>
            e.Message? && e.id == before.activeId && before.inFlight && before.apply && e.result == Some(after.rows))
  {
    hide Run, Request, Settled;
    var s := Run(events).s;
    RequestKeepsRows(s, false);
    RequestKeepsRows(s, true);
    RequestKeepsRows(s.(paused := false), false);
    if e.Message? {
      SettledRows(s, e.at, e.result);
      RequestKeepsRows(Settled(s, e.at, e.result), s.pendingManual);
    }
  }

  // ---------- Pauses ----------

  ghost predicate NoPauseAfter(events: seq<Event>, j: nat) {
    forall k | j < k < |events| :: !events[k].Pause?
  }

  /** A refresh made since the latest pause, before the scan with this id was issued. */
  ghost predicate RefreshedSince(events: seq<Event>, id: nat) {
    exists j :: 0 <= j < |events| && events[j].Refresh? && NoPauseAfter(events, j) && Run(events[..j]).s.nextId < id
  }

  lemma {:induction false} StillRefreshed(events: seq<Event>, e: Event, id: nat)
    requires RefreshedSince(events, id) && !e.Pause?
    ensures RefreshedSince(events + [e], id)
  {
    hide Run;
    var j :| 0 <= j < |events| && events[j].Refresh? && NoPauseAfter(events, j) && Run(events[..j]).s.nextId < id;
    assert (events + [e])[..j] == events[..j];
    assert (events + [e])[j].Refresh? && NoPauseAfter(events + [e], j);
  }

  lemma {:induction false} JustRefreshed(events: seq<Event>)
    ensures RefreshedSince(events + [Refresh], Run(events).s.nextId + 1)
  {
    hide Run;
    var j := |events|;
    assert (events + [Refresh])[..j] == events;
    assert (events + [Refresh])[j].Refresh? && NoPauseAfter(events + [Refresh], j);
  }

  ghost predicate PauseInv(events: seq<Event>) {
    var s := Run(events).s;
    && (s.paused && s.inFlight && s.apply ==> RefreshedSince(events, s.activeId))
    && (s.paused && s.pending ==> RefreshedSince(events, s.nextId + 1))
  }

  lemma {:induction false} PauseInvHolds(events: seq<Event>)
    ensures PauseInv(events)
    decreases |events|
  {
    if events != [] {
      var front, e := events[..|events| - 1], events[|events| - 1];
      assert events == front + [e];
      PauseInvHolds(front);
      OneCommand(front);
      PauseInvStep(front, e);
    }
  }

  /** While paused, what is in flight or waits was so before this event, or is a refresh made now. */
  lemma {:induction false} PausedStep(w: World, e: Event)
    requires Inv(w)
    ensures var s, s' := w.s, Step(w, e).s;
            && (s'.paused && s'.inFlight && s'.apply ==>
                  && !e.Pause? && s.paused
                  && (|| (s.inFlight && s.apply && s'.activeId == s.activeId)
                      || (e.Refresh? && s'.activeId == s.nextId + 1)
                      || (s.pending && s'.activeId == s.nextId + 1)))
            && (s'.paused && s'.pending ==>
                  !e.Pause? && s.paused && s'.nextId == s.nextId && (s.pending || e.Refresh?))
  {
  }

  lemma {:induction false} PauseInvStep(front: seq<Event>, e: Event)
    requires PauseInv(front) && Inv(Run(front))
    ensures PauseInv(front + [e])
  {
    var events, w := front + [e], Run(front);
    var s := w.s;
    assert events[..|events| - 1] == front;
    assert Run(events) == Step(w, e);
    hide Run, RefreshedSince, Step, Inv;
    PausedStep(w, e);
    if s.paused && s.inFlight && s.apply && !e.Pause? { StillRefreshed(front, e, s.activeId); }
    if s.paused && s.pending && !e.Pause? { StillRefreshed(front, e, s.nextId + 1); }
    if e.Refresh? { JustRefreshed(front); }
  }

  /**
   While paused the rows change only by the answer to a scan that was issued for a manual refresh
   made after the latest pause, whatever pauses and resumes came before.
   */
  lemma {:induction false} PausedRowsNeedRefresh(events: seq<Event>, e: Event)
    requires var w := Run(events);
             w.s.paused && (Step(w, e).s.rows != w.s.rows || Step(w, e).s.lastScan != w.s.lastScan)
    ensures e.Message? && e.id == Run(events).s.activeId && RefreshedSince(events, e.id)
  {
    PauseInvHolds(events);
    ScanTimeGrows(events, e);
  }
}
