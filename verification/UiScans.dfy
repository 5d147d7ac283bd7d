/**
 What the user sees of the scan scheduler in ui/ui.go, over every sequence of events: when a scan
 starts and when its answer reaches the list, told by the events alone.
 */
module UiScans {
  import opened Wrappers
  import opened UiScheduler

  // ---------- Events ----------

  /** Every pause key press flips the pause. */
  function Paused(events: seq<Event>): bool {
    events != [] && (events[|events| - 1].Pause? != Paused(events[..|events| - 1]))
  }

  /** How many scans have started. */
  function Issued(events: seq<Event>): nat {
    Run(events).s.nextId
  }

  /** This event pauses, so what is on its way is not shown. */
  predicate Freezes(events: seq<Event>, k: int) {
    0 <= k < |events| && events[k].Pause? && !Paused(events[..k])
  }

  /** This event asks for a scan: a refresh, a tick while not paused, or the end of a pause. */
  predicate Asks(events: seq<Event>, k: int) {
    0 <= k < |events| && AsksNow(Paused(events[..k]), events[k])
  }

  predicate AsksNow(paused: bool, e: Event) {
    e.Refresh? || (e.Tick? && !paused) || (e.Pause? && paused)
  }

  ghost predicate FrozenSince(events: seq<Event>, id: nat) {
    exists k :: Freezes(events, k) && id <= Issued(events[..k])
  }

  ghost predicate FreezesAfter(events: seq<Event>, k: int) {
    exists m :: k < m && Freezes(events, m)
  }

  /** While this scan was on its way another was asked for, and no pause has forgotten that. */
  ghost predicate Waiting(events: seq<Event>, id: nat) {
    exists k :: Asks(events, k) && id <= Issued(events[..k]) && !FreezesAfter(events, k)
  }

  // ---------- One more event ----------

  lemma {:induction false} RunMore(events: seq<Event>, e: Event)
    ensures Run(events + [e]) == Step(Run(events), e)
    ensures Paused(events + [e]) == (e.Pause? != Paused(events))
  {
    assert (events + [e])[..|events|] == events;
  }

  lemma {:induction false} PauseIsParity(events: seq<Event>)
    ensures Run(events).s.paused == Paused(events)
    decreases |events|
  {
    if events != [] {
      var front, e := events[..|events| - 1], events[|events| - 1];
      assert events == front + [e];
      PauseIsParity(front);
      RunMore(front, e);
      hide Run, Paused;
      PauseFlips(Run(front), e);
    }
  }

  lemma {:induction false} RequestKeepsPause(s: State, manual: bool)
    ensures Request(s, manual).0.paused == s.paused && s.nextId <= Request(s, manual).0.nextId
  {
  }

  lemma {:induction false} SettledKeepsPause(s: State, at: int, result: Option<seq<int>>)
    ensures Settled(s, at, result).paused == s.paused && Settled(s, at, result).nextId == s.nextId
  {
  }

  lemma {:induction false} PauseFlips(w: World, e: Event)
    ensures Step(w, e).s.paused == (e.Pause? != w.s.paused)
    ensures w.s.nextId <= Step(w, e).s.nextId
  {
    hide Request, Settled;
    RequestKeepsPause(w.s, false);
    RequestKeepsPause(w.s, true);
    RequestKeepsPause(w.s.(paused := false), false);
    if e.Message? {
      SettledKeepsPause(w.s, e.at, e.result);
      RequestKeepsPause(Settled(w.s, e.at, e.result), w.s.pendingManual);
    }
  }

  lemma {:induction false} IssuedGrows(events: seq<Event>, k: nat)
    requires k <= |events|
    ensures Issued(events[..k]) <= Issued(events)
    decreases |events|
  {
    if k == |events| {
      assert events[..k] == events;
    } else {
      var front, e := events[..|events| - 1], events[|events| - 1];
      assert events == front + [e] && front[..k] == events[..k];
      IssuedGrows(front, k);
      RunMore(front, e);
      PauseFlips(Run(front), e);
    }
  }

  lemma {:induction false} EventsMore(events: seq<Event>, e: Event, k: int)
    ensures 0 <= k <= |events| ==> (events + [e])[..k] == events[..k]
    ensures Freezes(events + [e], k) <==> Freezes(events, k) || (k == |events| && e.Pause? && !Paused(events))
    ensures Asks(events + [e], k) <==> Asks(events, k) || (k == |events| && AsksNow(Paused(events), e))
  {
    hide Paused, AsksNow;
    if 0 <= k <= |events| { assert (events + [e])[..k] == events[..k]; }
    assert events[..|events|] == events;
  }

  lemma {:induction false} FrozenMore(events: seq<Event>, e: Event, id: nat)
    ensures FrozenSince(events + [e], id)
       <==> FrozenSince(events, id) || (e.Pause? && !Paused(events) && id <= Issued(events))
  {
    hide Freezes, Paused, Issued;
    var more := events + [e];
    assert events[..|events|] == events;
    forall k
      ensures 0 <= k <= |events| ==> more[..k] == events[..k]
      ensures Freezes(more, k) <==> Freezes(events, k) || (k == |events| && e.Pause? && !Paused(events))
    {
      EventsMore(events, e, k);
    }
    FreezesInside(events);
    if k :| Freezes(events, k) && id <= Issued(events[..k]) {
      assert Freezes(more, k) && more[..k] == events[..k];
    }
    if e.Pause? && !Paused(events) && id <= Issued(events) {
      assert Freezes(more, |events|) && more[..|events|] == events;
    }
    FreezesInside(more);
  }

  lemma {:induction false} FreezesInside(events: seq<Event>)
    ensures forall k :: Freezes(events, k) ==> 0 <= k < |events|
    ensures forall k :: Asks(events, k) ==> 0 <= k < |events|
  {
  }

  lemma {:induction false} AfterMore(events: seq<Event>, e: Event, k: int)
    ensures FreezesAfter(events + [e], k) <==> FreezesAfter(events, k) || (k < |events| && e.Pause? && !Paused(events))
  {
    hide Freezes, Paused;
    forall m
      ensures Freezes(events + [e], m) <==> Freezes(events, m) || (m == |events| && e.Pause? && !Paused(events))
    {
      EventsMore(events, e, m);
    }
    if k < |events| && e.Pause? && !Paused(events) { assert Freezes(events + [e], |events|); }
    if m :| k < m && Freezes(events, m) { assert Freezes(events + [e], m); }
  }

  lemma {:induction false} WaitingMore(events: seq<Event>, e: Event, id: nat)
    ensures Waiting(events + [e], id) <==>
      && !(e.Pause? && !Paused(events))
      && (Waiting(events, id) || (AsksNow(Paused(events), e) && id <= Issued(events)))
  {
    hide Asks, AsksNow, Paused, Issued, FreezesAfter, Freezes;
    var more := events + [e];
    assert events[..|events|] == events;
    forall k
      ensures 0 <= k <= |events| ==> more[..k] == events[..k]
      ensures Asks(more, k) <==> Asks(events, k) || (k == |events| && AsksNow(Paused(events), e))
      ensures FreezesAfter(more, k) <==> FreezesAfter(events, k) || (k < |events| && e.Pause? && !Paused(events))
    {
      EventsMore(events, e, k);
      AfterMore(events, e, k);
    }
    FreezesInside(events);
    FreezesInside(more);
    NothingAfter(events);
    PauseOrAsk(Paused(events), e);
    if Waiting(events, id) && !(e.Pause? && !Paused(events)) {
      var k :| Asks(events, k) && id <= Issued(events[..k]) && !FreezesAfter(events, k);
      assert Asks(more, k) && more[..k] == events[..k];
    }
    if !(e.Pause? && !Paused(events)) && AsksNow(Paused(events), e) && id <= Issued(events) {
      assert Asks(more, |events|) && more[..|events|] == events;
    }
  }

  lemma {:induction false} NothingAfter(events: seq<Event>)
    ensures !FreezesAfter(events, |events|)
  {
  }

  lemma PauseOrAsk(paused: bool, e: Event)
    ensures !(AsksNow(paused, e) && e.Pause? && !paused)
  {
  }

  // ---------- The flags and what they stand for ----------

  /** The apply and pending flags say just that: not frozen since, and asked for since. */
  ghost predicate FlagsTell(events: seq<Event>) {
    var s := Run(events).s;
    s.inFlight ==> (s.apply <==> !FrozenSince(events, s.activeId)) && (s.pending <==> Waiting(events, s.activeId))
  }

  /** How one event changes what is on its way. */
  lemma {:induction false} FlagsStep(w: World, e: Event)
    requires Inv(w)
    ensures var s, s' := w.s, Step(w, e).s;
            var answered := s.inFlight && e.Message? && e.id == s.activeId;
            && (s.inFlight && !answered ==>
                  && s'.inFlight && s'.activeId == s.activeId && s'.nextId == s.nextId
                  && (s'.apply <==> s.apply && !(e.Pause? && !s.paused))
                  && (s'.pending <==> !(e.Pause? && !s.paused) && (s.pending || AsksNow(s.paused, e))))
            && (var starts := if s.inFlight then answered && s.pending else AsksNow(s.paused, e);
                && (starts ==> s'.inFlight && s'.activeId == s'.nextId == s.nextId + 1 && s'.apply && !s'.pending)
                && (!s.inFlight || answered ==> (s'.inFlight <==> starts))
                && (!starts ==> s'.nextId == s.nextId))
  {
  }

  lemma {:induction false} NewScan(events: seq<Event>, id: nat)
    requires Issued(events) < id
    ensures !FrozenSince(events, id) && !Waiting(events, id)
  {
    hide Freezes, Asks, Issued;
    FreezesInside(events);
    forall k | 0 <= k < |events| ensures Issued(events[..k]) < id {
      IssuedGrows(events, k);
    }
  }

  lemma {:induction false} FlagsMore(events: seq<Event>, e: Event)
    requires FlagsTell(events) && Inv(Run(events))
    ensures FlagsTell(events + [e])
  {
    RunMore(events, e);
    PauseIsParity(events);
    hide Run, Paused, Freezes, Asks, AsksNow, Inv, Step, FrozenSince, Waiting;
    var s := Run(events).s;
    FlagsStep(Run(events), e);
    FrozenMore(events, e, s.activeId);
    WaitingMore(events, e, s.activeId);
    ActiveIsIssued(Run(events));
    NewScan(events, s.nextId + 1);
    FrozenMore(events, e, s.nextId + 1);
    WaitingMore(events, e, s.nextId + 1);
  }

  lemma ActiveIsIssued(w: World)
    requires Inv(w)
    ensures w.s.activeId <= w.s.nextId
  {
  }

  lemma {:induction false} FlagsAlwaysTell(events: seq<Event>)
    ensures FlagsTell(events)
    decreases |events|
  {
    if events == [] {
      assert !Run([]).s.inFlight;
    } else {
      var front, e := events[..|events| - 1], events[|events| - 1];
      assert events == front + [e];
      FlagsAlwaysTell(front);
      OneCommand(front);
      FlagsMore(front, e);
    }
  }

  // ---------- When answers show, and when scans start ----------

  /**
   The answer to the scan that is on its way replaces the rows exactly when nothing has paused since
   that scan started and it is not older than what is shown; otherwise it changes neither rows nor
   their time. Any other answer, and a failed one, changes neither too.
   */
  lemma {:induction false} AnswerShows(events: seq<Event>, id: nat, at: int, result: Option<seq<int>>)
    ensures var before, after := Run(events), Step(Run(events), Message(id, at, result)).s;
            if id in before.outstanding && !FrozenSince(events, id) && at >= before.s.lastScan && result.Some?
            then after.rows == result.value && after.lastScan == at
            else after.rows == before.s.rows && after.lastScan == before.s.lastScan
  {
    FlagsAlwaysTell(events);
    OneCommand(events);
    hide Run, FrozenSince, Waiting;
  }

  /**
   A scan starts exactly when it is asked for and none is on its way, or when the one on its way
   answers and another was asked for meanwhile; it is one scan, with a number never used before.
   */
  lemma {:induction false} StartsExactly(events: seq<Event>, e: Event)
    ensures var w, w' := Run(events), Step(Run(events), e);
            var starts := if w.outstanding == {} then AsksNow(Paused(events), e)
                          else e.Message? && e.id in w.outstanding && Waiting(events, e.id);
            var left := if e.Message? then w.outstanding - {e.id} else w.outstanding;
            && w'.outstanding == left + (if starts then {Issued(events) + 1} else {})
            && w'.s.nextId == Issued(events) + (if starts then 1 else 0)
  {
    FlagsAlwaysTell(events);
    OneCommand(events);
    PauseIsParity(events);
    RunMore(events, e);
    OneCommand(events + [e]);
    FlagsStep(Run(events), e);
    hide Run, Waiting, FrozenSince, Paused, Step, AsksNow;
  }

  // ---------- The sign that a scan is on its way ----------

  predicate EverPaused(events: seq<Event>) {
    events != [] && (events[|events| - 1].Pause? || EverPaused(events[..|events| - 1]))
  }

  predicate LoadingTells(s: State, everPaused: bool) {
    && (s.nextId == 0 ==> !s.inFlight)
    && (s.loading <==> (s.inFlight && s.apply) || (s.nextId == 0 && !everPaused))
  }

  lemma {:induction false} LoadingOnRequest(s: State, manual: bool, everPaused: bool)
    requires LoadingTells(s, everPaused)
    ensures LoadingTells(Request(s, manual).0, everPaused)
  {
  }

  lemma {:induction false} LoadingOnSettled(s: State, at: int, result: Option<seq<int>>, everPaused: bool)
    requires LoadingTells(s, everPaused) && s.inFlight
    ensures LoadingTells(Settled(s, at, result), everPaused)
  {
  }

  lemma {:induction false} LoadingOnPause(s: State, everPaused: bool)
    requires LoadingTells(s, everPaused) && (s.paused ==> everPaused)
    ensures LoadingTells(TogglePause(s).0, true)
  {
    hide Request;
    if s.paused { LoadingOnRequest(s.(paused := false), false, true); }
  }

  lemma {:induction false} LoadingStep(w: World, e: Event, everPaused: bool)
    requires LoadingTells(w.s, everPaused) && (w.s.paused ==> everPaused)
    ensures LoadingTells(Step(w, e).s, e.Pause? || everPaused)
  {
    hide LoadingTells, Request, Settled, TogglePause;
    match e {
      case Tick => LoadingOnRequest(w.s, false, everPaused);
      case Refresh => LoadingOnRequest(w.s, true, everPaused);
      case Pause => LoadingOnPause(w.s, everPaused);
      case Message(id, at, result) =>
        if w.s.inFlight && id == w.s.activeId {
          LoadingOnSettled(w.s, at, result, everPaused);
          LoadingOnRequest(Settled(w.s, at, result), w.s.pendingManual, everPaused);
        }
    }
  }

  lemma {:induction false} PausedIsEver(events: seq<Event>)
    ensures Paused(events) ==> EverPaused(events)
    decreases |events|
  {
    if events != [] { PausedIsEver(events[..|events| - 1]); }
  }

  lemma {:induction false} LoadingFlag(events: seq<Event>)
    ensures LoadingTells(Run(events).s, EverPaused(events))
    decreases |events|
  {
    if events != [] {
      var front, e := events[..|events| - 1], events[|events| - 1];
      assert events == front + [e];
      LoadingFlag(front);
      RunMore(front, e);
      PauseIsParity(front);
      PausedIsEver(front);
      hide Run, Step, LoadingTells, Paused;
      LoadingStep(Run(front), e, EverPaused(front));
    }
  }

  /** It shows while an answer that will be shown is awaited, and before the first scan unless paused. */
  lemma {:induction false} LoadingExactly(events: seq<Event>)
    ensures Run(events).s.loading <==>
      || (Issued(events) == 0 && !EverPaused(events))
      || exists id :: id in Run(events).outstanding && !FrozenSince(events, id)
  {
    LoadingFlag(events);
    FlagsAlwaysTell(events);
    OneCommand(events);
    hide Run, FrozenSince, Waiting, EverPaused;
  }
}
