/**
 Every interleaving of the companion's handlers, timer callbacks and shutdown.

 A run is a sequence of steps, each one critical section, one channel operation or one return
 of an engine call. A step that is not enabled leaves the system as it is, so the lemmas below
 speak of all step sequences.
 */
module CompanionProtocol {
  import opened Wrappers
  import opened CompanionServer

  /** Where a handler is. A handler is listed only while it holds the work slot. */
  datatype Handler =
    | SnapshotClaimed
    | Scanning
    | Built(snapshot: Snapshot)
    | Acting(request: Request)
    | Acted(request: Request, outcome: Outcome)
    | Releasing

  /** A timer waits until it is due; once fired its callback waits for the mutex. */
  datatype Timer = Armed(due: int) | Fired

  /** The shutdown routine stopAndWait, statement by statement. */
  datatype Shutdown = NotStarted | Closing | HoldsSlot | Drained | Done

  datatype Event =
    | Published(snapshot: Snapshot)
    | Started(request: Request, row: Row, snapshot: Snapshot, at: int)

  datatype System = System(
    server: State,
    handlers: map<nat, Handler>,
    timers: map<nat, Timer>,
    shutdown: Shutdown,
    clock: int,
    used: set<string>,
    nextSerial: nat,
    log: seq<Event>)

  datatype Step =
    | Tick(elapsed: nat)
    | SnapshotArrives(h: nat)
    | SnapshotClears(h: nat)
    | SnapshotBuilt(h: nat, id: string, rows: seq<Row>)
    | SnapshotPublishes(h: nat)
    | SnapshotFails(h: nat)
    | ActionArrives(h: nat, request: Request)
    | EngineReturns(h: nat, contextDone: bool, err: EngineError)
    | ActionFinishes(h: nat)
    | Releases(h: nat)
    | TimerFires(serial: nat)
    | TimerRuns(serial: nat)
    | StopBegins
    | StopAcquires
    | StopReleases
    | StopClears

  const START := System(INITIAL, map[], map[], NotStarted, 0, {}, 0, [])

  // ---------- Steps ----------

  /** Stopping a timer has no effect on a callback that has already fired. */
  function StopTimer(timers: map<nat, Timer>, timer: Option<nat>): map<nat, Timer> {
    if timer.Some? && timer.value in timers && timers[timer.value].Armed? then timers - {timer.value} else timers
  }

  function TargetIds(rows: seq<Row>): set<string> {
    set row | row in rows :: row.targetId
  }

  predicate DistinctTargets(rows: seq<Row>) {
    forall i, j | 0 <= i < j < |rows| :: rows[i].targetId != rows[j].targetId
  }

  /** Random IDs are fresh: never used before and never twice. */
  predicate FreshIds(used: set<string>, id: string, rows: seq<Row>) {
    && id !in used && id !in TargetIds(rows)
    && TargetIds(rows) !! used
    && DistinctTargets(rows)
  }

  function ArriveSnapshot(s: System, h: nat): System {
    var (server, claimed) := Claim(s.server);
    if claimed then s.(server := server, handlers := s.handlers[h := SnapshotClaimed]) else s
  }

  function ClearAll(s: System): System {
    s.(server := ClearSnapshot(s.server), timers := StopTimer(s.timers, s.server.timer))
  }

  function Build(s: System, h: nat, id: string, rows: seq<Row>): System {
    var snapshot := Snapshot(s.nextSerial, id, s.clock + SNAPSHOT_TTL, rows);
    s.(handlers := s.handlers[h := Built(snapshot)],
       used := s.used + {id} + TargetIds(rows),
       nextSerial := s.nextSerial + 1)
  }

  function PublishBuilt(s: System, h: nat, snapshot: Snapshot): System {
    s.(server := Publish(s.server, snapshot),
       handlers := s.handlers[h := Releasing],
       timers := s.timers[snapshot.serial := Armed(s.clock + SNAPSHOT_TTL)],
       log := s.log + [Published(snapshot)])
  }

  function ArriveAction(s: System, h: nat, r: Request): System {
    if !Acceptable(r) then s
    else
      var (server, verdict) := Begin(s.server, r, s.clock);
      match verdict
      case Run(row, snapshot) =>
        s.(server := server,
           handlers := s.handlers[h := Acting(r)],
           timers := StopTimer(s.timers, s.server.timer),
           log := s.log + [Started(r, row, snapshot, s.clock)])
      case Stale => s.(server := server, handlers := s.handlers[h := Releasing])
      case _ => s.(server := server)
  }

  /** The steps of a snapshot request. */
  function OnSnapshot(s: System, step: Step): System {
    match step
    case SnapshotArrives(h) => if h in s.handlers then s else ArriveSnapshot(s, h)
    case SnapshotClears(h) =>
      if h in s.handlers && s.handlers[h].SnapshotClaimed?
      then ClearAll(s).(handlers := s.handlers[h := Scanning]) else s
    case SnapshotBuilt(h, id, rows) =>
      if h in s.handlers && s.handlers[h].Scanning? && FreshIds(s.used, id, rows) then Build(s, h, id, rows) else s
    case SnapshotPublishes(h) =>
      if h in s.handlers && s.handlers[h].Built? then PublishBuilt(s, h, s.handlers[h].snapshot) else s
    case SnapshotFails(h) =>
      if h in s.handlers && (s.handlers[h].Scanning? || s.handlers[h].Built?)
      then s.(handlers := s.handlers[h := Releasing]) else s
    case _ => s
  }

  /** The steps of an action request; Releases ends a request of either kind. */
  function OnAction(s: System, step: Step): System {
    match step
    case ActionArrives(h, r) => if h in s.handlers then s else ArriveAction(s, h, r)
    case EngineReturns(h, contextDone, err) =>
      if h in s.handlers && s.handlers[h].Acting?
      then s.(handlers := s.handlers[h := Acted(s.handlers[h].request, OutcomeOf(contextDone, err))]) else s
    case ActionFinishes(h) =>
      if h in s.handlers && s.handlers[h].Acted?
      then s.(server := Finish(s.server, s.handlers[h].request, s.handlers[h].outcome, s.clock),
              handlers := s.handlers[h := Releasing])
      else s
    case Releases(h) =>
      if h in s.handlers && s.handlers[h].Releasing?
      then s.(server := Release(s.server), handlers := s.handlers - {h}) else s
    case _ => s
  }

  /** The steps of the clock, the expiry timers and the shutdown routine. */
  function OnTimer(s: System, step: Step): System {
    match step
    case Tick(elapsed) => s.(clock := s.clock + elapsed)
    case TimerFires(serial) =>
      if serial in s.timers && s.timers[serial].Armed? && s.clock >= s.timers[serial].due
      then s.(timers := s.timers[serial := Fired]) else s
    case TimerRuns(serial) =>
      if serial in s.timers && s.timers[serial].Fired?
      then s.(server := Expire(s.server, serial), timers := s.timers - {serial}) else s
    case StopBegins =>
      if s.shutdown.NotStarted? then s.(server := BeginClosing(s.server), shutdown := Closing) else s
    case StopAcquires =>
      if s.shutdown.Closing? && !s.server.slot then s.(server := s.server.(slot := true), shutdown := HoldsSlot) else s
    case StopReleases =>
      if s.shutdown.HoldsSlot? then s.(server := Release(s.server), shutdown := Drained) else s
    case StopClears =>
      if s.shutdown.Drained? then ClearAll(s).(shutdown := Done) else s
    case _ => s
  }

  predicate SnapshotStep(step: Step) {
    || step.SnapshotArrives? || step.SnapshotClears? || step.SnapshotBuilt?
    || step.SnapshotPublishes? || step.SnapshotFails?
  }

  predicate ActionStep(step: Step) {
    step.ActionArrives? || step.EngineReturns? || step.ActionFinishes? || step.Releases?
  }

  function Apply(s: System, step: Step): System {
    if SnapshotStep(step) then OnSnapshot(s, step) else if ActionStep(step) then OnAction(s, step) else OnTimer(s, step)
  }

  function Run(s: System, steps: seq<Step>): System
    decreases |steps|
  {
    if steps == [] then s else Run(Apply(s, steps[0]), steps[1..])
  }

  // ---------- The invariant ----------

  /** The work slot has at most one holder, and the shutdown routine waits for it. */
  ghost predicate SlotInv(s: System) {
    && (forall h, h' | h in s.handlers && h' in s.handlers :: h == h')
    && (s.server.slot <==> s.handlers.Keys != {} || s.shutdown.HoldsSlot?)
    && (s.server.closing <==> !s.shutdown.NotStarted?)
    && (s.shutdown.HoldsSlot? || s.shutdown.Drained? || s.shutdown.Done? ==> s.handlers.Keys == {})
    && (s.shutdown.Done? ==> s.server.snapshot.None?)
  }

  ghost predicate TimerInv(s: System) {
    && s.server.timer == (if s.server.snapshot.Some? then Some(s.server.snapshot.value.serial) else None)
    && (forall h | h in s.handlers :: s.handlers[h].Scanning? || s.handlers[h].Built? ==> s.server.snapshot.None?)
    && (s.server.snapshot.Some? ==>
          var snapshot := s.server.snapshot.value;
          && snapshot.serial in s.timers
          && match s.timers[snapshot.serial]
             case Armed(due) => due >= snapshot.expiresAt
             case Fired => s.clock >= snapshot.expiresAt)
    && (forall serial | serial in s.timers :: serial < s.nextSerial)
    && (forall h | h in s.handlers && s.handlers[h].Built? ::
          s.handlers[h].snapshot.serial < s.nextSerial && s.handlers[h].snapshot.serial !in s.timers
          && s.handlers[h].snapshot.expiresAt <= s.clock + SNAPSHOT_TTL)
  }

  /** The request of the action that a handler is in the middle of. */
  function Doing(handlers: map<nat, Handler>, h: nat): Option<Request> {
    if h in handlers && (handlers[h].Acting? || handlers[h].Acted?) then Some(handlers[h].request) else None
  }

  predicate Runs(handlers: map<nat, Handler>, h: nat, id: string) {
    Doing(handlers, h).Some? && Doing(handlers, h).value.requestId == id
  }

  predicate PendingAt(receipts: map<string, Cached>, id: string) {
    id in receipts && receipts[id].receipt.Pending?
  }

  ghost predicate PendingHasHandler(receipts: map<string, Cached>, handlers: map<nat, Handler>) {
    forall id | PendingAt(receipts, id) :: exists h :: Runs(handlers, h, id)
  }

  ghost predicate HandlerHasPending(receipts: map<string, Cached>, handlers: map<nat, Handler>) {
    forall h | Doing(handlers, h).Some? ::
      var r := Doing(handlers, h).value;
      r.requestId in receipts && receipts[r.requestId].receipt == Pending(r)
  }

  ghost predicate KeyedById(receipts: map<string, Cached>) {
    forall id | id in receipts :: receipts[id].receipt.request.requestId == id
  }

  /** A receipt is pending exactly while the handler of its action holds the slot. */
  ghost predicate ReceiptInv(s: System) {
    && |s.server.receipts| <= MAX_RECEIPTS && KeyedById(s.server.receipts)
    && PendingHasHandler(s.server.receipts, s.handlers)
    && HandlerHasPending(s.server.receipts, s.handlers)
  }

  ghost predicate WasPublished(log: seq<Event>, snapshot: Snapshot) {
    exists i :: 0 <= i < |log| && log[i] == Published(snapshot)
  }

  /** Published snapshots keep their serial and ID to themselves. */
  ghost predicate PublishedInv(s: System) {
    && (forall i | 0 <= i < |s.log| && s.log[i].Published? ::
          && s.log[i].snapshot.serial < s.nextSerial && s.log[i].snapshot.id in s.used
          && DistinctTargets(s.log[i].snapshot.rows))
    && (forall i, j | 0 <= i < j < |s.log| && s.log[i].Published? && s.log[j].Published? ::
          s.log[i].snapshot.serial != s.log[j].snapshot.serial && s.log[i].snapshot.id != s.log[j].snapshot.id)
    && (forall h | h in s.handlers && s.handlers[h].Built? ::
          var b := s.handlers[h].snapshot;
          && b.serial < s.nextSerial && b.id in s.used && DistinctTargets(b.rows)
          && forall i | 0 <= i < |s.log| && s.log[i].Published? ::
               s.log[i].snapshot.serial != b.serial && s.log[i].snapshot.id != b.id)
    && (s.server.snapshot.Some? ==> WasPublished(s.log, s.server.snapshot.value))
  }

  predicate RunsOn(e: Event)
    requires e.Started?
  {
    && e.request.snapshotId == e.snapshot.id
    && e.at < e.snapshot.expiresAt
    && e.row in e.snapshot.rows && e.row.targetId == e.request.targetId
  }

  /** Each published snapshot starts at most one action, and never while it is still current. */
  ghost predicate StartedInv(s: System) {
    && (forall i | 0 <= i < |s.log| && s.log[i].Started? ::
          RunsOn(s.log[i]) && WasPublished(s.log[..i], s.log[i].snapshot))
    && (forall i, j | 0 <= i < j < |s.log| && s.log[i].Started? && s.log[j].Started? ::
          s.log[i].snapshot != s.log[j].snapshot)
    && (s.server.snapshot.Some? ==>
          forall i | 0 <= i < |s.log| && s.log[i].Started? :: s.log[i].snapshot != s.server.snapshot.value)
  }

  ghost predicate Inv(s: System) {
    SlotInv(s) && TimerInv(s) && ReceiptInv(s) && PublishedInv(s) && StartedInv(s)
  }

  // ---------- Every step keeps it ----------

  /** The three ways an action request changes the system: it runs, it is stale, or only receipts lapse. */
  datatype Effect = Ran(row: Row, snapshot: Snapshot) | TurnedStale | OnlyPruned | NoEffect

  ghost predicate HasEffect(s: System, h: nat, r: Request, s': System, e: Effect) {
    var pruned := Prune(s.server.receipts, s.clock);
    match e
    case Ran(row, snapshot) =>
      && !s.server.closing && !s.server.slot
      && s.server.snapshot == Some(snapshot) && RunsOn(Started(r, row, snapshot, s.clock))
      && r.requestId !in pruned && |pruned| < MAX_RECEIPTS
      && s' == s.(server := State(true, false, None, None,
                                  pruned[r.requestId := Cached(Pending(r), s.clock + RECEIPT_TTL)]),
                  handlers := s.handlers[h := Acting(r)],
                  timers := StopTimer(s.timers, s.server.timer),
                  log := s.log + [Started(r, row, snapshot, s.clock)])
    case TurnedStale =>
      && !s.server.closing && !s.server.slot
      && s' == s.(server := s.server.(slot := true, receipts := pruned), handlers := s.handlers[h := Releasing])
    case OnlyPruned => s' == s.(server := s.server.(receipts := pruned))
    case NoEffect => s' == s
  }

  lemma {:induction false} ArriveEffect(s: System, h: nat, r: Request) returns (e: Effect)
    ensures HasEffect(s, h, r, ArriveAction(s, h, r), e)
  {
    hide Prune, FindRow, Acceptable, StopTimer;
    if !Acceptable(r) {
      return NoEffect;
    }
    var p := s.server.(receipts := Prune(s.server.receipts, s.clock));
    var (t, v) := Begin(s.server, r, s.clock);
    if v.Run? {
      e := Ran(v.row, v.snapshot);
      assert Target(p.(slot := true), r, s.clock) == Some((v.row, v.snapshot));
    } else if v.Stale? {
      e := TurnedStale;
    } else {
      e := OnlyPruned;
    }
  }

  lemma {:induction false} SlotOnSnapshot(s: System, step: Step)
    requires SlotInv(s)
    ensures SlotInv(OnSnapshot(s, step))
  {
  }

  lemma {:induction false} SlotOnArrival(s: System, h: nat, r: Request)
    requires SlotInv(s) && h !in s.handlers
    ensures SlotInv(ArriveAction(s, h, r))
  {
    hide ArriveAction, Prune, StopTimer, RunsOn;
    var _ := ArriveEffect(s, h, r);
  }

  lemma {:induction false} SlotOnAction(s: System, step: Step)
    requires SlotInv(s)
    ensures SlotInv(OnAction(s, step))
  {
    hide ArriveAction, Prune;
    if step.ActionArrives? && step.h !in s.handlers { SlotOnArrival(s, step.h, step.request); }
  }

  lemma {:induction false} SlotOnTimer(s: System, step: Step)
    requires SlotInv(s)
    ensures SlotInv(OnTimer(s, step))
  {
  }

  lemma {:induction false} SlotStep(s: System, step: Step)
    requires SlotInv(s)
    ensures SlotInv(Apply(s, step))
  {
    hide SlotInv, OnSnapshot, OnAction, OnTimer;
    SlotOnSnapshot(s, step);
    SlotOnAction(s, step);
    SlotOnTimer(s, step);
  }

  lemma {:induction false} TimerOnSnapshot(s: System, step: Step)
    requires SlotInv(s) && TimerInv(s)
    ensures TimerInv(OnSnapshot(s, step))
  {
  }

  lemma {:induction false} TimerOnArrival(s: System, h: nat, r: Request)
    requires SlotInv(s) && TimerInv(s) && h !in s.handlers
    ensures TimerInv(ArriveAction(s, h, r))
  {
    hide ArriveAction, Prune, RunsOn;
    var _ := ArriveEffect(s, h, r);
  }

  lemma {:induction false} TimerOnAction(s: System, step: Step)
    requires SlotInv(s) && TimerInv(s)
    ensures TimerInv(OnAction(s, step))
  {
    hide ArriveAction, Prune;
    if step.ActionArrives? && step.h !in s.handlers { TimerOnArrival(s, step.h, step.request); }
  }

  lemma {:induction false} TimerOnTimer(s: System, step: Step)
    requires SlotInv(s) && TimerInv(s)
    ensures TimerInv(OnTimer(s, step))
  {
  }

  lemma {:induction false} TimerStep(s: System, step: Step)
    requires SlotInv(s) && TimerInv(s)
    ensures TimerInv(Apply(s, step))
  {
    hide SlotInv, TimerInv, OnSnapshot, OnAction, OnTimer;
    TimerOnSnapshot(s, step);
    TimerOnAction(s, step);
    TimerOnTimer(s, step);
  }

  /** The clock, the timers and the shutdown leave log and handlers alone and at most drop the snapshot. */
  ghost predicate OnlyDrops(s: System, s': System) {
    && s'.log == s.log && s'.handlers == s.handlers && s'.used == s.used && s'.nextSerial == s.nextSerial
    && s'.server.receipts == s.server.receipts && s.clock <= s'.clock
    && (s'.server.snapshot == s.server.snapshot || s'.server.snapshot.None?)
  }

  lemma {:induction false} TimerOnlyDrops(s: System, step: Step)
    ensures OnlyDrops(s, OnTimer(s, step))
  {
  }

  lemma {:induction false} PublishedOnPublish(s: System, h: nat)
    requires SlotInv(s) && PublishedInv(s)
    requires h in s.handlers && s.handlers[h].Built?
    ensures PublishedInv(PublishBuilt(s, h, s.handlers[h].snapshot))
  {
    var s' := PublishBuilt(s, h, s.handlers[h].snapshot);
    assert s'.log[|s.log|] == Published(s.handlers[h].snapshot);
  }

  /** The log has grown by an action at most, and no snapshot has come. */
  lemma {:induction false} PublishedActs(s: System, s': System, e: Event)
    requires PublishedInv(s) && e.Started? && s'.log == s.log + [e]
    requires s'.server.snapshot.None? && s'.used == s.used && s'.nextSerial == s.nextSerial
    requires forall h | h in s'.handlers :: !s'.handlers[h].Built?
    ensures PublishedInv(s')
  {
    hide WasPublished, DistinctTargets;
    assert forall i | 0 <= i < |s'.log| && s'.log[i].Published? :: s'.log[i] == s.log[i];
  }

  lemma {:induction false} PublishedSame(s: System, s': System)
    requires PublishedInv(s) && s'.log == s.log && s'.server.snapshot == s.server.snapshot
    requires s'.used == s.used && s'.nextSerial == s.nextSerial
    requires forall h | h in s'.handlers && s'.handlers[h].Built? :: h in s.handlers && s.handlers[h] == s'.handlers[h]
    ensures PublishedInv(s')
  {
    hide WasPublished, DistinctTargets;
  }

  lemma {:induction false} PublishedOnArrival(s: System, h: nat, r: Request)
    requires SlotInv(s) && PublishedInv(s) && h !in s.handlers
    ensures PublishedInv(ArriveAction(s, h, r))
  {
    var e := ArriveEffect(s, h, r);
    var s' := ArriveAction(s, h, r);
    hide ArriveAction, Prune, StopTimer, RunsOn, PublishedInv;
    if e.Ran? {
      PublishedActs(s, s', Started(r, e.row, e.snapshot, s.clock));
    } else {
      PublishedSame(s, s');
    }
  }

  lemma {:induction false} PublishedOnSnapshot(s: System, step: Step)
    requires SlotInv(s) && TimerInv(s) && PublishedInv(s)
    ensures PublishedInv(OnSnapshot(s, step))
  {
    hide PublishBuilt, WasPublished;
    if step.SnapshotPublishes? && step.h in s.handlers && s.handlers[step.h].Built? { PublishedOnPublish(s, step.h); }
  }

  lemma {:induction false} PublishedOnAction(s: System, step: Step)
    requires SlotInv(s) && PublishedInv(s)
    ensures PublishedInv(OnAction(s, step))
  {
    hide ArriveAction, WasPublished, DistinctTargets;
    if step.ActionArrives? && step.h !in s.handlers { PublishedOnArrival(s, step.h, step.request); }
  }

  lemma {:induction false} PublishedDrops(s: System, s': System)
    requires PublishedInv(s) && OnlyDrops(s, s')
    ensures PublishedInv(s')
  {
    hide WasPublished, DistinctTargets;
  }

  lemma {:induction false} PublishedStep(s: System, step: Step)
    requires SlotInv(s) && TimerInv(s) && PublishedInv(s)
    ensures PublishedInv(Apply(s, step))
  {
    hide SlotInv, TimerInv, PublishedInv, OnSnapshot, OnAction, OnTimer, OnlyDrops;
    PublishedOnSnapshot(s, step);
    PublishedOnAction(s, step);
    TimerOnlyDrops(s, step);
    PublishedDrops(s, OnTimer(s, step));
  }

  lemma {:induction false} StartedOnPublish(s: System, h: nat)
    requires PublishedInv(s) && StartedInv(s)
    requires h in s.handlers && s.handlers[h].Built?
    ensures StartedInv(PublishBuilt(s, h, s.handlers[h].snapshot))
  {
    var snapshot := s.handlers[h].snapshot;
    var s' := PublishBuilt(s, h, snapshot);
    forall i | 0 <= i < |s'.log| && s'.log[i].Started?
      ensures RunsOn(s'.log[i]) && WasPublished(s'.log[..i], s'.log[i].snapshot) && s'.log[i].snapshot != snapshot
    {
      assert s'.log[i] == s.log[i] && s'.log[..i] == s.log[..i];
      var j :| 0 <= j < i && s.log[..i][j] == Published(s.log[i].snapshot);
      assert s.log[j].Published?;
    }
  }

  /** Starting an action on the current snapshot, which it takes away. */
  lemma {:induction false} StartedAppend(s: System, s': System, e: Event)
    requires PublishedInv(s) && StartedInv(s)
    requires e.Started? && RunsOn(e) && s.server.snapshot == Some(e.snapshot)
    requires s'.log == s.log + [e] && s'.server.snapshot.None?
    ensures StartedInv(s')
  {
    hide RunsOn, DistinctTargets;
    forall i | 0 <= i < |s'.log| && s'.log[i].Started?
      ensures RunsOn(s'.log[i]) && WasPublished(s'.log[..i], s'.log[i].snapshot)
    {
      if i < |s.log| {
        assert s'.log[i] == s.log[i] && s'.log[..i] == s.log[..i];
      } else {
        assert s'.log[..i] == s.log;
      }
    }
  }

  lemma {:induction false} StartedOnArrival(s: System, h: nat, r: Request)
    requires PublishedInv(s) && StartedInv(s) && h !in s.handlers
    ensures StartedInv(ArriveAction(s, h, r))
  {
    var e := ArriveEffect(s, h, r);
    var s' := ArriveAction(s, h, r);
    hide ArriveAction, Prune, StopTimer, PublishedInv, RunsOn, WasPublished;
    if e.Ran? {
      StartedAppend(s, s', Started(r, e.row, e.snapshot, s.clock));
    }
  }

  lemma {:induction false} StartedOnSnapshot(s: System, step: Step)
    requires PublishedInv(s) && StartedInv(s)
    ensures StartedInv(OnSnapshot(s, step))
  {
    hide PublishBuilt, WasPublished, RunsOn, PublishedInv;
    if step.SnapshotPublishes? && step.h in s.handlers && s.handlers[step.h].Built? { StartedOnPublish(s, step.h); }
  }

  lemma {:induction false} StartedOnAction(s: System, step: Step)
    requires PublishedInv(s) && StartedInv(s)
    ensures StartedInv(OnAction(s, step))
  {
    hide ArriveAction, WasPublished, RunsOn, PublishedInv;
    if step.ActionArrives? && step.h !in s.handlers { StartedOnArrival(s, step.h, step.request); }
  }

  lemma {:induction false} StartedDrops(s: System, s': System)
    requires StartedInv(s) && OnlyDrops(s, s')
    ensures StartedInv(s')
  {
    hide WasPublished, RunsOn;
  }

  lemma {:induction false} StartedStep(s: System, step: Step)
    requires PublishedInv(s) && StartedInv(s)
    ensures StartedInv(Apply(s, step))
  {
    hide PublishedInv, StartedInv, OnSnapshot, OnAction, OnTimer, OnlyDrops;
    StartedOnSnapshot(s, step);
    StartedOnAction(s, step);
    TimerOnlyDrops(s, step);
    StartedDrops(s, OnTimer(s, step));
  }

  lemma {:induction false} PruneSize(receipts: map<string, Cached>, now: int)
    ensures |Prune(receipts, now)| <= |receipts|
  {
    SubsetSize(Prune(receipts, now).Keys, receipts.Keys);
  }

  lemma {:induction false} SubsetSize(a: set<string>, b: set<string>)
    requires a <= b
    ensures |a| <= |b|
    decreases a
  {
    if a != {} {
      var x :| x in a;
      SubsetSize(a - {x}, b - {x});
    }
  }

  ghost predicate SameActions(handlers: map<nat, Handler>, handlers': map<nat, Handler>) {
    forall h :: Doing(handlers, h) == Doing(handlers', h)
  }

  lemma {:induction false} PruneKeepsPending(receipts: map<string, Cached>, now: int, id: string)
    ensures PendingAt(Prune(receipts, now), id) <==> PendingAt(receipts, id)
    ensures id in Prune(receipts, now) ==> id in receipts && Prune(receipts, now)[id] == receipts[id]
    ensures PendingAt(receipts, id) ==> id in Prune(receipts, now)
  {
  }

  /** Receipts that lapse are never pending, so what is pending and who runs it stay the same. */
  lemma {:induction false} ReceiptsPruned(s: System, s': System, now: int)
    requires ReceiptInv(s) && SameActions(s.handlers, s'.handlers)
    requires s'.server.receipts == s.server.receipts || s'.server.receipts == Prune(s.server.receipts, now)
    ensures ReceiptInv(s')
  {
    PruneSize(s.server.receipts, now);
    var receipts, receipts' := s.server.receipts, s'.server.receipts;
    forall id
      ensures PendingAt(receipts', id) <==> PendingAt(receipts, id)
      ensures id in receipts' ==> id in receipts && receipts'[id] == receipts[id]
      ensures PendingAt(receipts, id) ==> id in receipts'
    {
      PruneKeepsPending(receipts, now, id);
    }
    hide Prune, Doing;
    forall id | PendingAt(receipts', id) ensures exists h :: Runs(s'.handlers, h, id) {
      var h :| Runs(s.handlers, h, id);
      assert Runs(s'.handlers, h, id);
    }
    forall h | Doing(s'.handlers, h).Some? ensures PendingAt(receipts, Doing(s'.handlers, h).value.requestId) {
      assert Doing(s.handlers, h).Some?;
    }
  }

  lemma {:induction false} OneMore(receipts: map<string, Cached>, id: string, c: Cached)
    ensures |receipts[id := c]| == |receipts| + if id in receipts then 0 else 1
  {
    var after := receipts[id := c];
    assert after.Keys == receipts.Keys + {id};
    assert |after| == |after.Keys| && |receipts| == |receipts.Keys|;
  }

  lemma {:induction false} OnePendingMore(
    s: System, s': System, h: nat, r: Request, kept: map<string, Cached>, c: Cached)
    requires s'.handlers == map[h := Acting(r)] && c.receipt == Pending(r) && r.requestId !in kept
    requires KeyedById(kept) && |kept| < MAX_RECEIPTS && forall id :: !PendingAt(kept, id)
    requires s'.server.receipts == kept[r.requestId := c]
    ensures ReceiptInv(s')
  {
    OneMore(kept, r.requestId, c);
    assert Runs(s'.handlers, h, r.requestId);
    forall id ensures PendingAt(s'.server.receipts, id) ==> id == r.requestId {
      assert !PendingAt(kept, id);
    }
  }

  lemma {:induction false} NothingPending(s: System, id: string)
    requires ReceiptInv(s) && s.handlers == map[]
    ensures !PendingAt(s.server.receipts, id)
  {
  }

  lemma {:induction false} ReceiptsOnRun(s: System, h: nat, r: Request, s': System)
    requires ReceiptInv(s) && s.handlers == map[] && s'.handlers == map[h := Acting(r)]
    requires var pruned := Prune(s.server.receipts, s.clock);
             && r.requestId !in pruned && |pruned| < MAX_RECEIPTS
             && s'.server.receipts == pruned[r.requestId := Cached(Pending(r), s.clock + RECEIPT_TTL)]
    ensures ReceiptInv(s')
  {
    var pruned := Prune(s.server.receipts, s.clock);
    forall id ensures !PendingAt(pruned, id) && (id in pruned ==> pruned[id].receipt.request.requestId == id) {
      PruneKeepsPending(s.server.receipts, s.clock, id);
      NothingPending(s, id);
    }
    hide Prune, ReceiptInv, PendingAt;
    OnePendingMore(s, s', h, r, pruned, Cached(Pending(r), s.clock + RECEIPT_TTL));
  }

  lemma {:induction false} ReceiptsOnAction(s: System, h: nat, r: Request)
    requires SlotInv(s) && ReceiptInv(s) && h !in s.handlers
    ensures ReceiptInv(ArriveAction(s, h, r))
  {
    var e := ArriveEffect(s, h, r);
    var s' := ArriveAction(s, h, r);
    hide ArriveAction, Prune, StopTimer, RunsOn, ReceiptInv;
    match e {
      case Ran(_, _) =>
        assert s.handlers.Keys == {} && s.handlers == map[];
        ReceiptsOnRun(s, h, r, s');
      case NoEffect =>
      case OnlyPruned => ReceiptsPruned(s, s', s.clock);
      case TurnedStale => ReceiptsPruned(s, s', s.clock);
    }
  }

  /** The handler that finishes is the only one, and its receipt the only one pending. */
  lemma {:induction false} OnlyOnePending(s: System, h: nat, id: string)
    requires SlotInv(s) && ReceiptInv(s) && h in s.handlers && s.handlers[h].Acted?
    ensures PendingAt(s.server.receipts, id) ==> id == s.handlers[h].request.requestId
    ensures var r := s.handlers[h].request;
            r.requestId in s.server.receipts && s.server.receipts[r.requestId].receipt == Pending(r)
  {
    assert Doing(s.handlers, h) == Some(s.handlers[h].request);
    if PendingAt(s.server.receipts, id) {
      var h' :| Runs(s.handlers, h', id);
      assert h' == h;
    }
  }

  lemma {:induction false} NonePending(s: System, s': System, r: Request, c: Cached)
    requires KeyedById(s.server.receipts) && |s.server.receipts| <= MAX_RECEIPTS && r.requestId in s.server.receipts
    requires s'.server.receipts == s.server.receipts[r.requestId := c] && c.receipt.Final? && c.receipt.request == r
    requires forall id :: PendingAt(s.server.receipts, id) ==> id == r.requestId
    requires forall h :: Doing(s'.handlers, h).None?
    ensures ReceiptInv(s')
  {
    OneMore(s.server.receipts, r.requestId, c);
    forall id ensures !PendingAt(s'.server.receipts, id) {
      assert PendingAt(s.server.receipts, id) ==> id == r.requestId;
    }
    hide Doing;
  }

  lemma {:induction false} ReceiptsOnFinish(s: System, h: nat)
    requires SlotInv(s) && ReceiptInv(s) && h in s.handlers && s.handlers[h].Acted?
    ensures ReceiptInv(Apply(s, ActionFinishes(h)))
  {
    var r, s' := s.handlers[h].request, Apply(s, ActionFinishes(h));
    var c := Cached(Final(r, s.handlers[h].outcome), s.clock + RECEIPT_TTL);
    assert s'.server.receipts == s.server.receipts[r.requestId := c] && s'.handlers == s.handlers[h := Releasing];
    hide Apply;
    assert forall h' | h' in s.handlers :: h' == h;
    forall id ensures PendingAt(s.server.receipts, id) ==> id == r.requestId {
      OnlyOnePending(s, h, id);
    }
    OnlyOnePending(s, h, r.requestId);
    assert forall h' :: Doing(s'.handlers, h').None?;
    hide PendingAt, Doing, SlotInv;
    NonePending(s, s', r, c);
  }

  lemma {:induction false} UntouchedOnSnapshot(s: System, step: Step)
    ensures OnSnapshot(s, step).server.receipts == s.server.receipts && OnSnapshot(s, step).clock == s.clock
    ensures SameActions(s.handlers, OnSnapshot(s, step).handlers)
  {
    hide FreshIds, StopTimer;
  }

  lemma {:induction false} UntouchedOnAction(s: System, step: Step)
    requires !step.ActionArrives? && !step.ActionFinishes?
    ensures OnAction(s, step).server.receipts == s.server.receipts && OnAction(s, step).clock == s.clock
    ensures OnAction(s, step).log == s.log
    ensures SameActions(s.handlers, OnAction(s, step).handlers)
  {
  }

  /** The other steps leave the receipts and the handlers in the middle of an action alone. */
  lemma {:induction false} ReceiptsUntouched(s: System, step: Step)
    requires !step.ActionArrives? && !step.ActionFinishes?
    ensures Apply(s, step).server.receipts == s.server.receipts && s.clock <= Apply(s, step).clock
    ensures SameActions(s.handlers, Apply(s, step).handlers)
  {
    hide OnSnapshot, OnAction, OnTimer;
    UntouchedOnSnapshot(s, step);
    UntouchedOnAction(s, step);
    TimerOnlyDrops(s, step);
  }

  lemma {:induction false} ReceiptStep(s: System, step: Step)
    requires SlotInv(s) && ReceiptInv(s)
    ensures ReceiptInv(Apply(s, step))
  {
    if step.ActionArrives? {
      hide ReceiptInv;
      if step.h !in s.handlers { ReceiptsOnAction(s, step.h, step.request); }
    } else if step.ActionFinishes? {
      hide ReceiptInv;
      if step.h in s.handlers && s.handlers[step.h].Acted? { ReceiptsOnFinish(s, step.h); }
    } else {
      hide Apply, ReceiptInv;
      ReceiptsUntouched(s, step);
      ReceiptsPruned(s, Apply(s, step), s.clock);
    }
  }

  /** The invariant holds after every run. */
  lemma {:induction false} RunKeepsInv(s: System, steps: seq<Step>)
    requires Inv(s)
    ensures Inv(Run(s, steps))
    decreases |steps|
  {
    hide Apply, SlotInv, TimerInv, ReceiptInv, PublishedInv, StartedInv;
    if steps != [] {
      SlotStep(s, steps[0]);
      TimerStep(s, steps[0]);
      ReceiptStep(s, steps[0]);
      PublishedStep(s, steps[0]);
      StartedStep(s, steps[0]);
      RunKeepsInv(Apply(s, steps[0]), steps[1..]);
    }
  }

  /** Handlers inside the slot, and the shutdown routine while it holds it. */
  function Holders(s: System): nat {
    |s.handlers| + if s.shutdown.HoldsSlot? then 1 else 0
  }

  /** In every reachable state the slot has at most one holder, and receipts stay within their limit. */
  lemma {:induction false} Reachable(steps: seq<Step>)
    ensures Inv(Run(START, steps))
    ensures Holders(Run(START, steps)) == (if Run(START, steps).server.slot then 1 else 0)
    ensures |Run(START, steps).server.receipts| <= MAX_RECEIPTS
  {
    RunKeepsInv(START, steps);
    hide Run;
    OneAtMost(Run(START, steps).handlers);
  }

  lemma {:induction false} OneAtMost(m: map<nat, Handler>)
    requires forall h, h' | h in m && h' in m :: h == h'
    ensures |m| == if m.Keys == {} then 0 else 1
  {
    if m.Keys != {} {
      var h :| h in m;
      assert m.Keys == {h};
      assert |m| == |m.Keys|;
    } else {
      assert |m| == |m.Keys|;
    }
  }

  // ---------- What the protocol promises ----------

  lemma {:induction false} PublishedBefore(s: System, i: nat) returns (k: nat)
    requires StartedInv(s) && i < |s.log| && s.log[i].Started?
    ensures k < i && s.log[k] == Published(s.log[i].snapshot) && RunsOn(s.log[i])
  {
    k :| 0 <= k < i && s.log[..i][k] == Published(s.log[i].snapshot);
  }

  /** At most one engine action per published snapshot, and at most one per request, ever. */
  lemma {:induction false} AtMostOnce(steps: seq<Step>, i: nat, j: nat)
    requires var log := Run(START, steps).log;
             i < |log| && j < |log| && log[i].Started? && log[j].Started?
    requires var log := Run(START, steps).log;
             log[i].snapshot.id == log[j].snapshot.id || log[i].request == log[j].request
    ensures i == j
  {
    hide Run, SlotInv, TimerInv, ReceiptInv, WasPublished;
    Reachable(steps);
    var s := Run(START, steps);
    var k := PublishedBefore(s, i);
    var l := PublishedBefore(s, j);
    assert s.log[k].snapshot.id == s.log[l].snapshot.id;
    assert k == l;
    hide PublishedInv;
    assert s.log[i].snapshot == s.log[j].snapshot;
  }

  /** The snapshot an action ran on was the current one, unexpired, when the action claimed it. */
  lemma {:induction false} StartedFromCurrent(steps: seq<Step>, i: nat) returns (n: nat)
    requires i < |Run(START, steps).log| && Run(START, steps).log[i].Started?
    ensures n < |steps|
    ensures var before := Run(START, steps[..n]);
            var e := Run(START, steps).log[i];
            && |before.log| == i && before.server.snapshot == Some(e.snapshot)
            && before.clock == e.at < e.snapshot.expiresAt
            && FindRow(e.snapshot.rows, e.request.targetId) == Some(e.row)
    decreases |steps|
  {
    assert steps != [];
    var m := |steps| - 1;
    RunSplit(START, steps[..m], steps[m..]);
    assert steps == steps[..m] + steps[m..];
    var before := Run(START, steps[..m]);
    LogStep(before, steps[m]);
    assert Run(START, steps) == Apply(before, steps[m]) by {
      assert steps[m..] == [steps[m]];
      assert Run(before, [steps[m]]) == Run(Apply(before, steps[m]), []);
    }
    if i < |before.log| {
      n := StartedFromCurrent(steps[..m], i);
      assert steps[..m][..n] == steps[..n];
    } else {
      n := m;
    }
  }

  lemma {:induction false} RunSplit(s: System, first: seq<Step>, second: seq<Step>)
    ensures Run(s, first + second) == Run(Run(s, first), second)
    decreases |first|
  {
    if first == [] {
      assert first + second == second;
    } else {
      assert (first + second)[1..] == first[1..] + second;
      RunSplit(Apply(s, first[0]), first[1..], second);
    }
  }

  /** One step logs at most one event, and an action is logged with the state it found. */
  lemma {:induction false} LogStep(s: System, step: Step)
    ensures var s' := Apply(s, step);
            && |s.log| <= |s'.log| <= |s.log| + 1 && s'.log[..|s.log|] == s.log
            && (|s'.log| > |s.log| && s'.log[|s.log|].Started? ==>
                  var e := s'.log[|s.log|];
                  && s.server.snapshot == Some(e.snapshot) && s.clock == e.at < e.snapshot.expiresAt
                  && FindRow(e.snapshot.rows, e.request.targetId) == Some(e.row))
  {
    if !step.ActionArrives? {
      hide Apply;
      QuietLog(s, step);
    } else if step.h !in s.handlers {
      hide ArriveAction;
      LogOnArrival(s, step.h, step.request);
    }
  }

  lemma {:induction false} LogOnArrival(s: System, h: nat, r: Request)
    ensures var s' := ArriveAction(s, h, r);
            s'.log == s.log
            || exists e: Event :: e.Started? && s'.log == s.log + [e]
                 && s.server.snapshot == Some(e.snapshot) && s.clock == e.at < e.snapshot.expiresAt
                 && FindRow(e.snapshot.rows, e.request.targetId) == Some(e.row)
  {
    hide Prune, Acceptable, StopTimer;
    var p := s.server.(receipts := Prune(s.server.receipts, s.clock), slot := true);
    assert Target(p, r, s.clock).Some? ==> s.server.snapshot == Some(Target(p, r, s.clock).value.1);
  }

  /** A target ID names one row of its snapshot, so the row found is the row published under it. */
  lemma {:induction false} TargetNamesOneRow(steps: seq<Step>, i: nat, row: Row)
    requires i < |Run(START, steps).log| && Run(START, steps).log[i].Started?
    requires var e := Run(START, steps).log[i]; row in e.snapshot.rows && row.targetId == e.request.targetId
    ensures row == Run(START, steps).log[i].row
  {
    hide Run, SlotInv, TimerInv, ReceiptInv, WasPublished;
    Reachable(steps);
    var k := PublishedBefore(Run(START, steps), i);
    assert DistinctTargets(Run(START, steps).log[k].snapshot.rows);
  }

  /** At most one receipt is pending, and its action is the one that holds the slot. */
  lemma {:induction false} OnePending(steps: seq<Step>, id: string, id': string)
    requires var receipts := Run(START, steps).server.receipts;
             && id in receipts && receipts[id].receipt.Pending?
             && id' in receipts && receipts[id'].receipt.Pending?
    ensures id == id'
    ensures var s := Run(START, steps); s.server.slot && exists h :: Runs(s.handlers, h, id)
  {
    hide Run, TimerInv, PublishedInv, StartedInv;
    Reachable(steps);
    var s := Run(START, steps);
    assert PendingAt(s.server.receipts, id) && PendingAt(s.server.receipts, id');
    var h :| Runs(s.handlers, h, id);
    var h' :| Runs(s.handlers, h', id');
    assert h == h';
  }

  predicate HoldsFinal(s: System, id: string, c: Cached) {
    id in s.server.receipts && s.server.receipts[id] == c && c.receipt.Final?
  }

  lemma {:induction false} FinalStep(s: System, step: Step, id: string, c: Cached)
    requires SlotInv(s) && ReceiptInv(s) && HoldsFinal(s, id, c)
    requires Apply(s, step).clock < c.expires
    ensures HoldsFinal(Apply(s, step), id, c)
  {
    if step.ActionArrives? {
      if step.h !in s.handlers { FinalOnAction(s, step.h, step.request, id, c); }
    } else if step.ActionFinishes? {
      hide Apply, SlotInv, ReceiptInv, HoldsFinal;
      FinalOnFinish(s, step.h, id, c);
    } else {
      hide Apply, SlotInv, ReceiptInv;
      ReceiptsUntouched(s, step);
    }
  }

  lemma {:induction false} FinalOnFinish(s: System, h: nat, id: string, c: Cached)
    requires ReceiptInv(s) && HoldsFinal(s, id, c)
    ensures HoldsFinal(Apply(s, ActionFinishes(h)), id, c)
  {
    assert h in s.handlers && s.handlers[h].Acted? ==> Doing(s.handlers, h) == Some(s.handlers[h].request);
  }

  lemma {:induction false} FinalOnAction(s: System, h: nat, r: Request, id: string, c: Cached)
    requires HoldsFinal(s, id, c) && s.clock < c.expires
    ensures HoldsFinal(ArriveAction(s, h, r), id, c) && ArriveAction(s, h, r).clock == s.clock
  {
    hide ArriveAction, StopTimer, RunsOn;
    var _ := ArriveEffect(s, h, r);
  }

  lemma {:induction false} ClockStep(s: System, step: Step)
    ensures s.clock <= Apply(s, step).clock
  {
    hide ArriveAction;
    if step.ActionArrives? {
      hide OnSnapshot, OnTimer;
      var _ := ArriveEffect(s, step.h, step.request);
    } else if step.ActionFinishes? {
      hide OnSnapshot, OnTimer;
    } else {
      hide Apply;
      ReceiptsUntouched(s, step);
    }
  }

  lemma {:induction false} ClockRun(s: System, steps: seq<Step>)
    ensures s.clock <= Run(s, steps).clock
    decreases |steps|
  {
    hide Apply;
    if steps != [] {
      ClockStep(s, steps[0]);
      ClockRun(Apply(s, steps[0]), steps[1..]);
    }
  }

  /** A final receipt stays as it is until its own expiry time, whatever happens meanwhile. */
  lemma {:induction false} FinalUntilExpiry(s: System, steps: seq<Step>, id: string, c: Cached)
    requires Inv(s) && HoldsFinal(s, id, c)
    requires Run(s, steps).clock < c.expires
    ensures HoldsFinal(Run(s, steps), id, c)
    decreases |steps|
  {
    hide Apply, SlotInv, TimerInv, ReceiptInv, PublishedInv, StartedInv, HoldsFinal;
    if steps != [] {
      ClockRun(Apply(s, steps[0]), steps[1..]);
      FinalStep(s, steps[0], id, c);
      RunKeepsInv(s, [steps[0]]);
      assert Run(s, [steps[0]]) == Run(Apply(s, steps[0]), []);
      FinalUntilExpiry(Apply(s, steps[0]), steps[1..], id, c);
    }
  }

  // ---------- Requests that come again ----------

  /** The receipt of a started action is still there, and is not about to lapse. */
  predicate Kept(receipts: map<string, Cached>, e: Event)
    requires e.Started?
  {
    var id := e.request.requestId;
    && id in receipts && receipts[id].receipt.request == e.request
    && (receipts[id].receipt.Final? ==> receipts[id].expires >= e.at + RECEIPT_TTL)
  }

  /** For ten minutes from its start an action keeps its receipt, and its request ID to itself. */
  ghost predicate KeptInv(s: System) {
    && (forall i | 0 <= i < |s.log| && s.log[i].Started? ::
          s.log[i].at <= s.clock && (s.clock < s.log[i].at + RECEIPT_TTL ==> Kept(s.server.receipts, s.log[i])))
    && (forall i, j | 0 <= i < j < |s.log| && s.log[i].Started? && s.log[j].Started?
                      && s.log[i].request.requestId == s.log[j].request.requestId ::
          s.log[i].at + RECEIPT_TTL <= s.log[j].at)
  }

  lemma {:induction false} KeptAfterPrune(receipts: map<string, Cached>, e: Event, now: int)
    requires e.Started? && Kept(receipts, e) && now < e.at + RECEIPT_TTL
    ensures Kept(Prune(receipts, now), e)
  {
  }

  lemma {:induction false} KeptBeside(receipts: map<string, Cached>, e: Event, id: string, c: Cached)
    requires e.Started? && Kept(receipts, e) && id !in receipts
    ensures Kept(receipts[id := c], e) && id != e.request.requestId
  {
  }

  lemma {:induction false} KeptOnRun(s: System, h: nat, r: Request, s': System, row: Row, snapshot: Snapshot)
    requires KeptInv(s) && HasEffect(s, h, r, s', Ran(row, snapshot))
    ensures KeptInv(s')
  {
    hide Prune, StopTimer, RunsOn, Kept;
    var e, c := Started(r, row, snapshot, s.clock), Cached(Pending(r), s.clock + RECEIPT_TTL);
    assert s'.log == s.log + [e] && s'.clock == s.clock;
    forall i | 0 <= i < |s.log| && s.log[i].Started? && s.clock < s.log[i].at + RECEIPT_TTL
      ensures Kept(s'.server.receipts, s.log[i]) && s.log[i].request.requestId != r.requestId
    {
      KeptAfterPrune(s.server.receipts, s.log[i], s.clock);
      KeptBeside(Prune(s.server.receipts, s.clock), s.log[i], r.requestId, c);
    }
    JustKept(s'.server.receipts, e, c);
    hide HasEffect;
  }

  lemma {:induction false} JustKept(receipts: map<string, Cached>, e: Event, c: Cached)
    requires e.Started? && e.request.requestId in receipts && receipts[e.request.requestId] == c
      && c.receipt == Pending(e.request)
    ensures Kept(receipts, e)
  {
  }

  lemma {:induction false} KeptOnAction(s: System, h: nat, r: Request)
    requires KeptInv(s)
    ensures KeptInv(ArriveAction(s, h, r))
  {
    var e := ArriveEffect(s, h, r);
    hide ArriveAction, Prune, StopTimer, RunsOn, Kept;
    if e.Ran? {
      hide KeptInv, HasEffect;
      KeptOnRun(s, h, r, ArriveAction(s, h, r), e.row, e.snapshot);
    } else {
      forall i | 0 <= i < |s.log| && s.log[i].Started? && s.clock < s.log[i].at + RECEIPT_TTL
        ensures Kept(Prune(s.server.receipts, s.clock), s.log[i])
      {
        KeptAfterPrune(s.server.receipts, s.log[i], s.clock);
      }
    }
  }

  lemma {:induction false} KeptFinal(receipts: map<string, Cached>, e: Event, r: Request, outcome: Outcome, now: int)
    requires e.Started? && Kept(receipts, e) && e.at <= now
    requires r.requestId in receipts && receipts[r.requestId].receipt == Pending(r)
    ensures Kept(receipts[r.requestId := Cached(Final(r, outcome), now + RECEIPT_TTL)], e)
  {
  }

  lemma {:induction false} KeptOnFinish(s: System, h: nat)
    requires ReceiptInv(s) && KeptInv(s) && h in s.handlers && s.handlers[h].Acted?
    ensures KeptInv(Apply(s, ActionFinishes(h)))
  {
    var r, s' := s.handlers[h].request, Apply(s, ActionFinishes(h));
    assert Doing(s.handlers, h) == Some(r);
    assert s'.log == s.log && s'.clock == s.clock;
    hide Apply, Kept;
    forall i | 0 <= i < |s.log| && s.log[i].Started? && s.clock < s.log[i].at + RECEIPT_TTL
      ensures Kept(s'.server.receipts, s.log[i])
    {
      KeptFinal(s.server.receipts, s.log[i], r, s.handlers[h].outcome, s.clock);
    }
  }

  lemma {:induction false} KeptElsewhere(s: System, s': System)
    requires KeptInv(s) && s'.server.receipts == s.server.receipts && s.clock <= s'.clock
    requires s'.log == s.log || (|s'.log| == |s.log| + 1 && s'.log[..|s.log|] == s.log && s'.log[|s.log|].Published?)
    ensures KeptInv(s')
  {
    hide Kept;
    assert forall i | 0 <= i < |s.log| :: s'.log[i] == s.log[i];
  }

  lemma {:induction false} QuietLog(s: System, step: Step)
    requires !step.ActionArrives?
    ensures var s' := Apply(s, step);
            s'.log == s.log || (|s'.log| == |s.log| + 1 && s'.log[..|s.log|] == s.log && s'.log[|s.log|].Published?)
  {
    hide FreshIds, StopTimer, OnTimer;
    TimerOnlyDrops(s, step);
  }

  lemma {:induction false} KeptStep(s: System, step: Step)
    requires ReceiptInv(s) && KeptInv(s)
    ensures KeptInv(Apply(s, step))
  {
    ClockStep(s, step);
    if step.ActionArrives? {
      if step.h !in s.handlers { KeptOnAction(s, step.h, step.request); }
    } else if step.ActionFinishes? {
      hide KeptInv, ReceiptInv;
      if step.h in s.handlers && s.handlers[step.h].Acted? { KeptOnFinish(s, step.h); }
    } else {
      hide Apply, KeptInv, ReceiptInv;
      ReceiptsUntouched(s, step);
      QuietLog(s, step);
      KeptElsewhere(s, Apply(s, step));
    }
  }

  lemma {:induction false} RunKeepsKept(s: System, steps: seq<Step>)
    requires Inv(s) && KeptInv(s)
    ensures KeptInv(Run(s, steps))
    decreases |steps|
  {
    hide Apply, SlotInv, TimerInv, ReceiptInv, PublishedInv, StartedInv, KeptInv;
    if steps != [] {
      KeptStep(s, steps[0]);
      RunKeepsInv(s, [steps[0]]);
      assert Run(s, [steps[0]]) == Run(Apply(s, steps[0]), []);
      RunKeepsKept(Apply(s, steps[0]), steps[1..]);
    }
  }

  lemma {:induction false} StartsKept()
    ensures Inv(START) && KeptInv(START)
  {
  }

  /**
   Over every run: within ten minutes of an action's start any request under its ID, the same or
   another, is answered from the receipt and runs nothing; so two actions under one request ID
   start at least ten minutes apart.
   */
  lemma {:induction false} RepeatedRequest(steps: seq<Step>, i: nat, h: nat, q: Request)
    requires var s := Run(START, steps);
             && i < |s.log| && s.log[i].Started? && s.clock < s.log[i].at + RECEIPT_TTL
             && q.requestId == s.log[i].request.requestId
    ensures var s := Run(START, steps);
            && q.requestId in s.server.receipts && s.server.receipts[q.requestId].receipt.request == s.log[i].request
            && Begin(s.server, q, s.clock).1
               == (if q == s.log[i].request then Replay(s.server.receipts[q.requestId].receipt) else Conflict)
            && var s' := Apply(s, ActionArrives(h, q));
               s'.log == s.log && s'.handlers == s.handlers && s'.server.snapshot == s.server.snapshot
  {
    hide Run, Acceptable, FindRow, StopTimer, Inv;
    StartsKept();
    RunKeepsKept(START, steps);
    var s := Run(START, steps);
    assert Kept(s.server.receipts, s.log[i]);
    KeptAfterPrune(s.server.receipts, s.log[i], s.clock);
  }

  lemma {:induction false} RequestIdsSpacedOut(steps: seq<Step>, i: nat, j: nat)
    requires var log := Run(START, steps).log;
             && i < j < |log| && log[i].Started? && log[j].Started?
             && log[i].request.requestId == log[j].request.requestId
    ensures var log := Run(START, steps).log; log[i].at + RECEIPT_TTL <= log[j].at
  {
    hide Run, Inv;
    StartsKept();
    RunKeepsKept(START, steps);
  }

  lemma {:induction false} FinishMakesFinal(s: System, h: nat)
    requires h in s.handlers && s.handlers[h].Acted?
    ensures var r := s.handlers[h].request;
            HoldsFinal(Apply(s, ActionFinishes(h)), r.requestId,
              Cached(Final(r, s.handlers[h].outcome), s.clock + RECEIPT_TTL))
  {
  }

  lemma {:induction false} FinalReplays(s: System, r: Request, outcome: Outcome, expires: int)
    requires HoldsFinal(s, r.requestId, Cached(Final(r, outcome), expires)) && s.clock < expires
    ensures Begin(s.server, r, s.clock).1 == Replay(Final(r, outcome))
  {
    hide FindRow;
    assert r.requestId in Prune(s.server.receipts, s.clock);
  }

  /** A finished request is answered with its outcome for ten minutes, over every run in between. */
  lemma {:induction false} FinishedRequestReplays(s: System, h: nat, steps: seq<Step>)
    requires Inv(s) && h in s.handlers && s.handlers[h].Acted?
    requires Run(Apply(s, ActionFinishes(h)), steps).clock < s.clock + RECEIPT_TTL
    ensures var r, later := s.handlers[h].request, Run(Apply(s, ActionFinishes(h)), steps);
            Begin(later.server, r, later.clock).1 == Replay(Final(r, s.handlers[h].outcome))
  {
    hide Apply, Inv, HoldsFinal, Begin;
    var r, s', expires := s.handlers[h].request, Apply(s, ActionFinishes(h)), s.clock + RECEIPT_TTL;
    FinishMakesFinal(s, h);
    RunKeepsInv(s, [ActionFinishes(h)]);
    assert Run(s, [ActionFinishes(h)]) == Run(s', []) == s';
    hide Run;
    FinalUntilExpiry(s', steps, r.requestId, Cached(Final(r, s.handlers[h].outcome), expires));
    FinalReplays(Run(s', steps), r, s.handlers[h].outcome, expires);
  }

  lemma {:induction false} ArrivalTakes(s: System, h: nat, r: Request)
    requires s.server.snapshot.Some? && ArriveAction(s, h, r).server.snapshot != s.server.snapshot
    ensures var s' := ArriveAction(s, h, r);
            && s'.server.snapshot.None? && |s'.log| == |s.log| + 1
            && s'.log[|s.log|].Started? && s'.log[|s.log|].snapshot == s.server.snapshot.value
  {
    hide ArriveAction, RunsOn, Prune, StopTimer;
    var _ := ArriveEffect(s, h, r);
  }

  lemma {:induction false} TimerTakes(s: System, step: Step)
    requires TimerInv(s) && s.server.snapshot.Some? && OnTimer(s, step).server.snapshot != s.server.snapshot
    ensures OnTimer(s, step).server.snapshot.None? && (step.TimerRuns? || step.StopClears?)
    ensures step.TimerRuns? ==>
      step.serial == s.server.snapshot.value.serial && s.clock >= s.server.snapshot.value.expiresAt
  {
    hide StopTimer;
  }

  lemma {:induction false} SnapshotTakes(s: System, step: Step)
    requires TimerInv(s) && s.server.snapshot.Some? && OnSnapshot(s, step).server.snapshot != s.server.snapshot
    ensures OnSnapshot(s, step).server.snapshot.None? && step.SnapshotClears?
  {
    hide StopTimer, FreshIds;
  }

  /**
   A timer callback only ever clears the snapshot it was armed for, and only once that snapshot
   has expired; while a snapshot is unexpired it goes away only for a new snapshot request, an
   action that runs on it, or the shutdown.
   */
  lemma {:induction false} SnapshotLeaves(s: System, step: Step)
    requires Inv(s) && s.server.snapshot.Some?
    requires Apply(s, step).server.snapshot != s.server.snapshot
    ensures Apply(s, step).server.snapshot.None?
    ensures step.TimerRuns? ==>
      step.serial == s.server.snapshot.value.serial && s.clock >= s.server.snapshot.value.expiresAt
    ensures step.TimerRuns? || step.SnapshotClears? || step.StopClears? || step.ActionArrives?
    ensures step.ActionArrives? ==>
      var s' := Apply(s, step);
      |s'.log| == |s.log| + 1 && s'.log[|s.log|].Started? && s'.log[|s.log|].snapshot == s.server.snapshot.value
  {
    hide OnSnapshot, OnTimer, ArriveAction, SlotInv, TimerInv, ReceiptInv, PublishedInv, StartedInv;
    if SnapshotStep(step) {
      SnapshotTakes(s, step);
    } else if ActionStep(step) {
      if step.ActionArrives? && step.h !in s.handlers { ArrivalTakes(s, step.h, step.request); }
    } else {
      TimerTakes(s, step);
    }
  }

  ghost predicate Quiet(s: System) {
    s.shutdown.Done? && s.handlers.Keys == {} && s.server.snapshot.None? && s.server.closing
  }

  lemma {:induction false} QuietStep(s: System, step: Step)
    requires SlotInv(s) && TimerInv(s) && Quiet(s)
    ensures Quiet(Apply(s, step)) && Apply(s, step).log == s.log
  {
    hide ArriveAction;
    if step.ActionArrives? { var _ := ArriveEffect(s, step.h, step.request); }
  }

  lemma {:induction false} QuietAfterStop(s: System, steps: seq<Step>)
    requires Inv(s) && s.shutdown.Done?
    ensures Quiet(Run(s, steps)) && Run(s, steps).log == s.log
    decreases |steps|
  {
    hide Apply, TimerInv, ReceiptInv, PublishedInv, StartedInv;
    if steps != [] {
      QuietStep(s, steps[0]);
      RunKeepsInv(s, [steps[0]]);
      assert Run(s, [steps[0]]) == Run(Apply(s, steps[0]), []);
      QuietAfterStop(Apply(s, steps[0]), steps[1..]);
    }
  }

  /** Once stopAndWait has returned no engine call runs, none starts, and no snapshot comes back. */
  lemma {:induction false} StoppedForGood(steps: seq<Step>, later: seq<Step>)
    requires Run(START, steps).shutdown.Done?
    ensures Quiet(Run(START, steps + later)) && Run(START, steps + later).log == Run(START, steps).log
  {
    hide Run, Inv, Quiet;
    Reachable(steps);
    RunSplit(START, steps, later);
    QuietAfterStop(Run(START, steps), later);
  }
}
