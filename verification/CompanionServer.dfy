/**
 The shared state of companion/server.go and its critical sections.

 Each function below is what one critical section does to the state; class Server performs it
 on its fields. Time is in nanoseconds and the clock is read once per critical section.
 */
module CompanionServer {
  import opened Wrappers

  const MAX_RECEIPTS := 128
  const SNAPSHOT_TTL := 120_000_000_000
  const RECEIPT_TTL := 600_000_000_000

  /** A row of a snapshot: the server's random name for it, and the listener it stands for. */
  datatype Row = Row(targetId: string, listener: int)

  /** serial stands for the pointer identity that the expiry timer compares. */
  datatype Snapshot = Snapshot(serial: nat, id: string, expiresAt: int, rows: seq<Row>)

  datatype Request = Request(requestId: string, snapshotId: string, targetId: string, operation: string)

  datatype Outcome = Unknown | Refused | Failed | Completed

  datatype Receipt =
    | Pending(request: Request)
    | Final(request: Request, outcome: Outcome)

  datatype Cached = Cached(receipt: Receipt, expires: int)

  datatype State = State(
    slot: bool,
    closing: bool,
    snapshot: Option<Snapshot>,
    timer: Option<nat>,
    receipts: map<string, Cached>)

  const INITIAL := State(false, false, None, None, map[])

  // ---------- What the engine may answer ----------

  /** The classes of error the action handler tells apart. */
  datatype EngineError = NoError | Interrupted | SafetyRefused | OtherError

  function OutcomeOf(contextDone: bool, err: EngineError): Outcome {
    if contextDone || err.Interrupted? then Unknown
    else if err.SafetyRefused? then Refused
    else if err.OtherError? then Failed
    else Completed
  }

  // ---------- Critical sections ----------

  function Claim(s: State): (State, bool) {
    if s.closing || s.slot then (s, false) else (s.(slot := true), true)
  }

  function Release(s: State): State {
    s.(slot := false)
  }

  function BeginClosing(s: State): State {
    s.(closing := true)
  }

  function ClearSnapshot(s: State): State {
    s.(snapshot := None, timer := None)
  }

  function Publish(s: State, snapshot: Snapshot): State {
    s.(snapshot := Some(snapshot), timer := Some(snapshot.serial))
  }

  function Expire(s: State, serial: nat): State {
    if s.snapshot.Some? && s.snapshot.value.serial == serial then ClearSnapshot(s) else s
  }

  predicate Lapsed(c: Cached, now: int) {
    c.receipt.Final? && now >= c.expires
  }

  function Prune(receipts: map<string, Cached>, now: int): map<string, Cached> {
    map id | id in receipts && !Lapsed(receipts[id], now) :: receipts[id]
  }

  function FindRow(rows: seq<Row>, targetId: string): (r: Option<Row>)
    ensures r.Some? ==> r.value in rows && r.value.targetId == targetId
    ensures r.None? ==> forall row | row in rows :: row.targetId != targetId
  {
    if rows == [] then None
    else if rows[0].targetId == targetId then Some(rows[0])
    else FindRow(rows[1..], targetId)
  }

  function IdChars(): string { "0123456789abcdef" }

  predicate IsId(s: string) {
    |s| == 32 && forall i | 0 <= i < |s| :: s[i] in IdChars()
  }

  predicate Acceptable(r: Request) {
    && IsId(r.requestId) && IsId(r.snapshotId) && IsId(r.targetId)
    && (r.operation == "stop" || r.operation == "restartManaged")
  }

  datatype Verdict =
    | Replay(receipt: Receipt)
    | Conflict
    | ReceiptLimit
    | Busy
    | Stale
    | Run(row: Row, snapshot: Snapshot)

  /** The row an action may run on: it needs the current snapshot, unexpired, and a known target. */
  function Target(s: State, r: Request, now: int): (t: Option<(Row, Snapshot)>)
    ensures t.Some? ==> s.snapshot == Some(t.value.1)
  {
    if s.snapshot.Some? && s.snapshot.value.id == r.snapshotId && now < s.snapshot.value.expiresAt then
      match FindRow(s.snapshot.value.rows, r.targetId)
      case None => None
      case Some(row) => Some((row, s.snapshot.value))
    else None
  }

  /** The first critical section of serveAction. On Stale and Run the handler holds the slot. */
  function Begin(s: State, r: Request, now: int): (State, Verdict) {
    var p := s.(receipts := Prune(s.receipts, now));
    if r.requestId in p.receipts then
      var receipt := p.receipts[r.requestId].receipt;
      (p, if receipt.request != r then Conflict else Replay(receipt))
    else if |p.receipts| >= MAX_RECEIPTS then (p, ReceiptLimit)
    else
      var (c, claimed) := Claim(p);
      if !claimed then (c, Busy)
      else match Target(c, r, now)
        case None => (c, Stale)
        case Some((row, snapshot)) =>
          (ClearSnapshot(c).(receipts := c.receipts[r.requestId := Cached(Pending(r), now + RECEIPT_TTL)]),
           Run(row, snapshot))
  }

  /** The second critical section of serveAction. */
  function Finish(s: State, r: Request, outcome: Outcome, now: int): State {
    s.(receipts := s.receipts[r.requestId := Cached(Final(r, outcome), now + RECEIPT_TTL)])
  }

  // ---------- The server object ----------

  class Server {
    var slot: bool
    var closing: bool
    var snapshot: Option<Snapshot>
    var timer: Option<nat>
    var receipts: map<string, Cached>

    function Now(): State
      reads this
    {
      State(slot, closing, snapshot, timer, receipts)
    }

    constructor ()
      ensures Now() == INITIAL
    {
      slot, closing, snapshot, timer, receipts := false, false, None, None, map[];
    }

    method ClaimWork() returns (claimed: bool)
      modifies this
      ensures (Now(), claimed) == Claim(old(Now()))
    {
      if closing {
        return false;
      }
      if slot {
        return false;
      }
      slot := true;
      return true;
    }

    method ReleaseWork()
      modifies this
      ensures Now() == Release(old(Now()))
    {
      slot := false;
    }

    method StopClaims()
      modifies this
      ensures Now() == BeginClosing(old(Now()))
    {
      closing := true;
    }

    method ClearSnapshotLocked() returns (stopped: Option<nat>)
      modifies this
      ensures Now() == ClearSnapshot(old(Now()))
      ensures stopped == old(timer)
    {
      snapshot := None;
      stopped := timer;
      if timer.Some? {
        timer := None;
      }
    }

    method PublishSnapshot(next: Snapshot)
      modifies this
      ensures Now() == Publish(old(Now()), next)
    {
      snapshot := Some(next);
      timer := Some(next.serial);
    }

    /** The body of the timer callback, closed over the snapshot it was armed for. */
    method TimerCallback(serial: nat)
      modifies this
      ensures Now() == Expire(old(Now()), serial)
    {
      if snapshot.Some? && snapshot.value.serial == serial {
        snapshot := None;
        timer := None;
      }
    }

    method PruneReceipts(now: int)
      modifies this
      ensures Now() == old(Now()).(receipts := Prune(old(receipts), now))
    {
      var ids := receipts.Keys;
      var before := receipts;
      while ids != {}
        invariant Now() == old(Now()).(receipts := receipts)
        invariant ids <= before.Keys
        invariant receipts == map id | id in before && (id in ids || !Lapsed(before[id], now)) :: before[id]
        decreases ids
      {
        var id :| id in ids;
        if receipts[id].receipt.Final? && !(now < receipts[id].expires) {
          receipts := receipts - {id};
        }
        ids := ids - {id};
      }
    }

    method FindTarget(rows: seq<Row>, targetId: string) returns (found: bool, row: Row)
      ensures (if found then Some(row) else None) == FindRow(rows, targetId)
    {
      found, row := false, Row("", 0);
      var i := 0;
      while i < |rows|
        invariant 0 <= i <= |rows|
        invariant FindRow(rows, targetId) == FindRow(rows[i..], targetId)
      {
        if rows[i].targetId == targetId {
          return true, rows[i];
        }
        i := i + 1;
      }
    }

    method BeginAction(request: Request, now: int) returns (verdict: Verdict)
      modifies this
      ensures (Now(), verdict) == Begin(old(Now()), request, now)
    {
      PruneReceipts(now);
      if request.requestId in receipts {
        var cached := receipts[request.requestId];
        if cached.receipt.request != request {
          return Conflict;
        }
        return Replay(cached.receipt);
      }
      if |receipts| >= MAX_RECEIPTS {
        return ReceiptLimit;
      }
      var claimed := ClaimWork();
      if !claimed {
        return Busy;
      }
      var found, row := false, Row("", 0);
      if snapshot.Some? && snapshot.value.id == request.snapshotId && now < snapshot.value.expiresAt {
        found, row := FindTarget(snapshot.value.rows, request.targetId);
      }
      if !found {
        return Stale;
      }
      var current := snapshot.value;
      var _ := ClearSnapshotLocked();
      receipts := receipts[request.requestId := Cached(Pending(request), now + RECEIPT_TTL)];
      return Run(row, current);
    }

    method FinishAction(request: Request, contextDone: bool, err: EngineError, now: int)
      modifies this
      ensures Now() == Finish(old(Now()), request, OutcomeOf(contextDone, err), now)
    {
      var outcome := Completed;
      if contextDone || err.Interrupted? {
        outcome := Unknown;
      } else if err.SafetyRefused? {
        outcome := Refused;
      } else if err.OtherError? {
        outcome := Failed;
      }
      receipts := receipts[request.requestId := Cached(Final(request, outcome), now + RECEIPT_TTL)];
    }
  }
}
