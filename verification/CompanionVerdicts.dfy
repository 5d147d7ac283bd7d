/**
 When the companion of companion/server.go does act: the verdict on every action request, told by
 what the state holds, and the rounds that go through.
 */
module CompanionVerdicts {
  import opened Wrappers
  import opened CompanionServer
  import opened CompanionProtocol

  /** A receipt that still answers: of an action that runs, or final and not yet expired. */
  predicate Live(c: Cached, now: int) {
    c.receipt.Pending? || now < c.expires
  }

  function LiveIds(receipts: map<string, Cached>, now: int): set<string> {
    set id | id in receipts && Live(receipts[id], now)
  }

  /** The current snapshot, by its ID and unexpired, lists this target. */
  predicate Listed(s: State, r: Request, now: int) {
    && s.snapshot.Some? && s.snapshot.value.id == r.snapshotId && now < s.snapshot.value.expiresAt
    && exists row :: row in s.snapshot.value.rows && row.targetId == r.targetId
  }

  predicate Free(s: State) {
    !s.slot && !s.closing
  }

  lemma {:induction false} PrunedIsLive(receipts: map<string, Cached>, now: int)
    ensures Prune(receipts, now).Keys == LiveIds(receipts, now)
    ensures |Prune(receipts, now)| == |LiveIds(receipts, now)|
    ensures forall id | id in LiveIds(receipts, now) :: Prune(receipts, now)[id] == receipts[id]
  {
    assert |Prune(receipts, now)| == |Prune(receipts, now).Keys|;
  }

  lemma {:induction false} TargetIsListed(s: State, r: Request, now: int)
    ensures Target(s, r, now).Some? <==> Listed(s, r, now)
  {
  }

  /**
   The verdict on an action request. A live receipt answers for its ID; then come the limit of 128
   receipts, the slot, and the snapshot; and a request that passes all of them runs.
   */
  lemma {:induction false} VerdictExactly(s: State, r: Request, now: int)
    ensures var v, live := Begin(s, r, now).1, LiveIds(s.receipts, now);
            && (v.Replay? <==> r.requestId in live && s.receipts[r.requestId].receipt.request == r)
            && (v.Replay? ==> v.receipt == s.receipts[r.requestId].receipt)
            && (v.Conflict? <==> r.requestId in live && s.receipts[r.requestId].receipt.request != r)
            && (v.ReceiptLimit? <==> r.requestId !in live && |live| >= 128)
            && (v.Busy? <==> r.requestId !in live && |live| < 128 && !Free(s))
            && (v.Stale? <==> r.requestId !in live && |live| < 128 && Free(s) && !Listed(s, r, now))
            && (v.Run? <==> r.requestId !in live && |live| < 128 && Free(s) && Listed(s, r, now))
            && (v.Run? ==> s.snapshot == Some(v.snapshot) && v.row in v.snapshot.rows && v.row.targetId == r.targetId)
  {
    hide Prune, Live, FindRow;
    PrunedIsLive(s.receipts, now);
    TargetIsListed(s.(receipts := Prune(s.receipts, now), slot := true), r, now);
  }

  /** What the request leaves behind: live receipts, the slot if it was taken, and no snapshot once it runs. */
  lemma {:induction false} StateAfterVerdict(s: State, r: Request, now: int)
    ensures var (s', v) := Begin(s, r, now);
            && s'.closing == s.closing
            && s'.slot == (s.slot || v.Run? || v.Stale?)
            && s'.snapshot == (if v.Run? then None else s.snapshot)
            && s'.timer == (if v.Run? then None else s.timer)
            && s'.receipts.Keys == LiveIds(s.receipts, now) + (if v.Run? then {r.requestId} else {})
            && (v.Run? ==> s'.receipts[r.requestId] == Cached(Pending(r), now + 600_000_000_000))
            && forall id | id in LiveIds(s.receipts, now) :: s'.receipts[id] == s.receipts[id]
  {
    hide Prune, Live, FindRow, Target;
    PrunedIsLive(s.receipts, now);
  }

  /** The class of outcome: what is known for certain comes only from a call that was not cut short. */
  lemma {:induction false} OutcomeExactly(contextDone: bool, err: EngineError)
    ensures OutcomeOf(contextDone, err) == Unknown <==> contextDone || err == Interrupted
    ensures OutcomeOf(contextDone, err) == Completed <==> !contextDone && err == NoError
    ensures OutcomeOf(contextDone, err) == Refused <==> !contextDone && err == SafetyRefused
  {
  }

  /** An ID is 32 lower-case hexadecimal digits. */
  predicate IsHexId(s: string) {
    |s| == 32 && forall i | 0 <= i < |s| :: '0' <= s[i] <= '9' || 'a' <= s[i] <= 'f'
  }

  /** A request with another kind of ID, or to do anything but stop and restart, is not looked at. */
  lemma {:induction false} UnacceptableIgnored(s: System, h: nat, r: Request)
    ensures Acceptable(r) <==>
      && IsHexId(r.requestId) && IsHexId(r.snapshotId) && IsHexId(r.targetId)
      && r.operation in {"stop", "restartManaged"}
    ensures !Acceptable(r) ==> Apply(s, ActionArrives(h, r)) == s
  {
    HexIdIs(r.requestId);
    HexIdIs(r.snapshotId);
    HexIdIs(r.targetId);
    hide IsId, IsHexId, Begin;
  }

  lemma {:induction false} HexIdIs(s: string)
    ensures IsId(s) <==> IsHexId(s)
  {
    forall c: char ensures c in IdChars() <==> '0' <= c <= '9' || 'a' <= c <= 'f' {
      HexChar(c);
    }
    hide IdChars;
  }

  lemma {:induction false} HexChar(c: char)
    ensures c in IdChars() <==> '0' <= c <= '9' || 'a' <= c <= 'f'
  {
    var t := IdChars();
    if '0' <= c <= '9' { assert t[(c - '0') as int] == c; }
    if 'a' <= c <= 'f' { assert t[(c - 'a') as int + 10] == c; }
  }

  // ---------- Rounds that go through ----------

  predicate Idle(s: System) {
    s.handlers == map[] && s.shutdown.NotStarted?
  }

  function SnapshotRound(h: nat, id: string, rows: seq<Row>): seq<Step> {
    [SnapshotArrives(h), SnapshotClears(h), SnapshotBuilt(h, id, rows), SnapshotPublishes(h), Releases(h)]
  }

  lemma {:induction false} RunOne(s: System, step: Step, rest: seq<Step>)
    ensures CompanionProtocol.Run(s, [step] + rest) == CompanionProtocol.Run(Apply(s, step), rest)
  {
    assert ([step] + rest)[1..] == rest;
  }

  lemma {:induction false} RunFive(s: System, steps: seq<Step>)
    requires |steps| == 5
    ensures CompanionProtocol.Run(s, steps)
         == Apply(Apply(Apply(Apply(Apply(s, steps[0]), steps[1]), steps[2]), steps[3]), steps[4])
  {
    hide Apply;
    var r4 := [steps[4]] + [];
    var r3 := [steps[3]] + r4;
    var r2 := [steps[2]] + r3;
    var r1 := [steps[1]] + r2;
    assert steps == [steps[0]] + r1;
    var s1 := Apply(s, steps[0]);
    var s2 := Apply(s1, steps[1]);
    var s3 := Apply(s2, steps[2]);
    var s4 := Apply(s3, steps[3]);
    RunOne(s, steps[0], r1);
    RunOne(s1, steps[1], r2);
    RunOne(s2, steps[2], r3);
    RunOne(s3, steps[3], r4);
    RunOne(s4, steps[4], []);
  }

  /** The first three steps build the snapshot and hold the slot. */
  lemma {:induction false} Builds(s: System, h: nat, id: string, rows: seq<Row>)
    requires SlotInv(s) && Idle(s) && FreshIds(s.used, id, rows)
    ensures var c := Apply(Apply(Apply(s, SnapshotArrives(h)), SnapshotClears(h)), SnapshotBuilt(h, id, rows));
            && c.handlers == map[h := Built(Snapshot(s.nextSerial, id, s.clock + 120_000_000_000, rows))]
            && c.clock == s.clock && c.shutdown == s.shutdown && c.server.receipts == s.server.receipts
  {
    hide FreshIds, StopTimer;
    assert s.handlers.Keys == {};
    var a := Apply(s, SnapshotArrives(h));
    assert a.handlers == map[h := SnapshotClaimed] && a.used == s.used && a.nextSerial == s.nextSerial;
    var b := Apply(a, SnapshotClears(h));
    assert b.handlers == map[h := Scanning] && b.used == s.used && b.nextSerial == s.nextSerial && b.clock == s.clock;
  }

  lemma {:induction false} Publishes(c: System, h: nat, snapshot: Snapshot)
    requires c.handlers == map[h := Built(snapshot)]
    ensures var e := Apply(Apply(c, SnapshotPublishes(h)), Releases(h));
            && e.handlers == map[] && e.clock == c.clock && e.shutdown == c.shutdown && !e.server.slot
            && e.server.receipts == c.server.receipts && e.server.snapshot == Some(snapshot)
  {
    var d := Apply(c, SnapshotPublishes(h));
    assert d.handlers == map[h := Releasing];
    assert map[h := Releasing] - {h} == map[];
  }

  /** From an idle server a snapshot request publishes its rows, for two minutes, and gives the slot back. */
  lemma {:induction false} SnapshotGoesThrough(s: System, h: nat, id: string, rows: seq<Row>)
    requires Inv(s) && Idle(s) && FreshIds(s.used, id, rows)
    ensures var after := CompanionProtocol.Run(s, SnapshotRound(h, id, rows));
            && Idle(after) && !after.server.slot && after.clock == s.clock
            && after.server.receipts == s.server.receipts
            && after.server.snapshot == Some(Snapshot(s.nextSerial, id, s.clock + 120_000_000_000, rows))
  {
    hide Apply, CompanionProtocol.Run, FreshIds, SlotInv, TimerInv, ReceiptInv, PublishedInv, StartedInv;
    RunFive(s, SnapshotRound(h, id, rows));
    Builds(s, h, id, rows);
    var c := Apply(Apply(Apply(s, SnapshotArrives(h)), SnapshotClears(h)), SnapshotBuilt(h, id, rows));
    Publishes(c, h, Snapshot(s.nextSerial, id, s.clock + 120_000_000_000, rows));
  }

  /** On an idle server an action starts exactly when its request is new, not one too many, and its target is listed. */
  lemma {:induction false} ActionStartsExactly(s: System, h: nat, r: Request)
    requires Inv(s) && Idle(s) && Acceptable(r)
    ensures var live, s' := LiveIds(s.server.receipts, s.clock), Apply(s, ActionArrives(h, r));
            && (|s'.log| == |s.log| + 1 <==> r.requestId !in live && |live| < 128 && Listed(s.server, r, s.clock))
            && (|s'.log| == |s.log| + 1 ==>
                  && s'.log[|s.log|].Started? && s'.log[|s.log|].request == r && s'.log[|s.log|].at == s.clock
                  && s.server.snapshot == Some(s'.log[|s.log|].snapshot)
                  && s'.log[|s.log|].row.targetId == r.targetId
                  && s'.handlers == map[h := Acting(r)])
  {
    hide Begin, Acceptable, StopTimer, Listed, LiveIds, TimerInv, ReceiptInv, PublishedInv, StartedInv;
    assert s.handlers.Keys == {};
    VerdictExactly(s.server, r, s.clock);
  }

  /** The timer of the current snapshot, once its time has come, takes the snapshot away. */
  lemma {:induction false} ExpiryGoesThrough(s: System, wait: nat)
    requires Inv(s) && s.server.snapshot.Some?
    requires var serial := s.server.snapshot.value.serial;
             serial in s.timers && s.timers[serial].Armed? ==> s.clock + wait >= s.timers[serial].due
    ensures var serial := s.server.snapshot.value.serial;
            CompanionProtocol.Run(s, [Tick(wait), TimerFires(serial), TimerRuns(serial)]).server.snapshot.None?
  {
    hide SlotInv, ReceiptInv, PublishedInv, StartedInv;
    var serial := s.server.snapshot.value.serial;
    assert serial in s.timers;
    hide TimerInv;
    var a := Apply(s, Tick(wait));
    var b := Apply(a, TimerFires(serial));
    var c := Apply(b, TimerRuns(serial));
    assert c.server.snapshot.None?;
    hide Apply;
    RunOne(s, Tick(wait), [TimerFires(serial), TimerRuns(serial)]);
    RunOne(a, TimerFires(serial), [TimerRuns(serial)]);
    RunOne(b, TimerRuns(serial), []);
    assert [Tick(wait), TimerFires(serial), TimerRuns(serial)]
      == [Tick(wait)] + [TimerFires(serial), TimerRuns(serial)];
    assert [TimerFires(serial), TimerRuns(serial)] == [TimerFires(serial)] + [TimerRuns(serial)];
    assert [TimerRuns(serial)] == [TimerRuns(serial)] + [];
  }
}
