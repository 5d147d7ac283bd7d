/**
 The stream adapter of datacenter/database/wire.go: whatever sizes its caller asks for, what it
 hands out is an in-order beginning of the stream made of frames that passed as a whole.
 */
module WireStream {
  import opened Wrappers
  import opened Sequences
  import opened ByteStrings
  import opened RespGrammar
  import opened WireGuard

  const HEADER_SIZE := 16
  const OP_COMPRESSED := 2012
  const ALLOWANCE := 4 * MAX_RESULT

  // ---------- Frames ----------

  /** Four bytes, least significant first. */
  function Le32(s: Bytes, at: nat): int
    requires at + 4 <= |s|
  {
    s[at] + 0x100 * s[at + 1] + 0x1_0000 * s[at + 2] + 0x100_0000 * s[at + 3]
  }

  function NextMessage(s: Bytes): Result<Bytes, WireError> {
    if |s| < HEADER_SIZE then Failure(Io)
    else
      var size := Le32(s, 0);
      if size < HEADER_SIZE || size > MAX_RESULT then Failure(Limit)
      else if Le32(s, 12) == OP_COMPRESSED then Failure(Limit)
      else if |s| < size then Failure(Io)
      else Success(s[..size])
  }

  function NextFrame(mongo: bool, s: Bytes): (r: Result<Bytes, WireError>)
    ensures r.Success? ==> |r.value| <= |s|
  {
    if mongo then NextMessage(s) else Encoded(ParseFrame(s, 0, MAX_RESULT))
  }

  /** A complete frame that the guard lets through. */
  ghost predicate Guarded(mongo: bool, f: Bytes) {
    if mongo then HEADER_SIZE <= |f| <= MAX_RESULT && Le32(f, 0) == |f| && Le32(f, 12) != OP_COMPRESSED
    else exists frame: Frame :: Shape(frame, 0) && f == Encode(frame) && |f| <= MAX_RESULT
  }

  lemma {:induction false} MessageIs(s: Bytes, f: Bytes)
    ensures NextMessage(s) == Success(f) <==> Guarded(true, f) && f <= s
  {
    if |f| >= HEADER_SIZE && f <= s {
      assert forall i | 0 <= i < HEADER_SIZE :: f[i] == s[i];
      assert Le32(f, 0) == Le32(s, 0) && Le32(f, 12) == Le32(s, 12);
      assert s[..|f|] == f;
    }
    if NextMessage(s) == Success(f) {
      assert f <= s;
    }
  }

  lemma {:induction false} ReplyIs(s: Bytes, f: Bytes)
    ensures Encoded(ParseFrame(s, 0, MAX_RESULT)) == Success(f) <==> Guarded(false, f) && f <= s
  {
    hide ParseFrame, Shape, Encode;
    if Encoded(ParseFrame(s, 0, MAX_RESULT)) == Success(f) {
      var frame := ParseFrame(s, 0, MAX_RESULT).value;
      ParsesExactly(s, 0, MAX_RESULT, frame);
      assert Shape(frame, 0) && f == Encode(frame);
    }
    if Guarded(false, f) && f <= s {
      var frame: Frame :| Shape(frame, 0) && f == Encode(frame) && |f| <= MAX_RESULT;
      ParsesExactly(s, 0, MAX_RESULT, frame);
    }
  }

  /** The next frame is the guarded frame the stream starts with, if there is one. */
  lemma {:induction false} NextFrameIs(mongo: bool, s: Bytes, f: Bytes)
    ensures NextFrame(mongo, s) == Success(f) <==> Guarded(mongo, f) && f <= s
  {
    hide Guarded, NextMessage, ParseFrame;
    if mongo { MessageIs(s, f); } else { ReplyIs(s, f); }
  }

  // ---------- The adapter ----------

  datatype Conn = Conn(rest: Bytes, pending: Bytes, mongo: bool)

  function Serve(c: Conn, size: nat): (Conn, Bytes) {
    var n := if size < |c.pending| then size else |c.pending|;
    (c.(pending := c.pending[n..]), c.pending[..n])
  }

  function ReadStep(c: Conn, size: nat): Result<(Conn, Bytes), WireError> {
    if size == 0 then Success((c, []))
    else if c.pending != [] then Success(Serve(c, size))
    else match NextFrame(c.mongo, c.rest)
      case Failure(e) => Failure(e)
      case Success(f) => Success(Serve(Conn(c.rest[|f|..], f, c.mongo), size))
  }

  class FrameConn {
    const reader: Reader
    const mongo: bool
    var pending: Bytes

    ghost predicate Valid()
      reads this, reader
    {
      reader.Valid()
    }

    function State(): Conn
      reads this, reader
      requires Valid()
    {
      Conn(reader.Rest(), pending, mongo)
    }

    constructor (stream: Bytes, mongo: bool)
      ensures Valid() && State() == Conn(stream, [], mongo) && fresh(reader)
    {
      reader := new Reader(stream);
      this.mongo, pending := mongo, [];
      new;
      assert stream[0..] == stream;
    }

    /** Fill pending with the next frame, or leave it empty. */
    method Fill() returns (r: Result<(), WireError>)
      requires Valid() && pending == []
      modifies this, reader
      ensures Valid()
      ensures match NextFrame(mongo, old(reader.Rest()))
              case Failure(e) => r == Failure(e) && pending == []
              case Success(f) =>
                && r.Success? && pending == f
                && |f| <= |old(reader.Rest())| && reader.Rest() == old(reader.Rest())[|f|..]
    {
      hide ParseFrame;
      ghost var s := reader.Rest();
      if mongo {
        var header := reader.ReadFull(HEADER_SIZE);
        if header.Failure? {
          return Failure(header.error);
        }
        var size := Le32(header.value, 0);
        if size < HEADER_SIZE || size > MAX_RESULT {
          return Failure(Limit);
        }
        if Le32(header.value, 12) == OP_COMPRESSED {
          return Failure(Limit);
        }
        var body := reader.ReadFull(size - HEADER_SIZE);
        if body.Failure? {
          return Failure(body.error);
        }
        pending := header.value + body.value;
        assert pending == s[..size];
        assert s[HEADER_SIZE..][size - HEADER_SIZE..] == s[size..];
      } else {
        var frame := RespFrame(reader, 0, MAX_RESULT);
        match frame {
          case Failure(e) => return Failure(e);
          case Success(f) => pending := f;
        }
      }
      return Success(());
    }

    method Read(size: nat) returns (r: Result<Bytes, WireError>)
      requires Valid()
      modifies this, reader
      ensures Valid()
      ensures match ReadStep(old(State()), size)
              case Failure(e) => r == Failure(e)
              case Success((next, bytes)) => r == Success(bytes) && State() == next
    {
      hide NextFrame;
      if size == 0 {
        return Success([]);
      }
      if |pending| == 0 {
        var filled := Fill();
        if filled.Failure? {
          return Failure(filled.error);
        }
      }
      var n := if size < |pending| then size else |pending|;
      r := Success(pending[..n]);
      pending := pending[n..];
    }
  }

  // ---------- Every sequence of reads ----------

  function Concat(fs: seq<Bytes>): Bytes {
    if fs == [] then [] else fs[0] + Concat(fs[1..])
  }

  ghost predicate AllGuarded(mongo: bool, fs: seq<Bytes>) {
    forall i | 0 <= i < |fs| :: Guarded(mongo, fs[i])
  }

  datatype Outcome = Outcome(conn: Conn, delivered: Bytes, failed: bool)

  /** Reads of these sizes, one after the other, up to the first error. */
  function ReadAll(c: Conn, sizes: seq<nat>): Outcome
    decreases |sizes|
  {
    if sizes == [] then Outcome(c, [], false)
    else match ReadStep(c, sizes[0])
      case Failure(_) => Outcome(c, [], true)
      case Success((next, bytes)) =>
        var o := ReadAll(next, sizes[1..]);
        o.(delivered := bytes + o.delivered)
  }

  /** What one read does: it takes at most one guarded frame off the stream, whole. */
  lemma {:induction false} ReadStepEffect(c: Conn, size: nat) returns (taken: seq<Bytes>)
    requires ReadStep(c, size).Success?
    ensures var (next, bytes) := ReadStep(c, size).value;
            && next.mongo == c.mongo && AllGuarded(c.mongo, taken)
            && c.rest == Concat(taken) + next.rest
            && bytes + next.pending == c.pending + Concat(taken)
            && |bytes| <= size
  {
    hide NextFrame, Guarded, Serve;
    taken := [];
    if size == 0 {
      assert [] + c.rest == c.rest && [] + c.pending == c.pending + [];
    } else if c.pending != [] {
      ServeKeeps(c, size);
      assert [] + c.rest == c.rest && c.pending + [] == c.pending;
    } else {
      var f := NextFrame(c.mongo, c.rest).value;
      NextFrameIs(c.mongo, c.rest, f);
      taken := [f];
      OneFrame(c.rest, f);
      ServeKeeps(Conn(c.rest[|f|..], f, c.mongo), size);
    }
  }

  lemma {:induction false} OneFrame(s: Bytes, f: Bytes)
    requires f <= s
    ensures Concat([f]) == f == [] + f && s == f + s[|f|..]
  {
    assert Concat([f]) == f + Concat([]);
  }

  lemma {:induction false} ServeKeeps(c: Conn, size: nat)
    ensures var (next, bytes) := Serve(c, size);
            next.rest == c.rest && next.mongo == c.mongo && bytes + next.pending == c.pending && |bytes| <= size
  {
  }

  /**
   Delivered bytes and pending bytes together are whole guarded frames, taken off the stream in
   order; so no byte of a frame is handed out before all of that frame passed.
   */
  lemma {:induction false} DeliversWholeFrames(c: Conn, sizes: seq<nat>) returns (frames: seq<Bytes>)
    ensures var o := ReadAll(c, sizes);
            && AllGuarded(c.mongo, frames)
            && c.rest == Concat(frames) + o.conn.rest
            && o.delivered + o.conn.pending == c.pending + Concat(frames)
    decreases |sizes|
  {
    hide ReadStep, Guarded, Concat;
    frames := [];
    if sizes != [] && ReadStep(c, sizes[0]).Success? {
      var (next, bytes) := ReadStep(c, sizes[0]).value;
      var taken := ReadStepEffect(c, sizes[0]);
      var more := DeliversWholeFrames(next, sizes[1..]);
      var o := ReadAll(next, sizes[1..]);
      frames := taken + more;
      ConcatAppend(taken, more);
      Regroup3(Concat(taken), Concat(more), o.conn.rest);
      DeliveredSplits(bytes, o.delivered, o.conn.pending, next.pending, Concat(more), c.pending, Concat(taken));
    } else {
      NoFrames(c);
    }
  }

  lemma {:induction false} NoFrames(c: Conn)
    ensures Concat([]) == [] && c.rest == Concat([]) + c.rest && [] + c.pending == c.pending + Concat([])
  {
  }

  lemma {:induction false} DeliveredSplits(
    bytes: Bytes, later: Bytes, end: Bytes, middle: Bytes, more: Bytes, start: Bytes, taken: Bytes)
    requires bytes + middle == start + taken && later + end == middle + more
    ensures (bytes + later) + end == start + (taken + more)
  {
    calc {
      bytes + later + end;
    ==
      { Regroup3(bytes, later, end); }
      bytes + (middle + more);
    ==
      { Regroup3(bytes, middle, more); }
      (start + taken) + more;
    ==
      { Regroup3(start, taken, more); }
      start + (taken + more);
    }
  }

  lemma {:induction false} ConcatAppend(a: seq<Bytes>, b: seq<Bytes>)
    ensures Concat(a + b) == Concat(a) + Concat(b)
    decreases |a|
  {
    if a == [] {
      assert a + b == b;
    } else {
      assert (a + b)[1..] == a[1..] + b;
      ConcatAppend(a[1..], b);
    }
  }

  /** The delivered bytes are a beginning of the stream, whatever the read sizes. */
  lemma {:induction false} DeliversPrefix(stream: Bytes, mongo: bool, sizes: seq<nat>)
    ensures ReadAll(Conn(stream, [], mongo), sizes).delivered <= stream
  {
    var o := ReadAll(Conn(stream, [], mongo), sizes);
    var frames := DeliversWholeFrames(Conn(stream, [], mongo), sizes);
    assert Concat(frames) <= stream;
    assert o.delivered <= o.delivered + o.conn.pending == [] + Concat(frames) == Concat(frames);
  }

  /** With a guarded frame or pending bytes at hand a read succeeds and uses up what it hands out. */
  lemma {:induction false} ReadStepServes(
    c: Conn, size: nat, frames: seq<Bytes>, tail: Bytes)
    returns (left: seq<Bytes>)
    requires AllGuarded(c.mongo, frames) && c.rest == Concat(frames) + tail
    requires size == 0 || c.pending != [] || frames != []
    ensures ReadStep(c, size).Success?
    ensures var (next, bytes) := ReadStep(c, size).value;
            && next.mongo == c.mongo && AllGuarded(c.mongo, left) && next.rest == Concat(left) + tail
            && bytes + (next.pending + Concat(left)) == c.pending + Concat(frames)
  {
    hide NextFrame, Guarded;
    left := frames;
    var from := c;
    if size > 0 && c.pending == [] {
      var f, rest := frames[0], Concat(frames[1..]) + tail;
      left := frames[1..];
      from := Conn(rest, f, c.mongo);
      NextAfter(c.rest, f, Concat(left), tail);
      NextFrameIs(c.mongo, c.rest, f);
      assert c.pending + Concat(frames) == f + Concat(left);
    }
    ServeSplits(from, size, Concat(left));
  }

  lemma {:induction false} NextAfter(rest: Bytes, f: Bytes, more: Bytes, tail: Bytes)
    requires rest == f + more + tail
    ensures f <= rest && rest[|f|..] == more + tail
  {
  }

  lemma {:induction false} ServeSplits(c: Conn, size: nat, more: Bytes)
    ensures var (next, bytes) := Serve(c, size);
            bytes + (next.pending + more) == c.pending + more
    ensures c.pending + more == [] + (c.pending + more)
  {
    var n := if size < |c.pending| then size else |c.pending|;
    assert c.pending == c.pending[..n] + c.pending[n..];
  }

  /** An error comes only after every frame the stream starts with has been delivered in full. */
  lemma {:induction false} NoEarlyError(c: Conn, sizes: seq<nat>, frames: seq<Bytes>, tail: Bytes)
    requires AllGuarded(c.mongo, frames) && c.rest == Concat(frames) + tail
    requires ReadAll(c, sizes).failed
    ensures c.pending + Concat(frames) <= ReadAll(c, sizes).delivered
    decreases |sizes|
  {
    hide ReadStep, Guarded;
    if sizes[0] == 0 || c.pending != [] || frames != [] {
      var left := ReadStepServes(c, sizes[0], frames, tail);
      var (next, bytes) := ReadStep(c, sizes[0]).value;
      NoEarlyError(next, sizes[1..], left, tail);
      PrefixUnder(bytes, next.pending + Concat(left), ReadAll(next, sizes[1..]).delivered);
    } else {
      assert c.pending + Concat(frames) == [];
    }
  }

  lemma {:induction false} PrefixUnder(a: Bytes, b: Bytes, c: Bytes)
    requires b <= c
    ensures a + b <= a + c
  {
  }

  /** A read hands out as much as was asked for, or all that is pending, and never nothing for something. */
  lemma {:induction false} ReadGives(c: Conn, size: nat)
    requires ReadStep(c, size).Success?
    ensures var bytes := ReadStep(c, size).value.1;
            var ready := if c.pending != [] then c.pending else if size == 0 then []
              else NextFrame(c.mongo, c.rest).value;
            bytes <= ready && |bytes| == if size < |ready| then size else |ready|
  {
    hide NextFrame;
  }

  lemma {:induction false} GuardedNotEmpty(mongo: bool, f: Bytes)
    requires Guarded(mongo, f)
    ensures f != []
  {
    if !mongo {
      var frame: Frame :| Shape(frame, 0) && f == Encode(frame) && |f| <= MAX_RESULT;
      FrameSize(frame, 0);
    }
  }

  lemma {:induction false} ReadStepMoves(c: Conn, size: nat)
    requires size > 0 && ReadStep(c, size).Success?
    ensures ReadStep(c, size).value.1 != []
  {
    hide NextFrame, Guarded;
    ReadGives(c, size);
    if c.pending == [] {
      NextFrameIs(c.mongo, c.rest, NextFrame(c.mongo, c.rest).value);
      GuardedNotEmpty(c.mongo, NextFrame(c.mongo, c.rest).value);
    }
  }

  /** As many reads as there are bytes, none of them for nothing, deliver every whole frame to the last byte. */
  lemma {:induction false} DeliversAll(c: Conn, sizes: seq<nat>, frames: seq<Bytes>, tail: Bytes)
    requires AllGuarded(c.mongo, frames) && c.rest == Concat(frames) + tail
    requires |sizes| >= |c.pending| + |Concat(frames)| && forall i | 0 <= i < |sizes| :: sizes[i] > 0
    ensures c.pending + Concat(frames) <= ReadAll(c, sizes).delivered
    decreases |sizes|
  {
    hide ReadStep, Guarded;
    if c.pending == [] && frames == [] {
      assert c.pending + Concat(frames) == [];
    } else if sizes == [] {
      assert c.pending + Concat(frames) == [];
    } else {
      var left := ReadStepServes(c, sizes[0], frames, tail);
      var (next, bytes) := ReadStep(c, sizes[0]).value;
      ReadStepMoves(c, sizes[0]);
      assert |bytes| + (|next.pending| + |Concat(left)|) == |c.pending| + |Concat(frames)|;
      DeliversAll(next, sizes[1..], left, tail);
      PrefixUnder(bytes, next.pending + Concat(left), ReadAll(next, sizes[1..]).delivered);
    }
  }

  // ---------- The allowance beneath ----------

  /** deadlineConn: every socket read is cut to what is left of the allowance. */
  class DeadlineConn {
    var remaining: int
    ghost var total: int

    ghost predicate Valid()
      reads this
    {
      total + remaining == ALLOWANCE && 0 <= remaining
    }

    constructor ()
      ensures Valid() && total == 0
    {
      remaining, total := ALLOWANCE, 0;
    }

    /** The socket has arrived bytes ready for a read of any size. */
    method Read(size: nat, arrived: nat) returns (r: Result<nat, WireError>)
      requires Valid()
      modifies this
      ensures Valid() && total <= 4_194_304
      ensures r == (if old(remaining) == 0 then Failure(Limit) else Success(total - old(total)))
      ensures r.Success? ==> 0 <= r.value <= size && r.value <= arrived
      ensures r.Success? ==> (r.value == size || r.value == arrived || remaining == 0)
      ensures r.Failure? ==> total == old(total) == ALLOWANCE
    {
      if remaining <= 0 {
        return Failure(Limit);
      }
      var asked := if size > remaining then remaining else size;
      var n := if arrived < asked then arrived else asked;
      remaining := remaining - n;
      total := total + n;
      return Success(n);
    }
  }
}
