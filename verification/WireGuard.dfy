/**
 datacenter/database/wire.go: the recursive frame reader, the connection that exposes a reply
 only after all of it passed, and the byte allowance beneath them.

 The stream is everything the connection will deliver before its first error or end.
 */
module WireGuard {
  import opened Wrappers
  import opened Sequences
  import opened ByteStrings
  import opened RespGrammar

  /** A bufio.Reader of 4096 bytes over the stream. */
  class Reader {
    const stream: Bytes
    var pos: nat

    ghost predicate Valid()
      reads this
    {
      pos <= |stream|
    }

    function Rest(): Bytes
      reads this
      requires Valid()
    {
      stream[pos..]
    }

    constructor (stream: Bytes)
      ensures Valid() && pos == 0 && this.stream == stream
    {
      this.stream, pos := stream, 0;
    }

    method ReadSlice() returns (r: Result<Bytes, WireError>)
      requires Valid()
      modifies this
      ensures Valid() && r == ReadLine(old(Rest()))
      ensures r.Success? ==> |r.value| <= |old(Rest())| && Rest() == old(Rest())[|r.value|..]
    {
      r := ReadLine(Rest());
      match r {
        case Success(line) => pos := pos + |line|;
        case Failure(e) =>
      }
    }

    method ReadFull(n: nat) returns (r: Result<Bytes, WireError>)
      requires Valid()
      modifies this
      ensures Valid()
      ensures n <= |old(Rest())| ==> r == Success(old(Rest())[..n]) && Rest() == old(Rest())[n..]
      ensures n > |old(Rest())| ==> r == Failure(Io)
    {
      if n > |stream| - pos {
        pos := |stream|;
        return Failure(Io);
      }
      assert stream[pos..pos + n] == Rest()[..n] && stream[pos + n..] == Rest()[n..];
      r := Success(stream[pos..pos + n]);
      pos := pos + n;
    }
  }

  /** Bytes already gathered, followed by the encoding of the parts still to be read. */
  function Glue(out: Bytes, parts: Result<Frames, WireError>): Result<Bytes, WireError> {
    match parts
    case Failure(e) => Failure(e)
    case Success(fs) => Success(out + EncodeAll(fs))
  }

  function Encoded(frame: Result<Frame, WireError>): Result<Bytes, WireError> {
    match frame
    case Failure(e) => Failure(e)
    case Success(f) => Success(Encode(f))
  }

  lemma {:induction false} GlueStep(out: Bytes, s: Bytes, n: nat, depth: nat, budget: int)
    requires n > 0 && budget >= 0
    ensures match ParseFrame(s, depth, budget)
            case Failure(e) => Glue(out, ParseParts(s, n, depth, budget)) == Failure(e)
            case Success(f) =>
              Glue(out, ParseParts(s, n, depth, budget))
              == Glue(out + Encode(f), ParseParts(s[|Encode(f)|..], n - 1, depth, budget - |Encode(f)|))
  {
    hide ParseFrame, Encode;
    match ParseFrame(s, depth, budget) {
      case Failure(_) =>
      case Success(f) =>
        match ParseParts(s[|Encode(f)|..], n - 1, depth, budget - |Encode(f)|) {
          case Failure(_) =>
          case Success(fs) =>
            assert out + (Encode(f) + EncodeAll(fs)) == out + Encode(f) + EncodeAll(fs);
        }
    }
  }

  /** It succeeds exactly when the parser does, with exactly the bytes the frame takes. */
  method RespFrame(r: Reader, depth: nat, budget: int) returns (result: Result<Bytes, WireError>)
    requires r.Valid()
    modifies r
    ensures r.Valid()
    ensures result == Encoded(ParseFrame(old(r.Rest()), depth, budget))
    ensures result.Success? ==> |result.value| <= |old(r.Rest())| && r.Rest() == old(r.Rest())[|result.value|..]
    decreases Height(depth), 1
  {
    if depth > MAX_DEPTH || budget < 3 {
      return Failure(Limit);
    }
    var read := r.ReadSlice();
    match read {
      case Failure(e) => return Failure(e);
      case Success(line) => result := FrameBody(r, line, depth, budget);
    }
  }

  method FrameBody(r: Reader, line: Bytes, depth: nat, budget: int) returns (result: Result<Bytes, WireError>)
    requires r.Valid() && depth <= MAX_DEPTH
    modifies r
    ensures r.Valid()
    ensures result == Encoded(ParseBody(old(r.Rest()), line, depth, budget))
    ensures result.Success? ==> |line| <= |result.value| <= |line| + |old(r.Rest())|
                                && r.Rest() == old(r.Rest())[|result.value| - |line|..]
    decreases Height(depth), 0
  {
    hide Count, ParseFrame, ParseParts, ParseBulk, EncodeAll, Reader.Rest, Reader.Valid;
    if |line| < 3 || line[|line| - 2] != CR || |line| > budget {
      return Failure(Query);
    }
    if line[0] == 0x2B || line[0] == 0x2D || line[0] == 0x3A {
      return Success(line);
    }
    if line[0] != 0x24 && line[0] != 0x2A {
      return Failure(Query);
    }
    var count := Count(line);
    if count.None? || count.value < -1 {
      return Failure(Query);
    }
    var n := count.value;
    if n == -1 {
      return Success(line);
    }
    if line[0] == 0x24 {
      result := BulkBody(r, line, n, budget);
      return;
    }
    if n > MAX_PARTS {
      return Failure(Limit);
    }
    result := PartsBody(r, line, n, depth + 1, budget);
  }

  method BulkBody(r: Reader, line: Bytes, n: nat, budget: int) returns (result: Result<Bytes, WireError>)
    requires r.Valid()
    modifies r
    ensures r.Valid()
    ensures result == if n > budget - |line| - 2 then Failure(Limit)
                      else match ParseBulk(old(r.Rest()), n)
                           case Failure(e) => Failure(e)
                           case Success(data) => Success(line + data + [CR, LF])
    ensures result.Success? ==> |line| <= |result.value| <= |line| + |old(r.Rest())|
                                && r.Rest() == old(r.Rest())[|result.value| - |line|..]
  {
    if n > budget - |line| - 2 {
      return Failure(Limit);
    }
    ghost var s := r.Rest();
    var body := r.ReadFull(n + 2);
    if body.Failure? {
      return Failure(body.error);
    }
    if body.value[n] != CR || body.value[n + 1] != LF {
      return Failure(Query);
    }
    assert body.value == s[..n] + [CR, LF];
    assert line + (s[..n] + [CR, LF]) == line + s[..n] + [CR, LF];
    return Success(line + body.value);
  }

  method PartsBody(r: Reader, line: Bytes, n: nat, depth: nat, budget: int) returns (result: Result<Bytes, WireError>)
    requires r.Valid() && |line| <= budget
    modifies r
    ensures r.Valid()
    ensures result == Glue(line, ParseParts(old(r.Rest()), n, depth, budget - |line|))
    ensures result.Success? ==> |line| <= |result.value| <= |line| + |old(r.Rest())|
                                && r.Rest() == old(r.Rest())[|result.value| - |line|..]
    decreases Height(depth), 2
  {
    hide ParseFrame, ParseParts, Glue, Encode, Reader.Rest, Reader.Valid;
    var out := line;
    var i := 0;
    ghost var start := r.Rest();
    ghost var left: nat, room := n, budget - |line|;
    StartsWhole(start);
    hide LeftAfter;
    while i < n
      invariant 0 <= i <= n && r.Valid() && left == n - i
      invariant |line| <= |out| <= budget && room == budget - |out|
      invariant LeftAfter(start, |out| - |line|, r.Rest())
      invariant Glue(line, ParseParts(start, n, depth, budget - |line|))
        == Glue(out, ParseParts(r.Rest(), left, depth, room))
    {
      ghost var rest := r.Rest();
      GlueStep(out, rest, left, depth, room);
      var part := RespFrame(r, depth, budget - |out|);
      if part.Failure? {
        return Failure(part.error);
      }
      DropMore(start, |out| - |line|, rest, |part.value|);
      out := out + part.value;
      i := i + 1;
      left, room := left - 1, room - |part.value|;
    }
    NoParts(out, r.Rest(), depth, room);
    LeftIs(start, |out| - |line|, r.Rest());
    return Success(out);
  }

  lemma {:induction false} NoParts(out: Bytes, s: Bytes, depth: nat, budget: int)
    requires budget >= 0
    ensures Glue(out, ParseParts(s, 0, depth, budget)) == Success(out)
  {
    assert out + [] == out;
  }
}
