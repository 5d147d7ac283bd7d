/**
 The RESP2 frames that datacenter/database/wire.go lets through, as a grammar and as a parser.

 Shape is the grammar: it says which value trees are within the limits, with no budget in it.
 ParseFrame is the order of checks in respFrame, budget threaded through every part.
 */
module RespGrammar {
  import opened Wrappers
  import opened ByteStrings

  const CR := 0x0D
  const LF := 0x0A
  const READER_SIZE := 4096
  const MAX_DEPTH := 32
  const MAX_PARTS := 2032
  const MAX_RESULT := 1_048_576

  datatype WireError = Limit | Query | Io

  /** A reply: a line of its own (also a null bulk or array), a bulk string, or an array. */
  datatype Frame =
    | Line(line: Bytes)
    | Bulk(line: Bytes, data: Bytes)
    | Multi(line: Bytes, parts: Frames)

  datatype Frames = Nil | Cons(head: Frame, tail: Frames)

  function Encode(f: Frame): Bytes {
    match f
    case Line(line) => line
    case Bulk(line, data) => line + data + [CR, LF]
    case Multi(line, parts) => line + EncodeAll(parts)
  }

  function EncodeAll(fs: Frames): Bytes {
    match fs
    case Nil => []
    case Cons(head, tail) => Encode(head) + EncodeAll(tail)
  }

  function Length(fs: Frames): nat {
    match fs
    case Nil => 0
    case Cons(_, tail) => 1 + Length(tail)
  }

  // ---------- Numbers, as strconv.ParseInt(s, 10, 64) reads them ----------

  function DigitsValue(s: Bytes): int {
    if s == [] then 0 else 10 * DigitsValue(s[..|s| - 1]) + (s[|s| - 1] - 0x30)
  }

  function ParseInt(s: Bytes): Option<int> {
    var digits := if s != [] && (s[0] == 0x2B || s[0] == 0x2D) then s[1..] else s;
    if digits == [] || !AllDigits(digits) then None
    else
      var n := if s[0] == 0x2D then -DigitsValue(digits) else DigitsValue(digits);
      if -0x8000_0000_0000_0000 <= n < 0x8000_0000_0000_0000 then Some(n) else None
  }

  function Count(line: Bytes): Option<int>
    requires |line| >= 3
  {
    ParseInt(line[1..|line| - 2])
  }

  // ---------- The grammar ----------

  predicate NoLf(s: Bytes) {
    forall i | 0 <= i < |s| :: s[i] != LF
  }

  /** A line ends in CR LF, holds no other LF, has a type byte, and fits the reader's buffer. */
  predicate IsLine(line: Bytes) {
    && 3 <= |line| <= READER_SIZE
    && line[|line| - 1] == LF && line[|line| - 2] == CR
    && NoLf(line[..|line| - 1])
  }

  predicate Inline(b: int) {
    b == 0x2B || b == 0x2D || b == 0x3A
  }

  predicate Shape(f: Frame, depth: nat) {
    && depth <= MAX_DEPTH
    && IsLine(f.line)
    && match f
       case Line(line) => Inline(line[0]) || ((line[0] == 0x24 || line[0] == 0x2A) && Count(line) == Some(-1))
       case Bulk(line, data) => line[0] == 0x24 && Count(line) == Some(|data|)
       case Multi(line, parts) =>
         && line[0] == 0x2A && Count(line) == Some(Length(parts)) && Length(parts) <= MAX_PARTS
         && ShapeAll(parts, depth + 1)
  }

  predicate ShapeAll(fs: Frames, depth: nat) {
    match fs
    case Nil => true
    case Cons(head, tail) => Shape(head, depth) && ShapeAll(tail, depth)
  }

  // ---------- Reading ----------

  function FindLf(s: Bytes): (r: Option<nat>)
    ensures r.Some? ==> r.value < |s| && s[r.value] == LF && NoLf(s[..r.value])
    ensures r.None? ==> NoLf(s)
  {
    if s == [] then None
    else if s[0] == LF then Some(0)
    else match FindLf(s[1..])
      case None => None
      case Some(n) => assert s[..n + 1] == [s[0]] + s[1..][..n]; Some(n + 1)
  }

  /** bufio's ReadSlice('\n') on a 4096-byte reader, over everything the connection will deliver. */
  function ReadLine(s: Bytes): (r: Result<Bytes, WireError>)
    ensures r.Success? ==> 0 < |r.value| <= READER_SIZE && r.value <= s && r.value[|r.value| - 1] == LF
    ensures r.Success? ==> NoLf(r.value[..|r.value| - 1])
  {
    match FindLf(s)
    case Some(n) =>
      assert s[..n + 1][..n] == s[..n];
      if n < READER_SIZE then Success(s[..n + 1]) else Failure(Limit)
    case None => if |s| >= READER_SIZE then Failure(Limit) else Failure(Io)
  }

  /** What a checked line announces: nothing more, a bulk string, or an array. */
  datatype Header = Alone | Data(size: nat) | Parts(count: nat)

  function ParseHeader(line: Bytes, budget: int): Result<Header, WireError> {
    if |line| < 3 || line[|line| - 2] != CR || |line| > budget then Failure(Query)
    else if Inline(line[0]) then Success(Alone)
    else if line[0] != 0x24 && line[0] != 0x2A then Failure(Query)
    else match Count(line)
      case None => Failure(Query)
      case Some(n) =>
        if n < -1 then Failure(Query)
        else if n == -1 then Success(Alone)
        else if line[0] == 0x24 then
          if n > budget - |line| - 2 then Failure(Limit) else Success(Data(n))
        else if n > MAX_PARTS then Failure(Limit)
        else Success(Parts(n))
  }

  /** The n bytes and CR LF of a bulk string. */
  function ParseBulk(s: Bytes, n: nat): Result<Bytes, WireError> {
    if |s| < n + 2 then Failure(Io)
    else if s[n] != CR || s[n + 1] != LF then Failure(Query)
    else Success(s[..n])
  }

  function Height(depth: nat): nat {
    if depth > MAX_DEPTH then 0 else MAX_DEPTH + 1 - depth
  }

  function ParseFrame(s: Bytes, depth: nat, budget: int): (r: Result<Frame, WireError>)
    ensures r.Success? ==> |Encode(r.value)| <= |s| && |Encode(r.value)| <= budget
    decreases Height(depth), 1, 0
  {
    if depth > MAX_DEPTH || budget < 3 then Failure(Limit)
    else match ReadLine(s)
      case Failure(e) => Failure(e)
      case Success(line) => ParseBody(s[|line|..], line, depth, budget)
  }

  function ParseBody(s: Bytes, line: Bytes, depth: nat, budget: int): (r: Result<Frame, WireError>)
    requires depth <= MAX_DEPTH
    ensures r.Success? ==> |Encode(r.value)| <= |line| + |s| && |Encode(r.value)| <= budget
    decreases Height(depth), 0, 0
  {
    match ParseHeader(line, budget)
    case Failure(e) => Failure(e)
    case Success(Alone) => Success(Line(line))
    case Success(Data(n)) =>
      (match ParseBulk(s, n)
       case Failure(e) => Failure(e)
       case Success(data) => Success(Bulk(line, data)))
    case Success(Parts(n)) =>
      (match ParseParts(s, n, depth + 1, budget - |line|)
       case Failure(e) => Failure(e)
       case Success(parts) => Success(Multi(line, parts)))
  }

  function ParseParts(s: Bytes, n: nat, depth: nat, budget: int): (r: Result<Frames, WireError>)
    requires budget >= 0
    ensures r.Success? ==> |EncodeAll(r.value)| <= |s| && |EncodeAll(r.value)| <= budget
    decreases Height(depth), 2, n
  {
    if n == 0 then Success(Nil)
    else match ParseFrame(s, depth, budget)
      case Failure(e) => Failure(e)
      case Success(part) =>
        match ParseParts(s[|Encode(part)|..], n - 1, depth, budget - |Encode(part)|)
        case Failure(e) => Failure(e)
        case Success(parts) => Success(Cons(part, parts))
  }

  // ---------- The parser accepts exactly the grammar ----------

  lemma {:induction false} FindFirstLf(line: Bytes, rest: Bytes)
    requires line != [] && line[|line| - 1] == LF && NoLf(line[..|line| - 1])
    ensures FindLf(line + rest) == Some(|line| - 1)
    decreases |line|
  {
    var s := line + rest;
    if |line| > 1 {
      var body := line[..|line| - 1];
      assert body[0] == line[0];
      assert line[1..][..|line| - 2] == body[1..];
      FindFirstLf(line[1..], rest);
      assert s[1..] == line[1..] + rest;
    }
  }

  lemma ReadsLine(line: Bytes, rest: Bytes)
    requires IsLine(line)
    ensures ReadLine(line + rest) == Success(line)
  {
    FindFirstLf(line, rest);
    assert (line + rest)[..|line|] == line;
  }

  lemma {:induction false} FrameSize(f: Frame, depth: nat)
    requires Shape(f, depth)
    ensures |Encode(f)| >= 3
  {
  }

  /** The header check and the grammar agree on what may follow a line. */
  lemma HeaderShape(f: Frame, depth: nat, budget: int)
    requires Shape(f, depth) && |Encode(f)| <= budget
    ensures ParseHeader(f.line, budget)
         == Success(match f
                    case Line(_) => Alone
                    case Bulk(_, data) => Data(|data|)
                    case Multi(_, parts) => Parts(Length(parts)))
  {
  }

  lemma {:induction false} Complete(f: Frame, rest: Bytes, depth: nat, budget: int)
    requires Shape(f, depth) && |Encode(f)| <= budget
    ensures ParseFrame(Encode(f) + rest, depth, budget) == Success(f)
    decreases f, 1
  {
    hide ParseBody, Encode, Body, IsLine, ReadLine, Count;
    var line, body := f.line, Body(f) + rest;
    FrameSize(f, depth);
    assert Encode(f) + rest == line + body;
    ReadsLine(line, body);
    assert (line + body)[|line|..] == body;
    CompleteBody(f, rest, depth, budget);
  }

  /** The bytes of a frame after its line. */
  function Body(f: Frame): (b: Bytes)
    ensures Encode(f) == f.line + b
  {
    match f
    case Line(_) => []
    case Bulk(line, data) =>
      assert line + data + [CR, LF] == line + (data + [CR, LF]);
      data + [CR, LF]
    case Multi(_, parts) => EncodeAll(parts)
  }

  lemma {:induction false} CompleteBody(f: Frame, rest: Bytes, depth: nat, budget: int)
    requires Shape(f, depth) && |Encode(f)| <= budget
    ensures ParseBody(Body(f) + rest, f.line, depth, budget) == Success(f)
    decreases f, 0
  {
    hide ParseHeader, Count, IsLine;
    HeaderShape(f, depth, budget);
    match f {
      case Line(_) =>
      case Bulk(_, data) =>
        assert (data + [CR, LF] + rest)[..|data|] == data;
      case Multi(_, parts) =>
        CompleteParts(parts, rest, depth + 1, budget - |f.line|);
    }
  }

  lemma {:induction false} CompleteParts(fs: Frames, rest: Bytes, depth: nat, budget: int)
    requires ShapeAll(fs, depth) && |EncodeAll(fs)| <= budget
    ensures ParseParts(EncodeAll(fs) + rest, Length(fs), depth, budget) == Success(fs)
    decreases fs
  {
    hide ParseFrame, Shape;
    match fs {
      case Nil =>
      case Cons(head, tail) =>
        var more := EncodeAll(tail) + rest;
        assert EncodeAll(fs) + rest == Encode(head) + more;
        Complete(head, more, depth, budget);
        assert (Encode(head) + more)[|Encode(head)|..] == more;
        CompleteParts(tail, rest, depth, budget - |Encode(head)|);
    }
  }

  lemma {:induction false} Sound(s: Bytes, depth: nat, budget: int)
    requires ParseFrame(s, depth, budget).Success?
    ensures var f := ParseFrame(s, depth, budget).value; Shape(f, depth) && Encode(f) <= s
    decreases Height(depth), 1
  {
    hide ParseBody, Shape;
    var line := ReadLine(s).value;
    assert s == line + s[|line|..];
    SoundBody(s[|line|..], line, depth, budget);
    var f := ParseFrame(s, depth, budget).value;
    assert Encode(f) == line + Body(f);
  }

  lemma {:induction false} SoundBody(s: Bytes, line: Bytes, depth: nat, budget: int)
    requires depth <= MAX_DEPTH && ParseBody(s, line, depth, budget).Success?
    requires 0 < |line| <= READER_SIZE && line[|line| - 1] == LF && NoLf(line[..|line| - 1])
    ensures var f := ParseBody(s, line, depth, budget).value;
            f.line == line && Shape(f, depth) && Body(f) <= s
    decreases Height(depth), 0
  {
    hide NoLf, ParseParts, Count;
    match ParseHeader(line, budget) {
      case Success(Data(n)) =>
        assert s[..n + 2] == s[..n] + [CR, LF];
      case Success(Parts(n)) =>
        SoundParts(s, n, depth + 1, budget - |line|);
      case _ =>
    }
  }

  lemma {:induction false} SoundParts(s: Bytes, n: nat, depth: nat, budget: int)
    requires budget >= 0 && ParseParts(s, n, depth, budget).Success?
    ensures var fs := ParseParts(s, n, depth, budget).value;
            Length(fs) == n && ShapeAll(fs, depth) && EncodeAll(fs) <= s
    decreases Height(depth), 2, n
  {
    hide ParseFrame, Shape;
    if n > 0 {
      Sound(s, depth, budget);
      var part := ParseFrame(s, depth, budget).value;
      var m := |Encode(part)|;
      assert s == Encode(part) + s[m..];
      SoundParts(s[m..], n - 1, depth, budget - m);
    }
  }

  /**
   The parser succeeds with a frame exactly when that frame is in the grammar, the stream
   starts with it, and the whole of it fits the budget.
   */
  lemma ParsesExactly(s: Bytes, depth: nat, budget: int, f: Frame)
    ensures ParseFrame(s, depth, budget) == Success(f)
       <==> Shape(f, depth) && Encode(f) <= s && |Encode(f)| <= budget
  {
    hide ParseFrame, Shape, Encode;
    if ParseFrame(s, depth, budget) == Success(f) {
      Sound(s, depth, budget);
    }
    if Shape(f, depth) && Encode(f) <= s && |Encode(f)| <= budget {
      assert s == Encode(f) + s[|Encode(f)|..];
      Complete(f, s[|Encode(f)|..], depth, budget);
    }
  }

  /** No frame is a proper beginning of another: the grammar can be read without look-ahead. */
  lemma PrefixFree(f: Frame, g: Frame, depth: nat)
    requires Shape(f, depth) && Shape(g, depth) && Encode(f) <= Encode(g)
    ensures f == g
  {
    var n := |Encode(g)|;
    ParsesExactly(Encode(g), depth, n, f);
    ParsesExactly(Encode(g), depth, n, g);
  }
}
