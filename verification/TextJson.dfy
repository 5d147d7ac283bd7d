/**
 prettyTextJSON of tools/text.go: one flat loop over the bytes that reformats a JSON text,
 writing through an output that refuses to grow past 1 MiB.
 */
module TextJson {
  import opened Wrappers
  import opened ByteStrings
  import opened JsonGrammar
  import opened JsonLexer
  import opened JsonPrinter
  import opened JsonNesting

  const TEXT_MAXIMUM_BYTES := 1_048_576

  datatype TextError =
    | InputTooLarge
    | OutputTooLarge
    | InvalidUtf8
    | InvalidJson
    | NestingTooDeep
    | InvalidBase64
    | InvalidPercentEncoding

  class BoundedTextOutput {
    var bytes: Units

    constructor ()
      ensures bytes == []
    {
      bytes := [];
    }

    method Append(addition: Units) returns (ok: bool)
      modifies this
      ensures ok <==> |old(bytes)| + |addition| <= TEXT_MAXIMUM_BYTES
      ensures bytes == if ok then old(bytes) + addition else old(bytes)
    {
      if |addition| > TEXT_MAXIMUM_BYTES - |bytes| {
        return false;
      }
      bytes := bytes + addition;
      return true;
    }

    method Newline(depth: int) returns (ok: bool)
      modifies this
      ensures ok <==> |old(bytes)| + |NewLine(depth)| <= TEXT_MAXIMUM_BYTES
      ensures ok ==> bytes == old(bytes) + NewLine(depth)
    {
      hide NewLine;
      ghost var before := bytes;
      ok := Append([0x0A]);
      NewLineGrows(0, depth);
      if !ok {
        return false;
      }
      var index := 0;
      while index < depth
        invariant 0 <= index && (index <= depth || (index == 0 && depth < 0))
        invariant bytes == before + NewLine(index) && |bytes| <= TEXT_MAXIMUM_BYTES
      {
        NewLineStep(index);
        ok := Append([0x20, 0x20, 0x20, 0x20]);
        if !ok {
          NewLineGrows(index + 1, depth);
          return false;
        }
        index := index + 1;
      }
      return true;
    }
  }

  lemma NewLineStep(depth: nat)
    ensures NewLine(depth + 1) == NewLine(depth) + [0x20, 0x20, 0x20, 0x20]
  {
  }

  lemma NewLineGrows(less: nat, depth: int)
    ensures NewLine(0) == [LF] && |NewLine(depth)| >= 1
    ensures less <= depth ==> |NewLine(less)| <= |NewLine(depth)|
    ensures depth < 0 ==> NewLine(depth) == NewLine(0)
  {
  }

  /** The outcome of writing a piece: appended whole, or refused because it does not fit. */
  ghost predicate Wrote(before: Units, after: Units, ok: bool, piece: Units) {
    && (ok ==> after == before + piece)
    && (!ok ==> |before| + |piece| > TEXT_MAXIMUM_BYTES)
  }

  lemma WroteBoth(before: Units, middle: Units, after: Units, ok: bool, first: Units, second: Units)
    requires Wrote(before, middle, true, first) && Wrote(middle, after, ok, second)
    ensures Wrote(before, after, ok, first + second)
  {
    assert before + first + second == before + (first + second);
  }

  lemma WroteSome(before: Units, after: Units, first: Units, second: Units)
    requires Wrote(before, after, false, first)
    ensures Wrote(before, after, false, first + second)
  {
  }

  // ---------- Scanning steps ----------

  lemma FirstUnit(s: Units, toks: seq<Token>)
    requires s != [] && !IsAsciiSpace(s[0]) && Lex(s) == Some(toks)
    ensures toks != []
    ensures s[0] == 0x7B <==> toks[0] == Open(Object)
    ensures s[0] == 0x5B <==> toks[0] == Open(Array)
    ensures s[0] == 0x7D <==> toks[0] == Close(Object)
    ensures s[0] == 0x5D <==> toks[0] == Close(Array)
    ensures s[0] == 0x2C <==> toks[0] == Comma
    ensures s[0] == 0x3A <==> toks[0] == Colon
    ensures s[0] == QUOTE <==> toks[0].Str?
  {
  }

  /** The text from index on lexes to these tokens. */
  ghost predicate LexesTo(input: Units, index: nat, toks: seq<Token>) {
    index <= |input| && Lex(input[index..]) == Some(toks)
  }

  method SkipSpaces(input: Units, start: nat) returns (next: nat)
    requires start <= |input|
    ensures start <= next <= |input|
    ensures next < |input| ==> !IsAsciiSpace(input[next])
    ensures Lex(input[next..]) == Lex(input[start..])
  {
    next := start;
    while next < |input| && IsAsciiSpace(input[next])
      invariant start <= next <= |input|
      invariant Lex(input[next..]) == Lex(input[start..])
    {
      assert input[next..][1..] == input[next + 1..];
      next := next + 1;
    }
  }

  ghost predicate ClosesAt(input: Units, index: nat, close: nat) {
    index <= close < |input| && StringSpan(input[index..]) == Some(close - index)
  }

  lemma SpanStep(input: Units, index: nat, close: nat)
    requires ClosesAt(input, index, close) && input[index] != QUOTE
    ensures ClosesAt(input, index + (if input[index] == BACKSLASH then 2 else 1), close)
  {
    var s := input[index..];
    var skip := if input[index] == BACKSLASH then 2 else 1;
    assert StringSpan(s[skip..]) == Some(close - index - skip);
    assert s[skip..] == input[index + skip..];
  }

  lemma ClosedAt(input: Units, index: nat, close: nat)
    requires ClosesAt(input, index, close) && input[index] == QUOTE
    ensures index == close
  {
    assert StringSpan(input[index..]) == Some(0);
  }

  method SkipString(input: Units, start: nat) returns (index: nat)
    requires start < |input| && StringSpan(input[start + 1..]).Some?
    ensures index == start + 1 + StringSpan(input[start + 1..]).value < |input|
  {
    hide StringSpan;
    index := start + 1;
    ghost var close := start + 1 + StringSpan(input[start + 1..]).value;
    while input[index] != QUOTE
      invariant ClosesAt(input, index, close)
      decreases |input| - index
    {
      SpanStep(input, index, close);
      if input[index] == BACKSLASH {
        index := index + 1;
      }
      index := index + 1;
    }
    ClosedAt(input, index, close);
  }

  method SkipPrim(input: Units, start: nat) returns (index: nat)
    requires start < |input| && !EndsPrim(input[start])
    ensures start <= index < |input|
    ensures index + 1 - start == PrimSpan(input[start..])
  {
    index := start;
    assert input[start..][1..] == input[start + 1..];
    while index + 1 < |input| && !IsAsciiSpace(input[index + 1])
          && input[index + 1] != 0x2C && input[index + 1] != 0x5D && input[index + 1] != 0x7D
      invariant start <= index < |input|
      invariant PrimSpan(input[start..]) == index + 1 - start + PrimSpan(input[index + 1..])
    {
      assert input[index + 1..][1..] == input[index + 2..];
      index := index + 1;
    }
  }

  /** previous, the first byte of the token before, tells whether that token opened a container. */
  ghost predicate Remembers(previous: int, prev: Option<Token>) {
    (previous == 0x7B <==> prev == Some(Open(Object))) && (previous == 0x5B <==> prev == Some(Open(Array)))
  }

  lemma PunctuationAt(input: Units, start: nat, toks: seq<Token>)
    requires start < |input| && PunctuationOf(input[start]).Some?
    requires LexesTo(input, start, toks)
    ensures toks != [] && PunctuationOf(input[start]) == Some(toks[0]) && LexesTo(input, start + 1, toks[1..])
  {
    var s := input[start..];
    assert s[1..] == input[start + 1..];
    assert Lex(s) == Prepend(PunctuationOf(s[0]).value, Lex(s[1..]));
  }

  lemma {:induction false} Pieces(prev: Option<Token>, k: Kind, next: Option<Token>, depth: int)
    ensures Piece(prev, Open(k), next, depth)
         == if next == Some(Close(k)) then [OpenUnit(k)] else [OpenUnit(k)] + NewLine(depth + 1)
    ensures Piece(prev, Close(k), next, depth)
         == if prev == Some(Open(k)) then [CloseUnit(k)] else NewLine(depth - 1) + [CloseUnit(k)]
    ensures Piece(prev, Comma, next, depth) == [0x2C] + NewLine(depth)
    ensures Piece(prev, Colon, next, depth) == [0x3A, 0x20]
  {
    Ends([OpenUnit(k)], After(Open(k), next, depth));
    Ends(Before(prev, Close(k), depth), [CloseUnit(k)]);
    Ends([0x2C], NewLine(depth));
    Ends([0x3A], [0x20]);
  }

  lemma LexemePiece(prev: Option<Token>, t: Token, next: Option<Token>, depth: int)
    requires t.Str? || t.Prim?
    ensures Piece(prev, t, next, depth) == Spell(t)
  {
    Ends([], Spell(t));
  }

  /** What the first unit of a token tells about it. */
  lemma SeesToken(input: Units, start: nat, toks: seq<Token>, depth: int)
    requires start < |input| && !IsAsciiSpace(input[start]) && LexesTo(input, start, toks)
    ensures toks != []
    ensures if PunctuationOf(input[start]).Some?
            then PunctuationOf(input[start]) == Some(toks[0]) && LexesTo(input, start + 1, toks[1..])
            else toks[0].Str? || toks[0].Prim?
    ensures Balanced(toks, depth) && toks[0].Open? ==> |toks| >= 2
  {
    assert input[start..][0] == input[start];
    FirstUnit(input[start..], toks);
    if PunctuationOf(input[start]).Some? {
      PunctuationAt(input, start, toks);
    }
    if Balanced(toks, depth) && toks[0].Open? {
      assert Balanced(toks[1..], depth + 1);
    }
  }

  lemma Ends(a: Units, b: Units)
    ensures [] + a + b == a + b == a + b + []
    ensures b == [] ==> a + b == a
    ensures a == [] ==> a + b == b
  {
  }

  lemma SeesClose(input: Units, next: nat, toks: seq<Token>, k: Kind)
    requires LexesTo(input, next, toks) && toks != [] && (next < |input| ==> !IsAsciiSpace(input[next]))
    ensures next < |input| && (input[next] == CloseUnit(k) <==> toks[0] == Close(k))
  {
    var s := input[next..];
    assert s != [];
    FirstUnit(s, toks);
    assert s[0] == input[next];
  }

  method EmitOpen(output: BoundedTextOutput, input: Units, start: nat, depth: int,
                  ghost prev: Option<Token>, ghost toks: seq<Token>) returns (ok: bool)
    requires start < |input| && |toks| >= 2 && toks[0].Open? && OpenUnit(toks[0].kind) == input[start]
    requires LexesTo(input, start + 1, toks[1..])
    modifies output
    ensures Wrote(old(output.bytes), output.bytes, ok, Piece(prev, toks[0], Some(toks[1]), depth))
  {
    ghost var k := toks[0].kind;
    assert toks[0] == Open(k);
    Pieces(prev, k, Some(toks[1]), depth);
    ghost var before := output.bytes;
    ok := output.Append([input[start]]);
    assert Wrote(before, output.bytes, ok, [OpenUnit(k)]);
    var next := SkipSpaces(input, start + 1);
    var closing: int := 0x7D;
    if input[start] == 0x5B {
      closing := 0x5D;
    }
    SeesClose(input, next, toks[1..], k);
    assert closing == CloseUnit(k);
    if ok && input[next] != closing {
      ghost var middle := output.bytes;
      ok := output.Newline(depth + 1);
      WroteBoth(before, middle, output.bytes, ok, [OpenUnit(k)], NewLine(depth + 1));
    } else if !ok {
      WroteSome(before, output.bytes, [OpenUnit(k)], NewLine(depth + 1));
    }
  }

  method EmitClose(output: BoundedTextOutput, value: int, previous: int, depth: int,
                   ghost prev: Option<Token>, ghost t: Token, ghost next: Option<Token>) returns (ok: bool)
    requires value == 0x7D || value == 0x5D
    requires t.Close? && CloseUnit(t.kind) == value && Remembers(previous, prev)
    modifies output
    ensures Wrote(old(output.bytes), output.bytes, ok, Piece(prev, t, next, depth))
  {
    var opening: int := 0x7B;
    if value == 0x5D {
      opening := 0x5B;
    }
    hide *;
    ghost var before, lead := output.bytes, Lead(previous != opening, depth - 1);
    ClosePiece(value, previous, depth, prev, t, next);
    ok := EmitLead(output, previous != opening, depth - 1);
    ghost var middle := output.bytes;
    if ok {
      ok := EmitUnit(output, value);
      WroteBoth(before, middle, output.bytes, ok, lead, [value]);
    } else {
      WroteSome(before, middle, lead, [value]);
    }
  }

  /** What stands before a closing bracket: a new line unless the container is empty. */
  function Lead(newline: bool, depth: int): Units {
    if newline then NewLine(depth) else []
  }

  lemma {:induction false} ClosePiece(
    value: int, previous: int, depth: int, prev: Option<Token>, t: Token, next: Option<Token>)
    requires t.Close? && CloseUnit(t.kind) == value && Remembers(previous, prev)
    ensures var opening: int := if value == 0x5D then 0x5B else 0x7B;
            Piece(prev, t, next, depth) == Lead(previous != opening, depth - 1) + [value]
  {
    hide NewLine;
    assert t == Close(t.kind);
    Ends(Before(prev, t, depth), [value]);
  }

  method EmitLead(output: BoundedTextOutput, newline: bool, depth: int) returns (ok: bool)
    modifies output
    ensures Wrote(old(output.bytes), output.bytes, ok, Lead(newline, depth))
  {
    hide NewLine;
    ok := true;
    if newline {
      ok := output.Newline(depth);
    } else {
      assert output.bytes == output.bytes + [];
    }
  }

  method EmitUnit(output: BoundedTextOutput, value: int) returns (ok: bool)
    modifies output
    ensures Wrote(old(output.bytes), output.bytes, ok, [value])
  {
    ok := output.Append([value]);
  }

  method EmitComma(output: BoundedTextOutput, depth: int, ghost prev: Option<Token>, ghost next: Option<Token>)
    returns (ok: bool)
    modifies output
    ensures Wrote(old(output.bytes), output.bytes, ok, Piece(prev, Comma, next, depth))
  {
    Pieces(prev, Object, next, depth);
    ghost var before := output.bytes;
    ok := output.Append([0x2C]);
    ghost var middle := output.bytes;
    assert Wrote(before, middle, ok, [0x2C]);
    if ok {
      ok := output.Newline(depth);
      WroteBoth(before, middle, output.bytes, ok, [0x2C], NewLine(depth));
    } else {
      WroteSome(before, middle, [0x2C], NewLine(depth));
    }
  }

  lemma LexLexeme(s: Units, toks: seq<Token>)
    requires s != [] && !IsAsciiSpace(s[0]) && Lex(s) == Some(toks) && toks != []
    requires toks[0].Str? || toks[0].Prim?
    ensures FirstToken(s) == Some(toks[0]) && Lex(s[|Spell(toks[0])|..]) == Some(toks[1..])
    ensures toks[0].Str? <==> s[0] == QUOTE
    ensures toks[0].Str? ==> StringSpan(s[1..]).Some? && |Spell(toks[0])| == StringSpan(s[1..]).value + 2
    ensures toks[0].Prim? ==> !EndsPrim(s[0]) && |Spell(toks[0])| == PrimSpan(s)
  {
    var t := FirstToken(s).value;
    assert Lex(s) == Prepend(t, Lex(s[|Spell(t)|..]));
  }

  /** Copy a string, number or literal byte for byte. */
  method EmitLexeme(output: BoundedTextOutput, input: Units, start: nat, ghost toks: seq<Token>)
    returns (ok: bool, index: nat)
    requires start < |input| && !IsAsciiSpace(input[start])
    requires LexesTo(input, start, toks) && toks != [] && (toks[0].Str? || toks[0].Prim?)
    modifies output
    ensures start <= index < |input|
    ensures LexesTo(input, index + 1, toks[1..])
    ensures Wrote(old(output.bytes), output.bytes, ok, Spell(toks[0]))
  {
    hide Lex, StringSpan, PrimSpan;
    ghost var s := input[start..];
    LexLexeme(s, toks);
    assert s[1..] == input[start + 1..];
    if input[start] == QUOTE {
      index := SkipString(input, start);
    } else {
      index := SkipPrim(input, start);
    }
    assert s[..index + 1 - start] == input[start..index + 1];
    assert s[index + 1 - start..] == input[index + 1..];
    ok := output.Append(input[start..index + 1]);
  }

  /**
   The switch of the printing loop: it writes the piece of the token that starts at index and
   stops on the token's last byte.
   */
  method EmitToken(output: BoundedTextOutput, input: Units, start: nat, depth: int, previous: int,
                   ghost prev: Option<Token>, ghost toks: seq<Token>)
    returns (ok: bool, index: nat, depthAfter: int)
    requires start < |input| && !IsAsciiSpace(input[start])
    requires LexesTo(input, start, toks) && Balanced(toks, depth)
    requires Remembers(previous, prev)
    modifies output
    ensures toks != []
    ensures start <= index < |input|
    ensures depthAfter == DepthAfter(toks[0], depth)
    ensures LexesTo(input, index + 1, toks[1..])
    ensures Remembers(input[start], Some(toks[0]))
    ensures Wrote(old(output.bytes), output.bytes, ok, Piece(prev, toks[0], Next(toks), depth))
  {
    hide Lex, Indent, NewLine, Before, After;
    var value := input[start];
    SeesToken(input, start, toks, depth);
    index, depthAfter := start, depth;
    if value == 0x7B || value == 0x5B {
      depthAfter := depth + 1;
      ok := EmitOpen(output, input, start, depth, prev, toks);
    } else if value == 0x7D || value == 0x5D {
      depthAfter := depth - 1;
      ok := EmitClose(output, value, previous, depth, prev, toks[0], Next(toks));
    } else if value == 0x2C {
      ok := EmitComma(output, depth, prev, Next(toks));
    } else if value == 0x3A {
      Pieces(prev, Object, Next(toks), depth);
      ok := output.Append([0x3A, 0x20]);
    } else {
      LexemePiece(prev, toks[0], Next(toks), depth);
      ok, index := EmitLexeme(output, input, start, toks);
    }
  }

  // ---------- The whole transform ----------

  /** The complete text, or nothing when it would not fit. */
  function Bounded(text: Units): Result<Units, TextError> {
    if |text| <= TEXT_MAXIMUM_BYTES then Success(text) else Failure(OutputTooLarge)
  }

  /** What is written so far and what the tokens to come will add make up the total. */
  ghost predicate OnTrack(written: Units, prev: Option<Token>, toks: seq<Token>, depth: int, total: Units) {
    Balanced(toks, depth) && written + FormatFrom(prev, toks, depth) == total
  }

  lemma FormatStepAt(
    before: Units, after: Units, ok: bool, prev: Option<Token>, toks: seq<Token>, depth: int, total: Units)
    requires toks != [] && OnTrack(before, prev, toks, depth, total)
    requires Wrote(before, after, ok, Piece(prev, toks[0], Next(toks), depth))
    ensures ok ==> OnTrack(after, Some(toks[0]), toks[1..], DepthAfter(toks[0], depth), total)
    ensures !ok ==> |total| > TEXT_MAXIMUM_BYTES
  {
    var piece := Piece(prev, toks[0], Next(toks), depth);
    var rest := FormatFrom(Some(toks[0]), toks[1..], DepthAfter(toks[0], depth));
    assert before + piece + rest == before + (piece + rest);
  }

  lemma StartsOnTrack(input: Units, v: Value)
    requires IsTextOf(input, v)
    ensures WellFormed(v)
    ensures LexesTo(input, 0, Tokens(v)) && OnTrack([], None, Tokens(v), 0, Pretty(v, 0))
  {
    LexReadsTokens(input, v);
    assert input[0..] == input;
    assert exists gaps: seq<Units> :: Derives(input, v, gaps);
    TreesBalance(v);
    TokenLoopPrintsTree(v);
    assert [] + Pretty(v, 0) == Pretty(v, 0);
  }

  lemma EndsOnTrack(input: Units, depth: int, previous: int, written: Units,
                    prev: Option<Token>, toks: seq<Token>, total: Units)
    requires Tracks(input, |input|, depth, previous, written, prev, toks, total)
    ensures written == total && depth == 0
  {
    assert input[|input|..] == [];
    assert written + [] == written;
  }

  lemma LexesToSkip(input: Units, index: nat, toks: seq<Token>)
    requires LexesTo(input, index, toks) && index < |input| && IsAsciiSpace(input[index])
    ensures LexesTo(input, index + 1, toks)
  {
    assert input[index..][1..] == input[index + 1..];
  }

  /** The loop's state between two bytes. */
  ghost predicate Tracks(input: Units, index: nat, depth: int, previous: int, written: Units,
                         prev: Option<Token>, toks: seq<Token>, total: Units) {
    && LexesTo(input, index, toks)
    && Remembers(previous, prev)
    && OnTrack(written, prev, toks, depth, total)
  }

  lemma SkipTracks(input: Units, index: nat, depth: int, previous: int, written: Units,
                   prev: Option<Token>, toks: seq<Token>, total: Units)
    requires Tracks(input, index, depth, previous, written, prev, toks, total)
    requires index < |input| && IsAsciiSpace(input[index])
    ensures Tracks(input, index + 1, depth, previous, written, prev, toks, total)
  {
    LexesToSkip(input, index, toks);
  }

  lemma Start(input: Units, v: Value) returns (toks: seq<Token>)
    requires IsTextOf(input, v)
    ensures Tracks(input, 0, 0, 0, [], None, toks, Pretty(v, 0))
  {
    toks := Tokens(v);
    StartsOnTrack(input, v);
  }

  method PrintToken(output: BoundedTextOutput, input: Units, start: nat, depth: int, previous: int,
                    ghost prev: Option<Token>, ghost toks: seq<Token>, ghost total: Units)
    returns (ok: bool, index: nat, depthAfter: int)
    requires start < |input| && !IsAsciiSpace(input[start])
    requires Tracks(input, start, depth, previous, output.bytes, prev, toks, total)
    modifies output
    ensures toks != [] && start <= index < |input|
    ensures ok ==> Tracks(input, index + 1, depthAfter, input[start], output.bytes, Some(toks[0]), toks[1..], total)
    ensures !ok ==> |total| > TEXT_MAXIMUM_BYTES
  {
    ghost var before := output.bytes;
    ok, index, depthAfter := EmitToken(output, input, start, depth, previous, prev, toks);
    FormatStepAt(before, output.bytes, ok, prev, toks, depth, total);
  }

  method Finish(output: BoundedTextOutput) returns (r: Result<Units, TextError>)
    modifies output
    ensures r == Bounded(old(output.bytes) + [LF])
  {
    var ok := output.Append([LF]);
    if !ok {
      return Failure(OutputTooLarge);
    }
    return Success(output.bytes);
  }

  lemma BoundedFails(total: Units)
    requires |total| > TEXT_MAXIMUM_BYTES
    ensures Bounded(total + [LF]) == Failure(OutputTooLarge)
  {
  }

  /** The loop that prints. A tree of the text tells it in advance what it will have printed. */
  method PrintLoop(input: Units, ghost v: Value) returns (r: Result<Units, TextError>)
    requires IsTextOf(input, v)
    ensures r == Bounded(Pretty(v, 0) + [LF])
  {
    hide *;
    ghost var total := Pretty(v, 0);
    ghost var prev: Option<Token> := None;
    ghost var toks := Start(input, v);
    var output := new BoundedTextOutput();
    var depth := 0;
    var previous: int := 0;
    var index := 0;
    while index < |input|
      invariant index <= |input|
      invariant Tracks(input, index, depth, previous, output.bytes, prev, toks, total)
      decreases |input| - index
    {
      var value := input[index];
      if IsAsciiSpace(value) {
        SkipTracks(input, index, depth, previous, output.bytes, prev, toks, total);
        index := index + 1;
      } else {
        var ok, last, depthAfter := PrintToken(output, input, index, depth, previous, prev, toks, total);
        if !ok {
          BoundedFails(total);
          return Failure(OutputTooLarge);
        }
        prev, toks := Some(toks[0]), toks[1..];
        index, depth, previous := last + 1, depthAfter, value;
      }
    }
    EndsOnTrack(input, depth, previous, output.bytes, prev, toks, total);
    r := Finish(output);
  }

  method ScanDepth(input: Units) returns (tooDeep: bool)
    ensures tooDeep <==> TooDeep(input, 0, false, false)
  {
    var depth := 0;
    var quoted, escaped := false, false;
    for index := 0 to |input|
      invariant TooDeep(input, 0, false, false) == TooDeep(input[index..], depth, quoted, escaped)
    {
      var value := input[index];
      assert input[index..][0] == value && input[index..][1..] == input[index + 1..];
      if quoted {
        if escaped {
          escaped := false;
        } else if value == BACKSLASH {
          escaped := true;
        } else if value == QUOTE {
          quoted := false;
        }
      } else if value == QUOTE {
        quoted := true;
      } else if value == 0x7B || value == 0x5B {
        depth := depth + 1;
        if depth > MAX_DEPTH {
          return true;
        }
      } else if value == 0x7D || value == 0x5D {
        depth := depth - 1;
      }
    }
    return false;
  }

  /**
   The json transform. valid is the answer of the grammar check json.Valid, which the loop
   relies on for every index it reads.
   */
  method PrettyTextJson(input: Units, valid: bool) returns (r: Result<Units, TextError>)
    requires valid <==> IsJsonText(input)
    ensures Reformats(input, r)
    ensures r == Failure(NestingTooDeep) <==> TooDeep(input, 0, false, false)
    ensures r == Failure(InvalidJson) <==> !TooDeep(input, 0, false, false) && !IsJsonText(input)
    ensures forall v: Value | IsTextOf(input, v) ::
      r == if Depth(v) > 128 then Failure(NestingTooDeep) else Bounded(Pretty(v, 0) + [LF])
  {
    var tooDeep := ScanDepth(input);
    forall v: Value | IsTextOf(input, v)
      ensures tooDeep <==> Depth(v) > MAX_DEPTH
    {
      ScanMeasuresDepth(input, v);
    }
    if tooDeep {
      return Failure(NestingTooDeep);
    }
    if !valid {
      return Failure(InvalidJson);
    }
    ghost var v: Value :| IsTextOf(input, v);
    r := PrintLoop(input, v);
    forall v': Value | IsTextOf(input, v')
      ensures v' == v
    {
      OneTreePerText(input, v, v');
    }
  }

  /** The json transform in one piece: the check on nesting, the grammar, then the bounded print. */
  ghost predicate Reformats(input: Units, r: Result<Units, TextError>) {
    if TooDeep(input, 0, false, false) then r == Failure(NestingTooDeep)
    else if !IsJsonText(input) then r == Failure(InvalidJson)
    else exists v: Value :: IsTextOf(input, v) && r == Bounded(Pretty(v, 0) + [LF])
  }

  lemma {:induction false} ReformatsAnswers(input: Units, r: Result<Units, TextError>)
    requires IsJsonText(input)
    ensures Reformats(input, r) <==> Answers(input, r)
  {
    hide TooDeep, Pretty, Depth;
    forall v: Value | IsTextOf(input, v)
      ensures TooDeep(input, 0, false, false) <==> Depth(v) > MAX_DEPTH
    {
      ScanMeasuresDepth(input, v);
    }
  }

  // ---------- Canonical form ----------

  /** What the transform answers for a text, as PrettyTextJson's contract fixes it. */
  ghost predicate Answers(input: Units, r: Result<Units, TextError>) {
    exists v: Value :: IsTextOf(input, v)
      && r == if Depth(v) > MAX_DEPTH then Failure(NestingTooDeep) else Bounded(Pretty(v, 0) + [LF])
  }

  /** Two texts with the same tokens get the same answer, whatever their white space. */
  lemma SameTokensSameAnswer(a: Units, b: Units, ra: Result<Units, TextError>, rb: Result<Units, TextError>)
    requires Answers(a, ra) && Answers(b, rb)
    requires Lex(a) == Lex(b)
    ensures ra == rb
  {
    var v: Value :| IsTextOf(a, v)
      && ra == if Depth(v) > MAX_DEPTH then Failure(NestingTooDeep) else Bounded(Pretty(v, 0) + [LF]);
    var w: Value :| IsTextOf(b, w)
      && rb == if Depth(w) > MAX_DEPTH then Failure(NestingTooDeep) else Bounded(Pretty(w, 0) + [LF]);
    SameTokensSameTree(a, b, v, w);
  }

  lemma SameTokensSameTree(a: Units, b: Units, v: Value, w: Value)
    requires IsTextOf(a, v) && IsTextOf(b, w) && Lex(a) == Lex(b)
    ensures v == w
  {
    LexReadsTokens(a, v);
    LexReadsTokens(b, w);
    assert exists gaps: seq<Units> :: Derives(a, v, gaps);
    assert exists gaps: seq<Units> :: Derives(b, w, gaps);
    assert Tokens(v) + [] == Tokens(w) + [];
    TokensUnique(v, [], w, []);
  }

  /** A successful output lexes to the tokens of its input: no lexeme is changed, lost or moved. */
  lemma OutputKeepsTokens(input: Units, output: Units)
    requires Answers(input, Success(output))
    ensures Lex(output) == Lex(input) && IsJsonText(output)
  {
    var v: Value :| IsTextOf(input, v)
      && Success(output) == if Depth(v) > MAX_DEPTH then Failure(NestingTooDeep) else Bounded(Pretty(v, 0) + [LF]);
    assert exists gaps: seq<Units> :: Derives(input, v, gaps);
    PrettyIsTextOf(v);
    LexReadsTokens(input, v);
    LexReadsTokens(output, v);
  }

  /** Reformatting a successful output gives it back byte for byte. */
  lemma Idempotent(input: Units, output: Units)
    requires Answers(input, Success(output))
    ensures Answers(output, Success(output))
    ensures forall r | Answers(output, r) :: r == Success(output)
  {
    var v: Value :| IsTextOf(input, v)
      && Success(output) == if Depth(v) > MAX_DEPTH then Failure(NestingTooDeep) else Bounded(Pretty(v, 0) + [LF]);
    assert exists gaps: seq<Units> :: Derives(input, v, gaps);
    PrettyIsTextOf(v);
    assert IsTextOf(output, v);
    forall r | Answers(output, r)
      ensures r == Success(output)
    {
      SameTokensSameAnswer(output, output, r, Success(output));
    }
  }
}
