/** Which answer every operation of Transform in tools/text.go gives to every input, told without its checks. */
module TextOutcomes {
  import opened Wrappers
  import opened ByteStrings
  import opened Utf8
  import opened Base64
  import opened TextJson
  import opened TextCodecs
  import opened CodecTables

  lemma {:induction false} AsciiIsValid(s: Bytes)
    requires forall i | 0 <= i < |s| :: 0 <= s[i] < 0x80
    ensures Valid(s)
    decreases |s|
  {
    if s != [] { AsciiIsValid(s[1..]); }
  }

  lemma {:induction false} UnescapedIsShorter(s: Bytes)
    requires PathUnescape(s).Some?
    ensures |PathUnescape(s).value| <= |s|
    decreases |s|
  {
    hide IsHexDigit, HexValue;
    if s != [] { UnescapedIsShorter(s[if s[0] == 0x25 then 3 else 1..]); }
  }

  /** Too long or not UTF-8: no operation looks at it. */
  lemma {:induction false} RefusedInputs(op: Operation, input: Bytes, r: Answer)
    requires TextCodecs.Answers(op, input, r)
    ensures |input| > 1_048_576 ==> r == Failure(InputTooLarge)
    ensures |input| <= 1_048_576 && !Valid(input) ==> r == Failure(InvalidUtf8)
    ensures r.Success? ==> |r.value| <= 1_048_576 && Valid(r.value)
  {
    hide Valid, Makes;
  }

  lemma {:induction false} EncodedIsAscii(x: Bytes)
    requires AreBytes(x)
    ensures Valid(Encode(x) + [NEWLINE])
  {
    hide Encode;
    EncodedAlphabet(x);
    AsciiIsValid(Encode(x) + [NEWLINE]);
  }

  /** The text itself, its Base64 and a line feed, or its percent-encoding without white space around it. */
  lemma {:induction false} EncodersAnswer(input: Bytes, r: Answer)
    requires AreBytes(input) && |input| <= 1_048_576 && Valid(input)
    ensures TextCodecs.Answers(Plain, input, r) <==> r == Success(input)
    ensures TextCodecs.Answers(Base64Encode, input, r) <==>
      r == if 4 * ((|input| + 2) / 3) + 1 > 1_048_576 then Failure(OutputTooLarge) else Success(Encode(input) + [0x0A])
    ensures var x := TrimSpace(input);
            TextCodecs.Answers(UrlEncode, input, r) <==>
              r == if PlainCount(x) + 3 * (|x| - PlainCount(x)) > 1_048_576 then Failure(OutputTooLarge)
                   else Success(PercentEncode(x))
  {
    hide Valid, Encode, PercentEncode, TrimLeft, TrimRight, AreBytes, PlainCount, Reformats;
    EncodedLen(input);
    EncodedIsAscii(input);
    TrimLeftKeeps(input);
    TrimRightKeeps(TrimLeft(input));
    PercentLength(TrimSpace(input));
    PercentAscii(TrimSpace(input));
    AsciiIsValid(PercentEncode(TrimSpace(input)));
    OneAnswer(Plain, input, Success(input), r);
    OneAnswer(Base64Encode, input,
              if |Encode(input)| + 1 > TEXT_MAXIMUM_BYTES then Failure(OutputTooLarge)
              else Success(Encode(input) + [NEWLINE]), r);
    OneAnswer(UrlEncode, input, Bounded(PercentEncode(TrimSpace(input))), r);
  }

  /** When an operation can make only one thing, the answer is that, checked. */
  lemma {:induction false} OneAnswer(op: Operation, input: Bytes, made: Answer, r: Answer)
    requires |input| <= 1_048_576 && Valid(input) && forall m: Answer :: Makes(op, input, m) <==> m == made
    ensures TextCodecs.Answers(op, input, r) <==> r == Checked(made)
  {
    hide Valid, Makes, Checked;
    assert Makes(op, input, made);
  }

  /** Decoders: what is spelled, if it is spelled at all and is UTF-8. */
  lemma {:induction false} DecodersAnswer(input: Bytes, r: Answer)
    requires |input| <= 1_048_576 && Valid(input)
    ensures TextCodecs.Answers(UrlDecode, input, r) <==>
      match PathUnescape(TrimSpace(input))
      case None => r == Failure(InvalidPercentEncoding)
      case Some(x) => r == if Valid(x) then Success(x) else Failure(InvalidUtf8)
  {
    hide Valid, PathUnescape, TrimLeft, TrimRight, Encode, Reformats;
    var x := TrimSpace(input);
    var made: Answer :=
      match PathUnescape(x) case None => Failure(InvalidPercentEncoding) case Some(y) => Success(y);
    OneAnswer(UrlDecode, input, made, r);
    TrimIsShorter(input);
    if PathUnescape(x).Some? { UnescapedIsShorter(x); }
  }

  lemma {:induction false} TrimIsShorter(s: Bytes)
    ensures |TrimSpace(s)| <= |s|
  {
    hide AllWhite, StartsWhite, EndsWhite, TrimLeft, TrimRight;
    var lead, trail := TrimExactly(s);
  }

  lemma {:induction false} Base64Answers(input: Bytes, x: Bytes, r: Answer)
    requires |input| <= 1_048_576 && Valid(input) && TextCodecs.Answers(Base64Decode, input, r)
    ensures AreBytes(x) && Strip(input) == Encode(x) ==> r == if Valid(x) then Success(x) else Failure(InvalidUtf8)
    ensures (forall y: Bytes :: !(AreBytes(y) && Strip(input) == Encode(y))) ==> r == Failure(InvalidBase64)
  {
    hide Valid, Encode, AreBytes, Strip;
    var made: Answer :| Makes(Base64Decode, input, made) && r == Checked(made);
    if AreBytes(x) && Strip(input) == Encode(x) {
      assert made == Success(x);
      DecodedIsShorter(input, x);
    } else if forall y: Bytes :: !(AreBytes(y) && Strip(input) == Encode(y)) {
      assert made.Success? ==> made == Success(made.value);
    }
  }

  lemma {:induction false} DecodedIsShorter(input: Bytes, x: Bytes)
    requires Strip(input) == Encode(x)
    ensures |x| <= |input|
  {
    hide Encode;
    EncodedLen(x);
    StripIsShorter(input);
  }

  lemma {:induction false} StripIsShorter(s: Bytes)
    ensures |Strip(s)| <= |s|
    decreases |s|
  {
    if s != [] { StripIsShorter(s[1..]); }
  }
}
