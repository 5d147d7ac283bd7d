/**
 The content operations of Transform in tools/text.go (JSON, Base64, percent-encoding, and the
 text as it is), with its input check, its output limit and its final UTF-8 check.
 */
module TextCodecs {
  import opened Wrappers
  import opened ByteStrings
  import opened Utf8
  import opened Base64
  import opened TextJson
  import JsonGrammar
  import JsonLexer
  import JsonPrinter
  import JsonUtf8

  datatype Operation = Json | Plain | Base64Encode | Base64Decode | UrlEncode | UrlDecode

  type Answer = Result<Bytes, TextError>

  const NEWLINE := 0x0A
  const PERCENT := 0x25

  // ---------- Base64 ----------

  /** The text without its ASCII white space. */
  function Strip(s: Bytes): Bytes {
    if s == [] then []
    else if IsAsciiSpace(s[0]) then Strip(s[1..])
    else [s[0]] + Strip(s[1..])
  }

  lemma {:induction false} StripAppend(a: Bytes, b: Bytes)
    ensures Strip(a + b) == Strip(a) + Strip(b)
    decreases |a|
  {
    if a == [] {
      assert a + b == b;
    } else {
      assert (a + b)[1..] == a[1..] + b;
      StripAppend(a[1..], b);
    }
  }

  predicate InAlphabet(b: int) {
    0x41 <= b <= 0x5A || 0x61 <= b <= 0x7A || 0x30 <= b <= 0x39 || b == 0x2B || b == 0x2F || b == PAD
  }

  lemma {:induction false} CharInAlphabet(n: int)
    requires 0 <= n < 64
    ensures InAlphabet(Char64(n))
  {
  }

  lemma {:induction false} QuantumAlphabet(a: int, b: int, c: int)
    requires IsByte(a) && IsByte(b) && IsByte(c)
    ensures forall i | 0 <= i < 4 ::
      InAlphabet(Encode3(a, b, c)[i]) && InAlphabet(Encode2(a, b)[i]) && InAlphabet(Encode1(a)[i])
  {
    hide Char64, InAlphabet;
    forall n | 0 <= n < 64 ensures InAlphabet(Char64(n)) {
      CharInAlphabet(n);
    }
    assert InAlphabet(PAD) by { PadInAlphabet(); }
  }

  lemma PadInAlphabet()
    ensures InAlphabet(PAD)
  {
  }

  lemma {:induction false} EncodedAlphabet(x: Bytes)
    requires AreBytes(x)
    ensures forall i | 0 <= i < |Encode(x)| :: InAlphabet(Encode(x)[i])
    decreases |x|
  {
    hide InAlphabet, Char64;
    if x != [] {
      QuantumAlphabet(x[0], if |x| > 1 then x[1] else 0, if |x| > 2 then x[2] else 0);
      if |x| >= 3 { EncodedAlphabet(x[3..]); }
    }
  }

  /** It succeeds with x exactly when the text, stripped, is the encoding of x. */
  method DecodeTextBase64(input: Bytes) returns (r: Answer)
    ensures forall x: Bytes :: r == Success(x) <==> AreBytes(x) && Strip(input) == Encode(x)
    ensures r.Failure? ==> r.error == InvalidBase64
  {
    hide StrictDecode, Encode;
    var encoded: Bytes := [];
    for i := 0 to |input|
      invariant encoded == Strip(input[..i])
    {
      var value := input[i];
      assert input[..i + 1] == input[..i] + [value];
      StripAppend(input[..i], [value]);
      assert Strip([value]) == (if IsAsciiSpace(value) then [] else [value]);
      if !IsAsciiSpace(value) {
        if !InAlphabet(value) {
          assert value in Strip(input) by {
            assert input == input[..i + 1] + input[i + 1..];
            StripAppend(input[..i + 1], input[i + 1..]);
          }
          forall x: Bytes | AreBytes(x) ensures Strip(input) != Encode(x) {
            EncodedAlphabet(x);
          }
          return Failure(InvalidBase64);
        }
        encoded := encoded + [value];
      }
    }
    assert input[..|input|] == input;
    forall x: Bytes | AreBytes(x) && encoded == Encode(x) ensures |encoded| % 4 == 0 {
      EncodedLen(x);
    }
    if |encoded| % 4 != 0 {
      return Failure(InvalidBase64);
    }
    forall x: Bytes ensures StrictDecode(encoded) == Some(x) <==> AreBytes(x) && encoded == Encode(x) {
      DecodesExactly(encoded, x);
    }
    match StrictDecode(encoded) {
      case None => return Failure(InvalidBase64);
      case Some(output) => return Success(output);
    }
  }

  // ---------- Percent-encoding ----------

  predicate IsUnreserved(b: int) {
    || 0x41 <= b <= 0x5A || 0x61 <= b <= 0x7A || 0x30 <= b <= 0x39
    || b == 0x2D || b == 0x2E || b == 0x5F || b == 0x7E
  }

  /** Section 2.3 of RFC 3986, and the slash that a path keeps. */
  predicate StaysPlain(b: int) {
    IsUnreserved(b) || b == 0x2F
  }

  function PercentByte(b: int): Bytes {
    if StaysPlain(b) then [b] else [PERCENT, UpperHex(b / 16), UpperHex(b % 16)]
  }

  function PercentEncode(x: Bytes): Bytes {
    if x == [] then [] else PercentByte(x[0]) + PercentEncode(x[1..])
  }

  /** url.PathUnescape: each % must be followed by two hexadecimal digits. */
  function PathUnescape(s: Bytes): Option<Bytes>
    decreases |s|
  {
    if s == [] then Some([])
    else if s[0] == PERCENT then
      if |s| < 3 || !IsHexDigit(s[1]) || !IsHexDigit(s[2]) then None
      else match PathUnescape(s[3..])
        case None => None
        case Some(rest) => Some([16 * HexValue(s[1]) + HexValue(s[2])] + rest)
    else match PathUnescape(s[1..])
      case None => None
      case Some(rest) => Some([s[0]] + rest)
  }

  lemma {:induction false} PercentPair(b: int)
    requires 0 <= b < 0x100
    ensures IsHexDigit(UpperHex(b / 16)) && IsHexDigit(UpperHex(b % 16))
    ensures 16 * HexValue(UpperHex(b / 16)) + HexValue(UpperHex(b % 16)) == b
  {
  }

  lemma {:induction false} UnescapePiece(b: int, rest: Bytes)
    requires 0 <= b < 0x100 && PathUnescape(rest).Some?
    ensures PathUnescape(PercentByte(b) + rest) == Some([b] + PathUnescape(rest).value)
  {
    hide UpperHex, HexValue, IsHexDigit;
    PercentPair(b);
    var piece, e := PercentByte(b), PercentByte(b) + rest;
    assert e[|piece|..] == rest && forall i | 0 <= i < |piece| :: e[i] == piece[i];
  }

  /** Percent-decoding undoes percent-encoding. */
  lemma {:induction false} UnescapeOfEncode(x: Bytes)
    requires AreBytes(x)
    ensures PathUnescape(PercentEncode(x)) == Some(x)
    decreases |x|
  {
    hide PathUnescape, PercentByte;
    if x == [] {
      EmptyPath();
    } else {
      UnescapeOfEncode(x[1..]);
      UnescapePiece(x[0], PercentEncode(x[1..]));
      assert x == [x[0]] + x[1..];
    }
  }

  lemma EmptyPath()
    ensures PathUnescape([]) == Some([])
  {
  }

  function PlainCount(x: Bytes): nat {
    if x == [] then 0 else (if StaysPlain(x[0]) then 1 else 0) + PlainCount(x[1..])
  }

  /** One byte for each unreserved byte or slash and three for every other. */
  lemma {:induction false} PercentLength(x: Bytes)
    ensures |PercentEncode(x)| == PlainCount(x) + 3 * (|x| - PlainCount(x))
    decreases |x|
  {
    if x != [] { PercentLength(x[1..]); }
  }

  lemma {:induction false} PercentAscii(x: Bytes)
    requires AreBytes(x)
    ensures forall i | 0 <= i < |PercentEncode(x)| :: 0x21 <= PercentEncode(x)[i] < 0x7F
    decreases |x|
  {
    if x != [] {
      PercentAscii(x[1..]);
      PercentPair(x[0]);
    }
  }

  lemma {:induction false} PercentAppend(a: Bytes, b: Bytes)
    ensures PercentEncode(a + b) == PercentEncode(a) + PercentEncode(b)
    decreases |a|
  {
    hide PercentByte;
    if a == [] {
      assert a + b == b;
    } else {
      assert (a + b)[1..] == a[1..] + b;
      PercentAppend(a[1..], b);
    }
  }

  method EncodeTextUrl(input: Bytes) returns (r: Answer)
    ensures r == Bounded(PercentEncode(input))
  {
    hide PercentByte, PercentEncode;
    var output := new BoundedTextOutput();
    EmptyPercent();
    for index := 0 to |input|
      invariant output.bytes == PercentEncode(input[..index]) && |output.bytes| <= TEXT_MAXIMUM_BYTES
    {
      var value := input[index];
      assert input[..index + 1] == input[..index] + [value];
      assert input == input[..index + 1] + input[index + 1..];
      PercentAppend(input[..index], [value]);
      PercentAppend(input[..index + 1], input[index + 1..]);
      var piece := PercentPiece(value);
      var ok := output.Append(piece);
      if !ok {
        return Failure(OutputTooLarge);
      }
    }
    assert input[..|input|] == input;
    return Success(output.bytes);
  }

  lemma EmptyPercent()
    ensures PercentEncode([]) == []
  {
  }

  method PercentPiece(value: int) returns (piece: Bytes)
    ensures piece == PercentEncode([value])
  {
    assert PercentByte(value) + PercentEncode([]) == PercentByte(value);
    if StaysPlain(value) {
      piece := [value];
    } else {
      piece := [PERCENT, UpperHex(value / 16), UpperHex(value % 16)];
    }
  }

  // ---------- strings.TrimSpace ----------

  /** The length of the white-space character that s starts with, or 0. */
  function SpaceLen(s: Bytes): (n: nat)
    ensures n <= |s|
    ensures n > 0 ==> RuneLen(s) == n
  {
    if |s| >= 1 && IsAsciiSpace(s[0]) then 1
    else if |s| >= 2 && s[0] == 0xC2 && (s[1] == 0x85 || s[1] == 0xA0) then 2
    else if |s| >= 3 && (
      || (s[0] == 0xE1 && s[1] == 0x9A && s[2] == 0x80)
      || (s[0] == 0xE2 && s[1] == 0x80 && (0x80 <= s[2] <= 0x8A || s[2] == 0xA8 || s[2] == 0xA9 || s[2] == 0xAF))
      || (s[0] == 0xE2 && s[1] == 0x81 && s[2] == 0x9F)
      || (s[0] == 0xE3 && s[1] == 0x80 && s[2] == 0x80)) then 3
    else 0
  }

  predicate EndsWithSpace(s: Bytes, n: nat) {
    0 < n <= |s| && SpaceLen(s[|s| - n..]) == n
  }

  function TrimLeft(s: Bytes): Bytes
    decreases |s|
  {
    if SpaceLen(s) > 0 then TrimLeft(s[SpaceLen(s)..]) else s
  }

  function TrimRight(s: Bytes): Bytes
    decreases |s|
  {
    if EndsWithSpace(s, 1) then TrimRight(s[..|s| - 1])
    else if EndsWithSpace(s, 2) then TrimRight(s[..|s| - 2])
    else if EndsWithSpace(s, 3) then TrimRight(s[..|s| - 3])
    else s
  }

  function TrimSpace(s: Bytes): Bytes {
    TrimRight(TrimLeft(s))
  }

  lemma {:induction false} TrimLeftKeeps(s: Bytes)
    requires Valid(s) && AreBytes(s)
    ensures Valid(TrimLeft(s)) && AreBytes(TrimLeft(s)) && |TrimLeft(s)| <= |s|
    decreases |s|
  {
    if SpaceLen(s) > 0 { TrimLeftKeeps(s[SpaceLen(s)..]); }
  }

  lemma {:induction false} DropEnd(s: Bytes, n: nat)
    requires Valid(s) && AreBytes(s) && EndsWithSpace(s, n)
    ensures Valid(s[..|s| - n]) && AreBytes(s[..|s| - n])
  {
    hide Valid, RuneLen;
    var last := s[|s| - n..];
    assert s == s[..|s| - n] + last;
    ValidWithoutLast(s[..|s| - n], last);
  }

  lemma {:induction false} TrimRightKeeps(s: Bytes)
    requires Valid(s) && AreBytes(s)
    ensures Valid(TrimRight(s)) && AreBytes(TrimRight(s)) && |TrimRight(s)| <= |s|
    decreases |s|
  {
    hide Valid, AreBytes, EndsWithSpace;
    if EndsWithSpace(s, 1) {
      Long(s, 1);
      DropEnd(s, 1);
      TrimRightKeeps(s[..|s| - 1]);
    } else if EndsWithSpace(s, 2) {
      Long(s, 2);
      DropEnd(s, 2);
      TrimRightKeeps(s[..|s| - 2]);
    } else if EndsWithSpace(s, 3) {
      Long(s, 3);
      DropEnd(s, 3);
      TrimRightKeeps(s[..|s| - 3]);
    }
  }

  lemma Long(s: Bytes, n: nat)
    requires EndsWithSpace(s, n)
    ensures 0 < n <= |s|
  {
  }

  lemma {:induction false} NothingToTrim(s: Bytes)
    requires forall i | 0 <= i < |s| :: 0x21 <= s[i] < 0x7F
    ensures TrimSpace(s) == s
  {
    assert SpaceLen(s) == 0;
    forall n | 1 <= n <= 3 ensures !EndsWithSpace(s, n) {
      if n <= |s| {
        assert s[|s| - n..][0] == s[|s| - n];
      }
    }
    assert !EndsWithSpace(s, 1) && !EndsWithSpace(s, 2) && !EndsWithSpace(s, 3);
  }

  // ---------- Transform ----------

  /** What an operation makes of a text that passed the input check. */
  ghost predicate Makes(op: Operation, input: Bytes, r: Answer) {
    match op
    case Json => Reformats(input, r)
    case Plain => r == Success(input)
    case Base64Encode =>
      r == if |Encode(input)| + 1 > TEXT_MAXIMUM_BYTES then Failure(OutputTooLarge)
        else Success(Encode(input) + [NEWLINE])
    case Base64Decode =>
      && (forall x: Bytes :: r == Success(x) <==> AreBytes(x) && Strip(input) == Encode(x))
      && (r.Failure? ==> r.error == InvalidBase64)
    case UrlEncode => r == Bounded(PercentEncode(TrimSpace(input)))
    case UrlDecode =>
      r == match PathUnescape(TrimSpace(input)) case None => Failure(InvalidPercentEncoding) case Some(x) => Success(x)
  }

  /** The two checks around every operation. */
  ghost predicate Answers(op: Operation, input: Bytes, r: Answer) {
    if |input| > TEXT_MAXIMUM_BYTES then r == Failure(InputTooLarge)
    else if !Valid(input) then r == Failure(InvalidUtf8)
    else exists made: Answer :: Makes(op, input, made) && r == Checked(made)
  }

  function Checked(made: Answer): Answer {
    match made
    case Failure(e) => made
    case Success(output) =>
      if |output| > TEXT_MAXIMUM_BYTES then Failure(OutputTooLarge)
      else if !Valid(output) then Failure(InvalidUtf8)
      else made
  }

  /** valid is the answer of the grammar check json.Valid. */
  method Transform(op: Operation, input: Bytes, valid: bool) returns (r: Answer)
    requires AreBytes(input) && (valid <==> JsonGrammar.IsJsonText(input))
    ensures Answers(op, input, r)
  {
    hide Encode, Valid, PathUnescape, PercentEncode, TrimSpace, Reformats;
    if |input| > TEXT_MAXIMUM_BYTES {
      return Failure(InputTooLarge);
    }
    if !Valid(input) {
      return Failure(InvalidUtf8);
    }
    match op {
      case Json => r := PrettyTextJson(input, valid);
      case Plain => r := Success(input);
      case Base64Encode =>
        EncodedLen(input);
        var length := 4 * ((|input| + 2) / 3);
        if length + 1 > TEXT_MAXIMUM_BYTES {
          r := Failure(OutputTooLarge);
        } else {
          r := Success(Encode(input) + [NEWLINE]);
        }
      case Base64Decode => r := DecodeTextBase64(input);
      case UrlEncode => r := EncodeTextUrl(TrimSpace(input));
      case UrlDecode =>
        var decoded := PathUnescape(TrimSpace(input));
        r := if decoded.None? then Failure(InvalidPercentEncoding) else Success(decoded.value);
    }
    ghost var made := r;
    assert Makes(op, input, made);
    if r.Success? {
      if |r.value| > TEXT_MAXIMUM_BYTES {
        r := Failure(OutputTooLarge);
      } else if !Valid(r.value) {
        r := Failure(InvalidUtf8);
      }
    }
    assert r == Checked(made);
  }

  // ---------- Round trips through Transform ----------

  lemma {:induction false} StripEncoded(x: Bytes)
    requires AreBytes(x)
    ensures Strip(Encode(x) + [NEWLINE]) == Encode(x)
  {
    hide Encode;
    EncodedAlphabet(x);
    NothingToStrip(Encode(x));
    StripAppend(Encode(x), [NEWLINE]);
    assert Strip([NEWLINE]) == [];
  }

  lemma {:induction false} NothingToStrip(s: Bytes)
    requires forall i | 0 <= i < |s| :: InAlphabet(s[i])
    ensures Strip(s) == s
    decreases |s|
  {
    if s != [] {
      assert InAlphabet(s[0]);
      NothingToStrip(s[1..]);
    }
  }

  /** Decoding what was encoded gives the input back. */
  lemma {:induction false} Base64RoundTrip(input: Bytes, encoded: Bytes, back: Answer)
    requires AreBytes(input)
    requires Answers(Base64Encode, input, Success(encoded)) && Answers(Base64Decode, encoded, back)
    ensures back == Success(input)
  {
    hide Encode, Valid, Strip;
    assert encoded == Encode(input) + [NEWLINE];
    StripEncoded(input);
    var made: Answer :| Makes(Base64Decode, encoded, made) && back == Checked(made);
    assert made == Success(input);
  }

  /** A text decodes only if, stripped of white space, it is the encoding of the result. */
  lemma {:induction false} Base64Canonical(text: Bytes, x: Bytes)
    requires Answers(Base64Decode, text, Success(x))
    ensures AreBytes(x) && Valid(x) && Strip(text) == Encode(x)
  {
    hide Encode, Valid, Strip;
    var made: Answer :| Makes(Base64Decode, text, made) && Success(x) == Checked(made);
    assert made == Success(x);
  }

  /** Decoding what was percent-encoded gives the trimmed input back. */
  lemma {:induction false} UrlRoundTrip(input: Bytes, encoded: Bytes, back: Answer)
    requires AreBytes(input)
    requires Answers(UrlEncode, input, Success(encoded)) && Answers(UrlDecode, encoded, back)
    ensures back == Success(TrimSpace(input))
  {
    hide PercentEncode, PathUnescape, TrimLeft, TrimRight, Valid, AreBytes, Encode;
    TrimLeftKeeps(input);
    TrimRightKeeps(TrimLeft(input));
    var x := TrimSpace(input);
    assert encoded == PercentEncode(x);
    PercentAscii(x);
    NothingToTrim(encoded);
    UnescapeOfEncode(x);
    var made: Answer :| Makes(UrlDecode, encoded, made) && back == Checked(made);
    assert made == Success(x);
  }

  // ---------- JSON through Transform ----------

  /** What the reformatter makes of a text in UTF-8 passes the checks that come after it. */
  lemma {:induction false} JsonPassesChecks(input: Bytes, made: Answer)
    requires Valid(input) && Reformats(input, made)
    ensures Checked(made) == made
  {
    hide Valid, JsonPrinter.Pretty;
    if made.Success? {
      var v: JsonGrammar.Value :|
        JsonGrammar.IsTextOf(input, v) && made == Bounded(JsonPrinter.Pretty(v, 0) + [JsonPrinter.LF]);
      JsonUtf8.PrettyIsUtf8(input, v);
    }
  }

  /** The text as Transform sees it: neither too long nor in another encoding. */
  predicate PassesInput(input: Bytes) {
    |input| <= TEXT_MAXIMUM_BYTES && Valid(input)
  }

  lemma {:induction false} JsonAnswers(input: Bytes, r: Answer)
    requires PassesInput(input)
    ensures Answers(Json, input, r) <==> Reformats(input, r)
    ensures Answers(Json, input, r) ==> r != Failure(InvalidUtf8)
  {
    hide Valid, Reformats, Checked;
    forall made: Answer | Reformats(input, made) ensures Checked(made) == made {
      JsonPassesChecks(input, made);
    }
    if Reformats(input, r) {
      assert Makes(Json, input, r);
      NeverUtf8(input, r);
    }
  }

  lemma NeverUtf8(input: Bytes, r: Answer)
    requires Reformats(input, r)
    ensures r != Failure(InvalidUtf8)
  {
  }

  /** Through Transform: JSON texts of the same tokens that pass the input check get the same answer. */
  lemma {:induction false} JsonCanonical(a: Bytes, b: Bytes, ra: Answer, rb: Answer)
    requires PassesInput(a) && PassesInput(b)
    requires JsonGrammar.IsJsonText(a) && JsonGrammar.IsJsonText(b) && JsonLexer.Lex(a) == JsonLexer.Lex(b)
    requires Answers(Json, a, ra) && Answers(Json, b, rb)
    ensures ra == rb
  {
    hide *;
    JsonAnswers(a, ra);
    JsonAnswers(b, rb);
    ReformatsAnswers(a, ra);
    ReformatsAnswers(b, rb);
    SameTokensSameAnswer(a, b, ra, rb);
  }

  /** Through Transform: an output is a legal input, and is its own and only answer. */
  lemma {:induction false} JsonIdempotent(input: Bytes, output: Bytes)
    requires Answers(Json, input, Success(output))
    ensures PassesInput(output) && AreBytes(output)
    ensures forall r: Answer :: Answers(Json, output, r) <==> r == Success(output)
    ensures JsonLexer.Lex(output) == JsonLexer.Lex(input)
  {
    hide Valid, Reformats, JsonGrammar.IsJsonText, AreBytes;
    assert PassesInput(input) && PassesInput(output);
    ValidAreBytes(output);
    JsonAnswers(input, Success(output));
    OnlyTexts(input, output);
    ReformatsAnswers(input, Success(output));
    OutputKeepsTokens(input, output);
    Idempotent(input, output);
    forall r: Answer ensures Answers(Json, output, r) <==> r == Success(output) {
      JsonAnswers(output, r);
      ReformatsAnswers(output, r);
    }
  }

  lemma OnlyTexts(input: Bytes, output: Bytes)
    requires Reformats(input, Success(output))
    ensures JsonGrammar.IsJsonText(input)
  {
  }
}
