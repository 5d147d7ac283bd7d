/**
 What the codecs of tools/text.go produce and take, byte by byte, as RFC 4648, RFC 3986 and RFC 3629
 say it: tables of characters, numbers spelled in them, and white space as code points.
 */
module CodecTables {
  import opened Wrappers
  import opened ByteStrings
  import opened Sequences
  import opened Utf8
  import opened Base64
  import opened TextCodecs
  import KillGuard

  // ---------- Base64 ----------

  /** Table 1 of RFC 4648: A to Z, a to z, 0 to 9, plus, slash. */
  const CAPITALS: Bytes := [
    0x41, 0x42, 0x43, 0x44, 0x45, 0x46, 0x47, 0x48, 0x49, 0x4A, 0x4B, 0x4C, 0x4D,
    0x4E, 0x4F, 0x50, 0x51, 0x52, 0x53, 0x54, 0x55, 0x56, 0x57, 0x58, 0x59, 0x5A]
  const DIGITS: Bytes := [0x30, 0x31, 0x32, 0x33, 0x34, 0x35, 0x36, 0x37, 0x38, 0x39]

  lemma {:induction false} CapitalAt(i: nat)
    ensures i < 26 ==> |CAPITALS| == 26 && CAPITALS[i] == 0x41 + i
  {
  }

  lemma {:induction false} DigitAt(i: nat)
    ensures i < 10 ==> |DIGITS| == 10 && DIGITS[i] == 0x30 + i
  {
  }

  lemma {:induction false} AlphabetExactly(n: nat)
    requires n < 64
    ensures |CAPITALS| == 26 && |DIGITS| == 10
    ensures Char64(n) ==
      if n < 26 then CAPITALS[n] else if n < 52 then CAPITALS[n - 26] + 0x20
      else if n < 62 then DIGITS[n - 52] else if n == 62 then 0x2B else 0x2F
  {
    CapitalAt(n);
    if n >= 26 { CapitalAt(n - 26); }
    if n >= 52 { DigitAt(n - 52); }
    CapitalAt(0);
    DigitAt(0);
  }

  /** Four characters spell in base 64 the number that three bytes spell in base 256. */
  lemma {:induction false} QuantumNumber(a: int, b: int, c: int)
    requires IsByte(a) && IsByte(b) && IsByte(c)
    ensures var q := Encode3(a, b, c);
            && Value64(q[0]) >= 0 && Value64(q[1]) >= 0 && Value64(q[2]) >= 0 && Value64(q[3]) >= 0
            && 0x40000 * Value64(q[0]) + 0x1000 * Value64(q[1]) + 0x40 * Value64(q[2]) + Value64(q[3])
               == 0x10000 * a + 0x100 * b + c
  {
    hide Char64, Value64;
    Six(a, b);
    Six(b, c);
    ValueOfChar(a / 4);
    ValueOfChar(a % 4 * 16 + b / 16);
    ValueOfChar(b % 16 * 4 + c / 64);
    ValueOfChar(c % 64);
  }

  /** Two bytes and zero bits spell 16 of 18 bits, one byte 8 of 12; equals signs stand for the rest. */
  lemma {:induction false} PaddedNumber(a: int, b: int)
    requires IsByte(a) && IsByte(b)
    ensures var q := Encode2(a, b);
            && q[3] == 0x3D && Value64(q[0]) >= 0 && Value64(q[1]) >= 0 && Value64(q[2]) >= 0
            && 0x1000 * Value64(q[0]) + 0x40 * Value64(q[1]) + Value64(q[2]) == 4 * (0x100 * a + b)
    ensures var q := Encode1(a);
            && q[2] == 0x3D && q[3] == 0x3D && Value64(q[0]) >= 0 && Value64(q[1]) >= 0
            && 0x40 * Value64(q[0]) + Value64(q[1]) == 0x10 * a
  {
    hide Char64, Value64;
    Six(a, b);
    ValueOfChar(a / 4);
    ValueOfChar(a % 4 * 16);
    ValueOfChar(a % 4 * 16 + b / 16);
    ValueOfChar(b % 16 * 4);
  }

  /** The four characters that the group of bytes from 3 * k on makes. */
  function QuantumOf(x: Bytes, k: nat): Bytes
    requires 3 * k < |x|
  {
    var left := |x| - 3 * k;
    if left == 1 then Encode1(x[3 * k])
    else if left == 2 then Encode2(x[3 * k], x[3 * k + 1])
    else Encode3(x[3 * k], x[3 * k + 1], x[3 * k + 2])
  }

  lemma {:induction false} FirstQuantum(x: Bytes)
    requires x != []
    ensures |Encode(x)| >= 4 && Encode(x)[..4] == QuantumOf(x, 0)
    ensures |x| > 3 ==> Encode(x)[4..] == Encode(x[3..])
  {
    if |x| >= 3 {
      Cut(Encode3(x[0], x[1], x[2]), Encode(x[3..]));
    } else {
      assert Encode(x)[..4] == Encode(x);
    }
  }

  /** Every group of three bytes makes the four characters at its place, and a last shorter one is padded. */
  lemma {:induction false} QuantumAt(x: Bytes, k: nat)
    requires 3 * k < |x|
    ensures 4 * k + 4 <= |Encode(x)| && Encode(x)[4 * k..4 * k + 4] == QuantumOf(x, k)
    decreases k
  {
    hide Encode, Encode1, Encode2, Encode3;
    FirstQuantum(x);
    if k > 0 {
      QuantumAt(x[3..], k - 1);
      SliceLater(Encode(x), 4 * k - 4);
    }
  }

  lemma {:induction false} SliceLater(s: Bytes, at: nat)
    requires at + 8 <= |s|
    ensures s[4..][at..at + 4] == s[at + 4..at + 8]
  {
  }

  // ---------- Percent-encoding ----------

  const HEX: Bytes := [0x30, 0x31, 0x32, 0x33, 0x34, 0x35, 0x36, 0x37, 0x38, 0x39, 0x41, 0x42, 0x43, 0x44, 0x45, 0x46]

  lemma {:induction false} HexExactly(n: nat)
    requires n < 16
    ensures |HEX| == 16 && UpperHex(n) == HEX[n] && HexValue(HEX[n]) == n
    ensures n >= 10 ==> HexValue(HEX[n] + 0x20) == n
  {
  }

  lemma {:induction false} LowerHexExactly(n: nat)
    requires n < 16
    ensures |HEX| == 16 && LowerHex(n) == if n < 10 then HEX[n] else HEX[n] + 0x20
  {
  }

  /** The marks that stay beside letters and digits: section 2.3 of RFC 3986, and the slash. */
  const MARKS: Bytes := [0x2D, 0x2E, 0x5F, 0x7E, 0x2F]

  lemma {:induction false} PlainExactly(b: int)
    ensures StaysPlain(b) <==> b in CAPITALS || b - 0x20 in CAPITALS || b in DIGITS || b in MARKS
  {
    LetterIs(b);
    LetterIs(b - 0x20);
    NumberIs(b);
    hide CAPITALS, DIGITS;
  }

  lemma {:induction false} LetterIs(b: int)
    ensures b in CAPITALS <==> 0x41 <= b <= 0x5A
  {
    if 0x41 <= b <= 0x5A { CapitalAt(b - 0x41); }
    forall i | 0 <= i < |CAPITALS| ensures CAPITALS[i] == 0x41 + i {
      CapitalCount();
      CapitalAt(i);
    }
    CapitalCount();
  }

  lemma CapitalCount()
    ensures |CAPITALS| == 26
  {
  }

  lemma {:induction false} NumberIs(b: int)
    ensures b in DIGITS <==> 0x30 <= b <= 0x39
  {
    if 0x30 <= b <= 0x39 { DigitAt(b - 0x30); }
    forall i | 0 <= i < |DIGITS| ensures DIGITS[i] == 0x30 + i { DigitAt(i); }
  }

  /** A byte that does not stay becomes a percent sign and two upper-case digits. */
  lemma {:induction false} PercentExactly(b: int)
    requires 0 <= b < 0x100
    ensures |HEX| == 16
    ensures PercentEncode([b]) == if StaysPlain(b) then [b] else [0x25, HEX[b / 16], HEX[b % 16]]
  {
    hide UpperHex, StaysPlain, HEX;
    HexExactly(b / 16);
    HexExactly(b % 16);
    assert PercentByte(b) + PercentEncode([]) == PercentByte(b);
  }

  /** Each byte of x by itself or as a percent sign and two hexadecimal digits; a percent sign only so. */
  predicate SpellsByte(p: Bytes, b: int) {
    || (p == [b] && b != 0x25)
    || (|p| == 3 && p[0] == 0x25 && IsHexDigit(p[1]) && IsHexDigit(p[2]) && b == 16 * HexValue(p[1]) + HexValue(p[2]))
  }

  function Glue(pieces: seq<Bytes>): Bytes {
    if pieces == [] then [] else pieces[0] + Glue(pieces[1..])
  }

  predicate Spelling(s: Bytes, x: Bytes, pieces: seq<Bytes>) {
    && |pieces| == |x| && s == Glue(pieces) && forall i | 0 <= i < |x| :: SpellsByte(pieces[i], x[i])
  }

  lemma {:induction false} UnescapesPiece(p: Bytes, b: int, rest: Bytes)
    requires SpellsByte(p, b) && PathUnescape(rest).Some?
    ensures PathUnescape(p + rest) == Some([b] + PathUnescape(rest).value)
  {
    hide IsHexDigit, HexValue;
    var s := p + rest;
    assert s[|p|..] == rest && forall i | 0 <= i < |p| :: s[i] == p[i];
  }

  lemma {:induction false} UnescapesSpelling(s: Bytes, x: Bytes, pieces: seq<Bytes>)
    requires Spelling(s, x, pieces)
    ensures PathUnescape(s) == Some(x)
    decreases |x|
  {
    hide SpellsByte, PathUnescape;
    if x == [] {
      EmptyPath();
    } else {
      assert forall i | 0 <= i < |x| - 1 :: x[1..][i] == x[i + 1] && pieces[1..][i] == pieces[i + 1];
      UnescapesSpelling(Glue(pieces[1..]), x[1..], pieces[1..]);
      UnescapesPiece(pieces[0], x[0], Glue(pieces[1..]));
      Uncons(x);
    }
  }

  lemma {:induction false} SpellingOf(s: Bytes) returns (pieces: seq<Bytes>)
    requires PathUnescape(s).Some?
    ensures Spelling(s, PathUnescape(s).value, pieces)
    decreases |s|
  {
    hide IsHexDigit, HexValue;
    if s == [] {
      pieces := [];
    } else {
      var n := if s[0] == 0x25 then 3 else 1;
      var more := SpellingOf(s[n..]);
      pieces := [s[..n]] + more;
      assert pieces[1..] == more && s == s[..n] + s[n..];
    }
  }

  /** Percent-decoding gives x exactly for the spellings of x, and fails exactly for a text that spells nothing. */
  lemma {:induction false} UnescapeExactly(s: Bytes, x: Bytes)
    ensures PathUnescape(s) == Some(x) <==> exists pieces: seq<Bytes> :: Spelling(s, x, pieces)
  {
    hide PathUnescape, Spelling;
    if PathUnescape(s) == Some(x) {
      var pieces := SpellingOf(s);
    }
    if pieces: seq<Bytes> :| Spelling(s, x, pieces) {
      UnescapesSpelling(s, x, pieces);
    }
  }

  /** It fails exactly when some percent sign is not followed by two hexadecimal digits. */
  lemma {:induction false} UnescapeFails(s: Bytes)
    ensures PathUnescape(s).None? <==> exists i :: BadPercent(s, i)
    decreases |s|
  {
    hide HexValue;
    if s != [] {
      var n := if s[0] == 0x25 then 3 else 1;
      if BadPercent(s, 0) {
      } else if n <= |s| {
        UnescapeFails(s[n..]);
        forall i ensures BadPercent(s[n..], i) <==> i >= 0 && BadPercent(s, i + n) {
        }
        if i :| BadPercent(s, i) { assert i >= n && BadPercent(s[n..], i - n); }
      }
    }
  }

  predicate BadPercent(s: Bytes, i: int) {
    0 <= i < |s| && s[i] == 0x25 && !(i + 2 < |s| && IsHexDigit(s[i + 1]) && IsHexDigit(s[i + 2]))
  }

  // ---------- White space ----------

  /** The code point of the character that s starts with, section 3 of RFC 3629. */
  function CodePoint(s: Bytes): int
    requires RuneLen(s) > 0
  {
    if RuneLen(s) == 1 then s[0]
    else if RuneLen(s) == 2 then (s[0] - 0xC0) * 0x40 + (s[1] - 0x80)
    else if RuneLen(s) == 3 then ((s[0] - 0xE0) * 0x40 + (s[1] - 0x80)) * 0x40 + (s[2] - 0x80)
    else (((s[0] - 0xF0) * 0x40 + (s[1] - 0x80)) * 0x40 + (s[2] - 0x80)) * 0x40 + (s[3] - 0x80)
  }

  /** Unicode's White_Space property. */
  predicate IsWhite(u: int) {
    || 0x09 <= u <= 0x0D || u == 0x20 || u == 0x85 || u == 0xA0 || u == 0x1680
    || 0x2000 <= u <= 0x200A || u == 0x2028 || u == 0x2029 || u == 0x202F || u == 0x205F || u == 0x3000
  }

  lemma {:induction false} SpaceLenExactly(s: Bytes)
    ensures SpaceLen(s) == if RuneLen(s) > 0 && IsWhite(CodePoint(s)) then RuneLen(s) else 0
  {
  }

  /** The words of a start time are split at the same characters. */
  lemma {:induction false} WordsSplitAtWhite(c: char)
    ensures KillGuard.IsSpace(c) <==> IsWhite(c as int)
  {
  }

  predicate AllWhite(s: Bytes)
    decreases |s|
  {
    s == [] || (RuneLen(s) > 0 && IsWhite(CodePoint(s)) && AllWhite(s[RuneLen(s)..]))
  }

  predicate StartsWhite(s: Bytes) {
    RuneLen(s) > 0 && IsWhite(CodePoint(s))
  }

  /** The last n bytes are one white character. */
  predicate EndsWhiteBy(s: Bytes, n: nat) {
    0 < n <= |s| && StartsWhite(s[|s| - n..]) && RuneLen(s[|s| - n..]) == n
  }

  ghost predicate EndsWhite(s: Bytes) {
    exists n: nat :: EndsWhiteBy(s, n)
  }

  lemma {:induction false} LeftTrimmed(s: Bytes) returns (lead: Bytes)
    ensures s == lead + TrimLeft(s) && AllWhite(lead) && !StartsWhite(TrimLeft(s))
    decreases |s|
  {
    hide CodePoint, IsWhite, RuneLen, SpaceLen;
    SpaceLenExactly(s);
    if SpaceLen(s) > 0 {
      var n := SpaceLen(s);
      var more := LeftTrimmed(s[n..]);
      lead := s[..n] + more;
      assert s == s[..n] + s[n..];
      WhiteMore(s[..n], s[n..], more);
    } else {
      lead := [];
    }
  }

  /** A white character in front of white space makes white space. */
  lemma {:induction false} WhiteMore(c: Bytes, after: Bytes, white: Bytes)
    requires StartsWhite(c + after) && RuneLen(c + after) == |c| && AllWhite(white)
    ensures AllWhite(c + white)
  {
    OnlyFront(c, after);
    OnlyFrontOf(c, white);
    assert (c + white)[|c|..] == white;
    hide CodePoint, IsWhite, RuneLen;
  }

  lemma {:induction false} OnlyFront(c: Bytes, after: Bytes)
    requires RuneLen(c + after) == |c| > 0
    ensures RuneLen(c) == |c| && CodePoint(c) == CodePoint(c + after)
  {
    assert forall i | 0 <= i < |c| :: (c + after)[i] == c[i];
  }

  lemma {:induction false} OnlyFrontOf(c: Bytes, after: Bytes)
    requires RuneLen(c) == |c| > 0
    ensures RuneLen(c + after) == |c| && CodePoint(c) == CodePoint(c + after)
  {
    assert forall i | 0 <= i < |c| :: (c + after)[i] == c[i];
  }

  lemma {:induction false} TrimsOne(s: Bytes) returns (n: nat)
    requires EndsWhite(s)
    ensures EndsWhiteBy(s, n) && TrimRight(s) == TrimRight(s[..|s| - n])
  {
    EndsExactly(s);
    n := if EndsWithSpace(s, 1) then 1 else if EndsWithSpace(s, 2) then 2 else 3;
    EndIs(s, n);
  }

  lemma {:induction false} EndIs(s: Bytes, n: nat)
    requires EndsWithSpace(s, n)
    ensures EndsWhiteBy(s, n)
  {
    SpaceLenExactly(s[|s| - n..]);
    hide CodePoint, IsWhite, RuneLen, SpaceLen;
  }

  lemma {:induction false} TrimsNone(s: Bytes)
    requires !EndsWhite(s)
    ensures TrimRight(s) == s
  {
    EndsExactly(s);
  }

  lemma {:induction false} RightTrimmed(s: Bytes) returns (trail: Bytes)
    ensures s == TrimRight(s) + trail && AllWhite(trail) && !EndsWhite(TrimRight(s))
    decreases |s|
  {
    hide TrimRight, EndsWhite, StartsWhite, RuneLen;
    if EndsWhite(s) {
      var n := TrimsOne(s);
      var more := RightTrimmed(s[..|s| - n]);
      var last := s[|s| - n..];
      trail := more + last;
      assert s == s[..|s| - n] + last;
      Regroup3(TrimRight(s), more, last);
      WhiteLast(more, last);
    } else {
      TrimsNone(s);
      trail := [];
    }
  }

  lemma {:induction false} WhiteLast(white: Bytes, last: Bytes)
    requires AllWhite(white) && StartsWhite(last) && RuneLen(last) == |last|
    ensures AllWhite(white + last)
    decreases |white|
  {
    hide CodePoint, IsWhite, RuneLen;
    if white == [] {
      assert white + last == last && last[|last|..] == [];
    } else {
      var n := RuneLen(white);
      WhiteLast(white[n..], last);
      assert white == white[..n] + white[n..] && white + last == white[..n] + (white[n..] + last);
      WhiteMore(white[..n], white[n..], white[n..] + last);
    }
  }

  lemma {:induction false} EndsExactly(s: Bytes)
    ensures EndsWhite(s) <==> EndsWithSpace(s, 1) || EndsWithSpace(s, 2) || EndsWithSpace(s, 3)
  {
    forall n: nat ensures EndsWhiteBy(s, n) <==> EndsWithSpace(s, n) && 1 <= n <= 3 {
      if 0 < n <= |s| {
        SpaceLenExactly(s[|s| - n..]);
        ShortSpace(s[|s| - n..]);
      }
    }
    hide EndsWithSpace, EndsWhiteBy;

  }

  lemma ShortSpace(s: Bytes)
    ensures SpaceLen(s) <= 3
  {
  }

  /** Trimming takes away white space at both ends, all of it, and nothing else. */
  lemma {:induction false} TrimExactly(s: Bytes) returns (lead: Bytes, trail: Bytes)
    ensures s == lead + TrimSpace(s) + trail && AllWhite(lead) && AllWhite(trail)
    ensures !StartsWhite(TrimSpace(s)) && !EndsWhite(TrimSpace(s))
  {
    hide CodePoint, IsWhite, RuneLen, SpaceLen, TrimLeft, TrimRight, AllWhite, EndsWhite;
    lead := LeftTrimmed(s);
    trail := RightTrimmed(TrimLeft(s));
    Regroup3(lead, TrimSpace(s), trail);
    if StartsWhite(TrimSpace(s)) { WhiteInFront(TrimSpace(s), trail); }
  }

  lemma {:induction false} WhiteInFront(a: Bytes, b: Bytes)
    requires StartsWhite(a)
    ensures StartsWhite(a + b)
  {
    RuneLenOfFront(a, b);
    assert forall i | 0 <= i < |a| :: (a + b)[i] == a[i];
  }

  /** Stripping takes away white space byte by byte and leaves every other byte where it is. */
  lemma {:induction false} StripExactly(a: Bytes, b: int)
    ensures Strip(a + [b]) == Strip(a) + (if b in {0x09, 0x0A, 0x0B, 0x0C, 0x0D, 0x20} then [] else [b])
  {
    StripAppend(a, [b]);
    assert [b][1..] == [] && [b] + Strip([]) == [b];
  }

  // ---------- UTF-8 ----------

  predicate IsScalar(u: int) {
    0 <= u <= 0x10FFFF && !(0xD800 <= u <= 0xDFFF)
  }

  /** The bytes of a code point, by the table in section 3 of RFC 3629. */
  function Utf8Of(u: int): Bytes
    requires IsScalar(u)
  {
    if u < 0x80 then [u]
    else if u < 0x800 then [0xC0 + u / 0x40, 0x80 + u % 0x40]
    else if u < 0x1_0000 then [0xE0 + u / 0x40 / 0x40, 0x80 + u / 0x40 % 0x40, 0x80 + u % 0x40]
    else [0xF0 + u / 0x40 / 0x40 / 0x40, 0x80 + u / 0x40 / 0x40 % 0x40, 0x80 + u / 0x40 % 0x40, 0x80 + u % 0x40]
  }

  predicate AllScalars(us: seq<int>) {
    forall i | 0 <= i < |us| :: IsScalar(us[i])
  }

  function Utf8OfAll(us: seq<int>): Bytes
    requires AllScalars(us)
  {
    if us == [] then [] else Utf8Of(us[0]) + Utf8OfAll(us[1..])
  }

  lemma {:induction false} ReadsCodePoint(u: int, rest: Bytes)
    requires IsScalar(u)
    ensures var s := Utf8Of(u) + rest; RuneLen(s) == |Utf8Of(u)| && s[RuneLen(s)..] == rest && CodePoint(s) == u
  {
    SixBits(u);
    SixBits(u / 0x40);
    SixBits(u / 0x40 / 0x40);
    ReadsBytes(Utf8Of(u), rest, u / 0x40 / 0x40 / 0x40, u / 0x40 / 0x40 % 0x40, u / 0x40 % 0x40, u % 0x40, u);
  }

  lemma {:induction false} SixBits(u: int)
    requires 0 <= u <= 0x10FFFF
    ensures u / 0x40 * 0x40 + u % 0x40 == u && 0 <= u % 0x40 < 0x40 && 0 <= u / 0x40
  {
  }

  /** a, b, c and d are the digits of u in base 64; how many of them are written depends on u. */
  lemma {:induction false} ReadsBytes(e: Bytes, rest: Bytes, a: int, b: int, c: int, d: int, u: int)
    requires IsScalar(u) && u == ((a * 0x40 + b) * 0x40 + c) * 0x40 + d
    requires 0 <= a && 0 <= b < 0x40 && 0 <= c < 0x40 && 0 <= d < 0x40
    requires e == if u < 0x80 then [u] else if u < 0x800 then [0xC0 + (a * 0x40 + b) * 0x40 + c, 0x80 + d]
                  else if u < 0x1_0000 then [0xE0 + a * 0x40 + b, 0x80 + c, 0x80 + d]
                  else [0xF0 + a, 0x80 + b, 0x80 + c, 0x80 + d]
    ensures RuneLen(e + rest) == |e| && (e + rest)[|e|..] == rest && CodePoint(e + rest) == u
  {
    assert (e + rest)[|e|..] == rest && forall i | 0 <= i < |e| :: (e + rest)[i] == e[i];
  }

  lemma {:induction false} OneDigit(a: int, d: int)
    requires 0 <= d < 0x40
    ensures (a * 0x40 + d) / 0x40 == a && (a * 0x40 + d) % 0x40 == d
  {
  }

  lemma {:induction false} WritesTwo(s: Bytes)
    requires RuneLen(s) == 2
    ensures IsScalar(CodePoint(s)) && s[..2] == Utf8Of(CodePoint(s))
  {
    OneDigit(s[0] - 0xC0, s[1] - 0x80);
  }

  lemma {:induction false} WritesThree(s: Bytes)
    requires RuneLen(s) == 3
    ensures IsScalar(CodePoint(s)) && s[..3] == Utf8Of(CodePoint(s))
  {
    OneDigit(s[0] - 0xE0, s[1] - 0x80);
    OneDigit((s[0] - 0xE0) * 0x40 + (s[1] - 0x80), s[2] - 0x80);
  }

  lemma {:induction false} WritesFour(s: Bytes)
    requires RuneLen(s) == 4
    ensures IsScalar(CodePoint(s)) && s[..4] == Utf8Of(CodePoint(s))
  {
    OneDigit(s[0] - 0xF0, s[1] - 0x80);
    OneDigit((s[0] - 0xF0) * 0x40 + (s[1] - 0x80), s[2] - 0x80);
    OneDigit(((s[0] - 0xF0) * 0x40 + (s[1] - 0x80)) * 0x40 + (s[2] - 0x80), s[3] - 0x80);
  }

  lemma {:induction false} WritesCodePoint(s: Bytes)
    requires RuneLen(s) > 0
    ensures IsScalar(CodePoint(s)) && s[..RuneLen(s)] == Utf8Of(CodePoint(s))
  {
    if RuneLen(s) == 2 {
      WritesTwo(s);
    } else if RuneLen(s) == 3 {
      WritesThree(s);
    } else if RuneLen(s) == 4 {
      WritesFour(s);
    }
  }

  lemma {:induction false} EncodedIsValid(us: seq<int>)
    requires AllScalars(us)
    ensures Valid(Utf8OfAll(us))
    decreases |us|
  {
    hide RuneLen, Utf8Of, CodePoint;
    if us != [] {
      ReadsCodePoint(us[0], Utf8OfAll(us[1..]));
      NotEmpty(us[0]);
      EncodedIsValid(us[1..]);
    }
  }

  lemma NotEmpty(u: int)
    requires IsScalar(u)
    ensures Utf8Of(u) != []
  {
  }

  lemma {:induction false} ScalarsOf(s: Bytes) returns (us: seq<int>)
    requires Valid(s)
    ensures AllScalars(us) && s == Utf8OfAll(us)
    decreases |s|
  {
    hide RuneLen, Utf8Of, CodePoint, IsScalar;
    if s == [] {
      us := [];
    } else {
      var n := RuneLen(s);
      var more := ScalarsOf(s[n..]);
      WritesCodePoint(s);
      us := [CodePoint(s)] + more;
      assert us[1..] == more && s == s[..n] + s[n..];
    }
  }

  /** A text is valid exactly when it is the encoding of scalar values: no surrogates, no longer form than needed. */
  lemma {:induction false} ValidExactly(s: Bytes)
    ensures Valid(s) <==> exists us: seq<int> :: AllScalars(us) && s == Utf8OfAll(us)
  {
    hide Valid, Utf8OfAll, IsScalar;
    if Valid(s) {
      var us := ScalarsOf(s);
    }
    if us: seq<int> :| AllScalars(us) && s == Utf8OfAll(us) {
      EncodedIsValid(us);
    }
  }
}
