/**
 The escape decoders of scan/unescape.go, and when exactly they undo the notation of their tools.
 */
module Unescape {
  import opened ByteStrings
  import opened Sequences
  import opened Utf8

  const CARET := 0x5E
  const DASH := 0x2D
  const LETTER_M := 0x4D
  const LETTER_X := 0x78
  const BACKSLASH := 0x5C

  // ---------- The commit rule ----------

  function Commit(original: Bytes, decoded: Bytes): Bytes {
    if decoded == original || !Valid(decoded) then original
    else if RuneCount(decoded) == |decoded| then original
    else decoded
  }

  /** A decoder changes its input only into valid UTF-8 with a multi-byte character. */
  lemma {:induction false} ChangeIsGenuine(original: Bytes, decoded: Bytes)
    ensures var r := Commit(original, decoded);
            r != original ==> r == decoded && Valid(r) && HasMultibyte(r)
  {
    if Valid(decoded) {
      FewerRunes(decoded);
    }
  }

  lemma {:induction false} CommitsTo(original: Bytes, x: Bytes, decoded: Bytes)
    requires original != x && Valid(x) && HasMultibyte(x)
    ensures Commit(original, decoded) == x <==> decoded == x
  {
    FewerRunes(x);
  }

  // ---------- lsof ----------

  /** \xHH with two hexadecimal digits. */
  predicate StartsHexEscape(s: Bytes) {
    |s| >= 4 && s[0] == BACKSLASH && s[1] == LETTER_X && IsHexDigit(s[2]) && IsHexDigit(s[3])
  }

  function DecodeLsof(s: Bytes): (r: Bytes)
    ensures |r| <= |s|
    decreases |s|
  {
    if s == [] then []
    else if StartsHexEscape(s) then [16 * HexValue(s[2]) + HexValue(s[3])] + DecodeLsof(s[4..])
    else [s[0]] + DecodeLsof(s[1..])
  }

  predicate StartsEscape(s: Bytes) {
    |s| >= 2 && s[0] == BACKSLASH && s[1] == LETTER_X
  }

  predicate ContainsEscape(s: Bytes) {
    exists i :: 0 <= i < |s| && StartsEscape(s[i..])
  }

  lemma {:induction false} PlainLsof(s: Bytes)
    requires !ContainsEscape(s)
    ensures DecodeLsof(s) == s
    decreases |s|
  {
    if s != [] {
      assert s[0..] == s;
      assert !StartsEscape(s);
      forall i | 0 <= i < |s[1..]| ensures !StartsEscape(s[1..][i..]) {
        assert s[1..][i..] == s[i + 1..];
        assert !StartsEscape(s[i + 1..]);
      }
      PlainLsof(s[1..]);
    }
  }

  method FindEscape(s: Bytes) returns (found: bool)
    ensures found <==> ContainsEscape(s)
  {
    for i := 0 to |s|
      invariant forall j | 0 <= j < i :: !StartsEscape(s[j..])
    {
      if i + 1 < |s| && s[i] == BACKSLASH && s[i + 1] == LETTER_X {
        assert StartsEscape(s[i..]);
        return true;
      }
    }
    return false;
  }

  method UnescapeLsof(s: Bytes) returns (r: Bytes)
    ensures r == Commit(s, DecodeLsof(s))
  {
    var found := FindEscape(s);
    if !found {
      PlainLsof(s);
      return s;
    }
    hide DecodeLsof, HexValue, IsHexDigit;
    var out: Bytes := [];
    var i := 0;
    assert s[0..] == s && [] + DecodeLsof(s) == DecodeLsof(s);
    while i < |s|
      invariant 0 <= i <= |s|
      invariant DecodeLsof(s) == out + DecodeLsof(s[i..])
      decreases |s| - i
    {
      LsofStep(s, i, out);
      if i + 3 < |s| && s[i] == BACKSLASH && s[i + 1] == LETTER_X && IsHexDigit(s[i + 2]) && IsHexDigit(s[i + 3]) {
        out := out + [16 * HexValue(s[i + 2]) + HexValue(s[i + 3])];
        i := i + 4;
      } else {
        out := out + [s[i]];
        i := i + 1;
      }
    }
    assert s[i..] == [];
    EmptyLsof();
    assert out + [] == out;
    return Commit(s, out);
  }

  /** One turn of the loop: an escape of four bytes, or one byte as it is. */
  lemma {:induction false} LsofStep(s: Bytes, i: nat, out: Bytes)
    requires i < |s| && DecodeLsof(s) == out + DecodeLsof(s[i..])
    ensures DecodeLsof(s) ==
      if i + 3 < |s| && s[i] == BACKSLASH && s[i + 1] == LETTER_X && IsHexDigit(s[i + 2]) && IsHexDigit(s[i + 3])
      then out + [16 * HexValue(s[i + 2]) + HexValue(s[i + 3])] + DecodeLsof(s[i + 4..])
      else out + [s[i]] + DecodeLsof(s[i + 1..])
  {
    hide HexValue, IsHexDigit;
    var rest := s[i..];
    assert rest[1..] == s[i + 1..];
    if |rest| >= 4 { assert rest[4..] == s[i + 4..]; }
    TakeOne(out, DecodeLsof(rest));
  }

  lemma TakeOne(out: Bytes, decoded: Bytes)
    ensures decoded != [] ==> out + decoded == out + [decoded[0]] + decoded[1..]
  {
  }

  function EscapeByteLsof(b: int): Bytes {
    if b >= 0x80 then [BACKSLASH, LETTER_X, LowerHex(b / 16), LowerHex(b % 16)] else [b]
  }

  /** What lsof prints for a name: every byte from 0x80 up as \xHH. */
  function EscapeLsof(x: Bytes): Bytes {
    if x == [] then [] else EscapeByteLsof(x[0]) + EscapeLsof(x[1..])
  }

  /** The name itself contains no \xHH. */
  predicate NoHexEscape(x: Bytes) {
    forall i | 0 <= i < |x| :: !StartsHexEscape(x[i..])
  }

  lemma {:induction false} EscapedStart(x: Bytes, n: nat)
    requires n < |x| && forall i | 0 <= i < n :: x[i] < 0x80
    ensures n < |EscapeLsof(x)|
    ensures forall i | 0 <= i < n :: EscapeLsof(x)[i] == x[i]
    ensures EscapeLsof(x)[n] == if x[n] < 0x80 then x[n] else BACKSLASH
    decreases n
  {
    if n > 0 {
      EscapedStart(x[1..], n - 1);
      assert EscapeLsof(x) == [x[0]] + EscapeLsof(x[1..]);
    }
  }

  /** Escaping neither makes nor hides an escape at the front, unless the front byte is escaped. */
  lemma {:induction false} FrontEscape(x: Bytes)
    requires x != [] && x[0] < 0x80
    ensures StartsHexEscape(EscapeLsof(x)) <==> StartsHexEscape(x)
  {
    var e := EscapeLsof(x);
    EscapedStart(x, 0);
    if |x| >= 2 { EscapedStart(x, 1); }
    if |x| >= 3 && x[1] < 0x80 { EscapedStart(x, 2); }
    if |x| >= 4 && x[1] < 0x80 && x[2] < 0x80 { EscapedStart(x, 3); }
    if |x| < 4 && forall i | 0 <= i < |x| :: x[i] < 0x80 {
      AsciiStaysLsof(x);
    }
  }

  lemma {:induction false} AsciiStaysLsof(x: Bytes)
    requires forall i | 0 <= i < |x| :: x[i] < 0x80
    ensures EscapeLsof(x) == x
    decreases |x|
  {
    if x != [] { AsciiStaysLsof(x[1..]); }
  }

  lemma {:induction false} AsciiFirstLsof(b: int, rest: Bytes)
    requires b < 0x80
    ensures EscapeLsof([b] + rest) == [b] + EscapeLsof(rest)
  {
    assert ([b] + rest)[1..] == rest;
  }

  lemma {:induction false} AsciiPrefixLsof(x: Bytes, n: nat)
    requires n <= |x| && forall i | 0 <= i < n :: x[i] < 0x80
    ensures EscapeLsof(x) == x[..n] + EscapeLsof(x[n..])
    decreases n
  {
    hide EscapeLsof;
    if n == 0 {
      assert x[0..] == x && [] + EscapeLsof(x) == EscapeLsof(x);
    } else {
      AsciiPrefixLsof(x, n - 1);
      assert x[n - 1..] == [x[n - 1]] + x[n..];
      AsciiFirstLsof(x[n - 1], x[n..]);
      Regroup3(x[..n - 1], [x[n - 1]], EscapeLsof(x[n..]));
      assert x[..n - 1] + [x[n - 1]] == x[..n];
    }
  }

  lemma {:induction false} HexPair(b: int)
    requires 0x80 <= b < 0x100
    ensures StartsHexEscape(EscapeByteLsof(b)) && 16 * HexValue(LowerHex(b / 16)) + HexValue(LowerHex(b % 16)) == b
  {
  }

  lemma {:induction false} DecodeFront(x: Bytes)
    requires x != [] && AreBytes(x)
    ensures var e := DecodeLsof(EscapeLsof(x));
            if StartsHexEscape(x) then
              e == [16 * HexValue(x[2]) + HexValue(x[3])] + DecodeLsof(EscapeLsof(x[4..]))
            else e == [x[0]] + DecodeLsof(EscapeLsof(x[1..]))
  {
    var e, more := EscapeLsof(x), EscapeLsof(x[1..]);
    if x[0] >= 0x80 {
      HexPair(x[0]);
      assert e[..4] == EscapeByteLsof(x[0]) && e[4..] == more;
    } else {
      FrontEscape(x);
      assert e[1..] == more;
      if StartsHexEscape(x) {
        AsciiPrefixLsof(x, 4);
        assert e[4..] == EscapeLsof(x[4..]);
        assert e[2] == x[..4][2] == x[2] && e[3] == x[..4][3] == x[3];
      }
    }
  }

  lemma {:induction false} NoHexEscapeTail(x: Bytes)
    requires x != []
    ensures NoHexEscape(x) <==> !StartsHexEscape(x) && NoHexEscape(x[1..])
  {
    assert x[0..] == x;
    forall i | 0 <= i < |x| - 1 ensures x[1..][i..] == x[i + 1..] {}
    if !StartsHexEscape(x) && NoHexEscape(x[1..]) {
      forall i | 0 <= i < |x| ensures !StartsHexEscape(x[i..]) {
        if i > 0 { assert x[1..][i - 1..] == x[i..]; }
      }
    }
    if NoHexEscape(x) {
      forall i | 0 <= i < |x[1..]| ensures !StartsHexEscape(x[1..][i..]) {
        assert x[1..][i..] == x[i + 1..];
      }
    }
  }

  lemma {:induction false} DecodeUndoesEscapeLsof(x: Bytes)
    requires AreBytes(x)
    ensures NoHexEscape(x) ==> DecodeLsof(EscapeLsof(x)) == x
    ensures !NoHexEscape(x) ==> |DecodeLsof(EscapeLsof(x))| < |x|
    ensures |DecodeLsof(EscapeLsof(x))| <= |x|
    decreases |x|
  {
    hide EscapeLsof, DecodeLsof, NoHexEscape, StartsHexEscape;
    if x != [] {
      DecodeFront(x);
      NoHexEscapeTail(x);
      DecodeUndoesEscapeLsof(x[1..]);
      if StartsHexEscape(x) {
        LongEnough(x);
        DecodeUndoesEscapeLsof(x[4..]);
      }
    } else {
      EmptyLsof();
    }
  }

  lemma LongEnough(x: Bytes)
    requires StartsHexEscape(x)
    ensures |x| >= 4
  {
  }

  lemma EmptyLsof()
    ensures DecodeLsof(EscapeLsof([])) == [] && NoHexEscape([])
  {
  }

  lemma {:induction false} EscapedIsAscii(x: Bytes)
    requires AreBytes(x)
    ensures !HasMultibyte(EscapeLsof(x))
    decreases |x|
  {
    if x != [] { EscapedIsAscii(x[1..]); }
  }

  /** A name with a multi-byte character comes back exactly when it contains no literal \xHH. */
  lemma {:induction false} LsofRoundTrip(x: Bytes)
    requires AreBytes(x) && Valid(x) && HasMultibyte(x)
    ensures Commit(EscapeLsof(x), DecodeLsof(EscapeLsof(x))) == x <==> NoHexEscape(x)
  {
    hide EscapeLsof, DecodeLsof, Commit, Valid;
    EscapedIsAscii(x);
    DecodeUndoesEscapeLsof(x);
    CommitsTo(EscapeLsof(x), x, DecodeLsof(EscapeLsof(x)));
  }

  // ---------- ps ----------

  /** (b & 0x1f) | 0x80 and b | 0x80 and b & 0x1f, on byte values. */
  function HighControl(b: int): int { b % 32 + 0x80 }

  function SetHigh(b: int): int { if b < 0x80 then b + 0x80 else b }

  function Control(b: int): int { b % 32 }

  predicate StartsDashCaret(s: Bytes) {
    |s| > 3 && s[0] == LETTER_M && s[1] == DASH && s[2] == CARET
  }

  predicate StartsMCaret(s: Bytes) {
    |s| > 2 && s[0] == LETTER_M && s[1] == CARET
  }

  predicate StartsMDash(s: Bytes) {
    |s| > 2 && s[0] == LETTER_M && s[1] == DASH
  }

  predicate StartsCaret(s: Bytes) {
    |s| > 1 && s[0] == CARET && s[1] != 0x20
  }

  function DecodePs(s: Bytes): Bytes
    decreases |s|
  {
    if s == [] then []
    else if StartsDashCaret(s) then [HighControl(s[3])] + DecodePs(s[4..])
    else if StartsMCaret(s) then [HighControl(s[2])] + DecodePs(s[3..])
    else if StartsMDash(s) then [SetHigh(s[2])] + DecodePs(s[3..])
    else if StartsCaret(s) then [Control(s[1])] + DecodePs(s[2..])
    else [s[0]] + DecodePs(s[1..])
  }

  lemma {:induction false} PlainPs(s: Bytes)
    requires forall i | 0 <= i < |s| :: s[i] != LETTER_M && s[i] != CARET
    ensures DecodePs(s) == s
    decreases |s|
  {
    if s != [] { PlainPs(s[1..]); }
  }

  method UnescapePs(s: Bytes) returns (r: Bytes)
    ensures r == Commit(s, DecodePs(s))
  {
    hide DecodePs, Commit;
    if !(LETTER_M in s) && !(CARET in s) {
      PlainPs(s);
      Unchanged(s);
      return s;
    }
    var out: Bytes := [];
    var i := 0;
    assert s[0..] == s && [] + DecodePs(s) == DecodePs(s);
    while i < |s|
      invariant 0 <= i <= |s|
      invariant DecodePs(s) == out + DecodePs(s[i..])
      decreases |s| - i
    {
      var b, n := NextPs(s, i);
      out := out + [b];
      i := i + n;
    }
    NothingLeft(s, out);
    return Commit(s, out);
  }

  lemma NothingLeft(s: Bytes, out: Bytes)
    ensures out + DecodePs(s[|s|..]) == out
  {
  }

  lemma Unchanged(s: Bytes)
    ensures Commit(s, s) == s
  {
  }

  /** The switch of the loop: the next decoded byte and how many bytes it took. */
  method NextPs(s: Bytes, i: nat) returns (b: int, n: nat)
    requires i < |s|
    ensures 0 < n && i + n <= |s|
    ensures forall out: Bytes :: out + DecodePs(s[i..]) == out + [b] + DecodePs(s[i + n..])
  {
    ghost var rest := s[i..];
    if i + 3 < |s| && s[i] == LETTER_M && s[i + 1] == DASH && s[i + 2] == CARET {
      b, n := HighControl(s[i + 3]), 4;
    } else if i + 2 < |s| && s[i] == LETTER_M && s[i + 1] == CARET {
      b, n := HighControl(s[i + 2]), 3;
    } else if i + 2 < |s| && s[i] == LETTER_M && s[i + 1] == DASH {
      b, n := SetHigh(s[i + 2]), 3;
    } else if s[i] == CARET && i + 1 < |s| && s[i + 1] != 0x20 {
      b, n := Control(s[i + 1]), 2;
    } else {
      b, n := s[i], 1;
    }
    assert rest[n..] == s[i + n..];
    assert DecodePs(rest) == [b] + DecodePs(rest[n..]);
    forall out: Bytes ensures out + DecodePs(rest) == out + [b] + DecodePs(s[i + n..]) {
      assert out + ([b] + DecodePs(s[i + n..])) == out + [b] + DecodePs(s[i + n..]);
    }
  }

  /** What ps prints for a byte: ^X for a control byte, M^X and M-X for the same with the high bit set. */
  function EscapeBytePs(b: int): Bytes {
    if b < 0x20 then [CARET, b + 0x40]
    else if b == 0x7F then [CARET, 0x3F]
    else if b < 0x80 then [b]
    else if b < 0xA0 then [LETTER_M, CARET, b - 0x40]
    else if b == 0xFF then [LETTER_M, CARET, 0x3F]
    else [LETTER_M, DASH, b - 0x80]
  }

  function EscapePs(x: Bytes): Bytes {
    if x == [] then [] else EscapeBytePs(x[0]) + EscapePs(x[1..])
  }

  predicate IsControl(b: int) {
    b < 0x20 || b == 0x7F
  }

  /**
   The byte at the front is read back wrongly: a caret or an M that its neighbours turn into an
   escape, DEL, or the byte 0xDE, whose M-^ is taken for the dashed control form.
   */
  predicate Misread(x: Bytes)
    requires x != []
  {
    || (x[0] == CARET && |x| > 1 && x[1] != 0x20)
    || (x[0] == LETTER_M && |x| > 2 && (x[1] == DASH || x[1] == CARET))
    || (x[0] == LETTER_M && |x| > 1 && IsControl(x[1]))
    || x[0] == 0x7F
    || (x[0] == 0xDE && |x| > 1)
    || x[0] == 0xFF
  }

  predicate ReadsBack(x: Bytes) {
    forall i | 0 <= i < |x| :: !Misread(x[i..])
  }

  lemma {:induction false} EscapePsStart(x: Bytes)
    requires AreBytes(x)
    ensures |EscapePs(x)| >= |x|
    ensures x == [] ==> EscapePs(x) == []
    ensures forall i | 0 <= i < |EscapePs(x)| :: 0 <= EscapePs(x)[i] < 0x80
    ensures x != [] ==> EscapePs(x) == EscapeBytePs(x[0]) + EscapePs(x[1..])
    ensures x != [] ==> EscapePs(x)[0] == (if IsControl(x[0]) then CARET else if x[0] < 0x80 then x[0] else LETTER_M)
    decreases |x|
  {
    if x != [] { EscapePsStart(x[1..]); }
  }

  /** A byte that stands for itself: what the decoder makes of it depends on what follows. */
  lemma {:induction false} PlainBytePs(x: Bytes)
    requires x != [] && AreBytes(x) && 0x20 <= x[0] < 0x7F
    ensures var e, d := EscapePs(x), DecodePs(EscapePs(x));
            if Misread(x) then d != [] && d[0] != x[0] else d == [x[0]] + DecodePs(EscapePs(x[1..]))
  {
    hide EscapePs;
    EscapePsStart(x);
    EscapePsStart(x[1..]);
    var e, more := EscapePs(x), EscapePs(x[1..]);
    assert e == [x[0]] + more && e[1..] == more;
    if |x| > 1 {
      EscapePsStart(x[2..]);
      assert x[1..][1..] == x[2..];
      assert more == EscapeBytePs(x[1]) + EscapePs(x[2..]);
      assert e[1] == more[0];
    }
  }

  lemma {:induction false} ControlBytePs(x: Bytes)
    requires x != [] && AreBytes(x) && (x[0] < 0x20 || x[0] == 0x7F)
    ensures var e, d := EscapePs(x), DecodePs(EscapePs(x));
            if Misread(x) then d != [] && d[0] != x[0] else d == [x[0]] + DecodePs(EscapePs(x[1..]))
  {
    hide EscapePs;
    EscapePsStart(x);
    EscapePsStart(x[1..]);
    var e, more, m := EscapePs(x), EscapePs(x[1..]), |EscapeBytePs(x[0])|;
    assert e[m..] == more && e[..m] == EscapeBytePs(x[0]);
  }

  lemma {:induction false} HighBytePs(x: Bytes)
    requires x != [] && AreBytes(x) && x[0] >= 0x80
    ensures var e, d := EscapePs(x), DecodePs(EscapePs(x));
            if Misread(x) then d != [] && d[0] != x[0] else d == [x[0]] + DecodePs(EscapePs(x[1..]))
  {
    hide EscapePs;
    EscapePsStart(x);
    EscapePsStart(x[1..]);
    var e, more, m := EscapePs(x), EscapePs(x[1..]), |EscapeBytePs(x[0])|;
    assert e[m..] == more && e[..m] == EscapeBytePs(x[0]);
  }

  lemma {:induction false} EscapedBytePs(x: Bytes)
    requires x != [] && AreBytes(x) && !(0x20 <= x[0] < 0x7F)
    ensures var e, d := EscapePs(x), DecodePs(EscapePs(x));
            if Misread(x) then d != [] && d[0] != x[0] else d == [x[0]] + DecodePs(EscapePs(x[1..]))
  {
    hide EscapePs, DecodePs, Misread;
    if x[0] >= 0x80 { HighBytePs(x); } else { ControlBytePs(x); }
  }

  lemma {:induction false} ReadsBackTail(x: Bytes)
    requires x != []
    ensures ReadsBack(x) <==> !Misread(x) && ReadsBack(x[1..])
  {
    assert x[0..] == x;
    if ReadsBack(x) {
      forall i | 0 <= i < |x[1..]| ensures !Misread(x[1..][i..]) {
        assert x[1..][i..] == x[i + 1..];
      }
    }
    if !Misread(x) && ReadsBack(x[1..]) {
      forall i | 0 <= i < |x| ensures !Misread(x[i..]) {
        if i > 0 { assert x[1..][i - 1..] == x[i..]; }
      }
    }
  }

  lemma {:induction false} DecodeUndoesEscapePs(x: Bytes)
    requires AreBytes(x)
    ensures DecodePs(EscapePs(x)) == x <==> ReadsBack(x)
    decreases |x|
  {
    hide EscapePs, DecodePs, Misread, ReadsBack;
    if x == [] {
      EmptyPs();
    } else {
      if 0x20 <= x[0] < 0x7F { PlainBytePs(x); } else { EscapedBytePs(x); }
      ReadsBackTail(x);
      DecodeUndoesEscapePs(x[1..]);
      assert x == [x[0]] + x[1..];
      if DecodePs(EscapePs(x)) == x && !Misread(x) {
        assert DecodePs(EscapePs(x))[1..] == x[1..];
      }
    }
  }

  lemma EmptyPs()
    ensures DecodePs(EscapePs([])) == [] && ReadsBack([])
  {
  }

  /** A command line with a multi-byte character comes back exactly when none of its bytes is misread. */
  lemma {:induction false} PsRoundTrip(x: Bytes)
    requires AreBytes(x) && Valid(x) && HasMultibyte(x)
    ensures Commit(EscapePs(x), DecodePs(EscapePs(x))) == x <==> ReadsBack(x)
  {
    hide EscapePs, DecodePs, Commit, Valid, ReadsBack;
    EscapePsStart(x);
    DecodeUndoesEscapePs(x);
    CommitsTo(EscapePs(x), x, DecodePs(EscapePs(x)));
  }

  /** In particular it comes back when it has no caret, no M-, no control byte and no byte 0xDE. */
  lemma {:induction false} PsPlainText(x: Bytes)
    requires AreBytes(x) && Valid(x) && HasMultibyte(x)
    requires forall i | 0 <= i < |x| :: x[i] != CARET && !IsControl(x[i]) && x[i] != 0xDE
    requires forall i | 0 <= i < |x| - 1 :: !(x[i] == LETTER_M && x[i + 1] == DASH)
    ensures Commit(EscapePs(x), DecodePs(EscapePs(x))) == x
  {
    hide EscapePs, DecodePs, Commit;
    forall i | 0 <= i < |x| ensures !Misread(x[i..]) {
      NoFF(x, i);
      assert |x[i..]| > 1 ==> x[i..][1] == x[i + 1];
    }
    PsRoundTrip(x);
  }

  lemma {:induction false} NoFF(x: Bytes, i: nat)
    requires Valid(x) && i < |x|
    ensures x[i] != 0xFF
    decreases |x|
  {
    var n := RuneLen(x);
    if i >= n { NoFF(x[n..], i - n); }
  }

  /** An M before a control byte is misread too, with no caret and no M- in the text. */
  lemma {:induction false} MBeforeControl()
    ensures var x := [LETTER_M, 0x01, 0xC3, 0xA9];
            Valid(x) && HasMultibyte(x) && !ReadsBack(x) && Commit(EscapePs(x), DecodePs(EscapePs(x))) != x
  {
    var x := [LETTER_M, 0x01, 0xC3, 0xA9];
    assert x[0..] == x && Misread(x[0..]);
    assert x[1..] == [0x01, 0xC3, 0xA9] && x[1..][1..] == [0xC3, 0xA9];
    assert x[2] >= 0x80;
    assert Valid([0xC3, 0xA9]) by { assert [0xC3, 0xA9][2..] == []; }
    assert Valid(x[1..]);
    PsRoundTrip(x);
  }
}
