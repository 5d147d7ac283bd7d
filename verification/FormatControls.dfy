/**
 The escaping loop of writeData in cmd/datacenter.go, over code points: every format control is
 written as one \u escape, or as a surrogate pair of them above U+FFFF.

 Which code points are format controls is a table of the standard library (category Cf). Here it
 is any set of code points above ASCII that contains no surrogate.
 */
module FormatControls {
  import opened Wrappers
  import opened ByteStrings
  import opened JsonGrammar
  import opened JsonLexer

  predicate IsSurrogate(u: int) {
    0xD800 <= u <= 0xDFFF
  }

  predicate IsHigh(u: int) {
    0xD800 <= u <= 0xDBFF
  }

  predicate IsLow(u: int) {
    0xDC00 <= u <= 0xDFFF
  }

  ghost predicate IsFormatTable(cf: int -> bool) {
    forall u: int | cf(u) :: 0x80 <= u <= 0x10FFFF && !IsSurrogate(u)
  }

  // ---------- Escaping ----------

  /** \u and four lower-case hexadecimal digits. */
  function UnicodeEscape(u: int): Units {
    [BACKSLASH, 0x75, LowerHex(u / 0x1000), LowerHex(u / 0x100 % 0x10), LowerHex(u / 0x10 % 0x10), LowerHex(u % 0x10)]
  }

  function HighOf(u: int): int {
    0xD800 + (u - 0x10000) / 0x400
  }

  function LowOf(u: int): int {
    0xDC00 + (u - 0x10000) % 0x400
  }

  function EscapeUnit(cf: int -> bool, u: int): Units {
    if !cf(u) then [u]
    else if u > 0xFFFF then UnicodeEscape(HighOf(u)) + UnicodeEscape(LowOf(u))
    else UnicodeEscape(u)
  }

  function Escape(cf: int -> bool, text: Units): Units {
    if text == [] then [] else EscapeUnit(cf, text[0]) + Escape(cf, text[1..])
  }

  lemma {:induction false} PlainUnit(cf: int -> bool, u: int)
    requires !cf(u)
    ensures EscapeUnit(cf, u) == [u] && Escape(cf, [u]) == [u]
  {
    assert [u] + Escape(cf, []) == [u];
  }

  lemma {:induction false} EscapeAppend(cf: int -> bool, a: Units, b: Units)
    ensures Escape(cf, a + b) == Escape(cf, a) + Escape(cf, b)
    decreases |a|
  {
    hide EscapeUnit;
    if a == [] {
      assert a + b == b;
    } else {
      assert (a + b)[1..] == a[1..] + b;
      EscapeAppend(cf, a[1..], b);
    }
  }

  method EscapeFormatControls(cf: int -> bool, encoded: Units) returns (b: Units)
    ensures b == Escape(cf, encoded)
  {
    hide EscapeUnit;
    b := [];
    for i := 0 to |encoded|
      invariant b == Escape(cf, encoded[..i])
    {
      var r := encoded[i];
      assert encoded[..i + 1] == encoded[..i] + [r];
      EscapeAppend(cf, encoded[..i], [r]);
      assert Escape(cf, [r]) == EscapeUnit(cf, r) + [] == EscapeUnit(cf, r);
      var piece := WriteUnit(cf, r);
      b := b + piece;
    }
    assert encoded[..|encoded|] == encoded;
  }

  method WriteUnit(cf: int -> bool, r: int) returns (piece: Units)
    ensures piece == EscapeUnit(cf, r)
  {
    if cf(r) {
      if r > 0xFFFF {
        var a, z := HighOf(r), LowOf(r);
        piece := UnicodeEscape(a) + UnicodeEscape(z);
      } else {
        piece := UnicodeEscape(r);
      }
    } else {
      piece := [r];
    }
  }

  // ---------- What a string means ----------

  /** The four digits after \u, read as a number. */
  function FourHex(s: Units): int
    requires |s| >= 6
  {
    0x1000 * HexValue(s[2]) + 0x100 * HexValue(s[3]) + 0x10 * HexValue(s[4]) + HexValue(s[5])
  }

  function SimpleValue(u: int): int {
    if u == 0x62 then 0x08
    else if u == 0x66 then 0x0C
    else if u == 0x6E then 0x0A
    else if u == 0x72 then 0x0D
    else if u == 0x74 then 0x09
    else u
  }

  predicate StartsUnicodeEscape(s: Units) {
    |s| >= 6 && s[0] == BACKSLASH && s[1] == 0x75
  }

  predicate StartsLow(s: Units) {
    StartsUnicodeEscape(s) && IsLow(FourHex(s))
  }

  function Combine(high: int, low: int): int {
    0x10000 + (high - 0xD800) * 0x400 + (low - 0xDC00)
  }

  lemma {:induction false} BodyAfterHex(s: Units)
    requires IsStringBody(s) && StartsUnicodeEscape(s)
    ensures IsStringBody(s[6..])
  {
  }

  /** The code points a string body stands for; a lone surrogate escape stands for U+FFFD. */
  function Decode(s: Units): Units
    requires IsStringBody(s)
    decreases |s|
  {
    if s == [] then []
    else if s[0] != BACKSLASH then [s[0]] + Decode(s[1..])
    else if IsSimpleEscape(s[1]) then [SimpleValue(s[1])] + Decode(s[2..])
    else
      var u := FourHex(s);
      if IsHigh(u) && StartsLow(s[6..]) then
        BodyAfterHex(s[6..]);
        [Combine(u, FourHex(s[6..]))] + Decode(s[6..][6..])
      else [if IsSurrogate(u) then 0xFFFD else u] + Decode(s[6..])
  }

  lemma {:induction false} HexDigits(n: int)
    requires 0 <= n < 16
    ensures IsHexDigit(LowerHex(n)) && HexValue(LowerHex(n)) == n
  {
  }

  lemma {:induction false} DigitsOf(u: int)
    requires 0 <= u <= 0xFFFF
    ensures 0x1000 * (u / 0x1000) + 0x100 * (u / 0x100 % 0x10) + 0x10 * (u / 0x10 % 0x10) + u % 0x10 == u
    ensures 0 <= u / 0x1000 < 16
  {
    assert u / 0x100 == 0x10 * (u / 0x1000) + u / 0x100 % 0x10;
    assert u / 0x10 == 0x10 * (u / 0x100) + u / 0x10 % 0x10;
  }

  lemma {:induction false} EscapeReadsBack(u: int, rest: Units)
    requires 0 <= u <= 0xFFFF
    ensures var s := UnicodeEscape(u) + rest;
            && StartsUnicodeEscape(s) && FourHex(s) == u && s[6..] == rest && !IsSimpleEscape(s[1])
            && (IsStringBody(s) <==> IsStringBody(rest))
  {
    var s := UnicodeEscape(u) + rest;
    assert s[6..] == rest;
    assert s[2] == LowerHex(u / 0x1000) && s[3] == LowerHex(u / 0x100 % 0x10)
        && s[4] == LowerHex(u / 0x10 % 0x10) && s[5] == LowerHex(u % 0x10);
    hide UnicodeEscape, LowerHex, HexValue, IsHexDigit;
    DigitsOf(u);
    HexDigits(u / 0x1000);
    HexDigits(u / 0x100 % 0x10);
    HexDigits(u / 0x10 % 0x10);
    HexDigits(u % 0x10);
  }

  lemma {:induction false} SurrogatesOf(u: int)
    requires 0xFFFF < u <= 0x10FFFF
    ensures IsHigh(HighOf(u)) && IsLow(LowOf(u)) && Combine(HighOf(u), LowOf(u)) == u
  {
  }

  // ---------- Escaping keeps the meaning of a string ----------

  lemma {:induction false} DecodeEscape(u: int, rest: Units)
    requires 0 <= u <= 0xFFFF && !IsSurrogate(u) && IsStringBody(rest)
    ensures var s := UnicodeEscape(u) + rest; IsStringBody(s) && Decode(s) == [u] + Decode(rest)
  {
    hide IsStringBody, UnicodeEscape, FourHex;
    EscapeReadsBack(u, rest);
  }

  lemma {:induction false} DecodePair(u: int, rest: Units)
    requires 0xFFFF < u <= 0x10FFFF && IsStringBody(rest)
    ensures var s := UnicodeEscape(HighOf(u)) + UnicodeEscape(LowOf(u)) + rest;
            IsStringBody(s) && Decode(s) == [u] + Decode(rest)
  {
    hide IsStringBody, UnicodeEscape, FourHex, HighOf, LowOf, Combine;
    SurrogatesOf(u);
    var low := UnicodeEscape(LowOf(u)) + rest;
    var s := UnicodeEscape(HighOf(u)) + low;
    assert s == UnicodeEscape(HighOf(u)) + UnicodeEscape(LowOf(u)) + rest;
    EscapeReadsBack(LowOf(u), rest);
    EscapeReadsBack(HighOf(u), low);
  }

  lemma {:induction false} DecodeUnit(cf: int -> bool, u: int, rest: Units)
    requires IsFormatTable(cf) && u >= 0x20 && u != QUOTE && u != BACKSLASH && IsStringBody(rest)
    ensures var s := EscapeUnit(cf, u) + rest; IsStringBody(s) && Decode(s) == [u] + Decode(rest)
  {
    hide UnicodeEscape, HighOf, LowOf;
    if !cf(u) {
      assert ([u] + rest)[1..] == rest;
    } else if u > 0xFFFF {
      DecodePair(u, rest);
    } else {
      DecodeEscape(u, rest);
    }
  }

  lemma {:induction false} EscapeAllAscii(cf: int -> bool, s: Units)
    requires IsFormatTable(cf) && forall i | 0 <= i < |s| :: s[i] < 0x80
    ensures Escape(cf, s) == s
    decreases |s|
  {
    if s != [] {
      EscapeAllAscii(cf, s[1..]);
      PlainUnit(cf, s[0]);
      assert [s[0]] + s[1..] == s;
    }
  }

  lemma {:induction false} EscapeAscii(cf: int -> bool, s: Units, n: nat)
    requires IsFormatTable(cf) && n <= |s| && forall i | 0 <= i < n :: s[i] < 0x80
    ensures Escape(cf, s) == s[..n] + Escape(cf, s[n..])
  {
    assert s == s[..n] + s[n..];
    EscapeAppend(cf, s[..n], s[n..]);
    EscapeAllAscii(cf, s[..n]);
  }

  lemma {:induction false} FormatControlIsNotLow(cf: int -> bool, s: Units)
    requires IsFormatTable(cf) && s != [] && cf(s[0])
    ensures !StartsLow(Escape(cf, s))
  {
    hide UnicodeEscape, HighOf, LowOf, FourHex;
    var rest := Escape(cf, s[1..]);
    if s[0] > 0xFFFF {
      SurrogatesOf(s[0]);
      var tail := UnicodeEscape(LowOf(s[0])) + rest;
      assert Escape(cf, s) == UnicodeEscape(HighOf(s[0])) + tail;
      EscapeReadsBack(HighOf(s[0]), tail);
    } else {
      EscapeReadsBack(s[0], rest);
    }
  }

  /** An escaped text starts with a low surrogate escape exactly when the text does. */
  lemma {:induction false} StartsLowEscaped(cf: int -> bool, s: Units)
    requires IsFormatTable(cf) && IsStringBody(s)
    ensures StartsLow(Escape(cf, s)) <==> StartsLow(s)
    ensures StartsLow(s) ==> FourHex(Escape(cf, s)) == FourHex(s)
  {
    hide EscapeUnit;
    var e := Escape(cf, s);
    if s == [] {
    } else if s[0] == BACKSLASH {
      hide Escape;
      if IsSimpleEscape(s[1]) {
        EscapeAscii(cf, s, 2);
        assert e[1] == s[1];
      } else {
        EscapeAscii(cf, s, 6);
        assert forall i | 0 <= i < 6 :: e[i] == s[..6][i] == s[i];
      }
    } else if cf(s[0]) {
      FormatControlIsNotLow(cf, s);
    } else {
      PlainUnit(cf, s[0]);
      assert e[0] == s[0];
    }
  }

  lemma {:induction false} EscapeKeepsString(cf: int -> bool, s: Units)
    requires IsFormatTable(cf) && IsStringBody(s)
    ensures IsStringBody(Escape(cf, s)) && Decode(Escape(cf, s)) == Decode(s)
    decreases |s|
  {
    hide FourHex, StartsLow, EscapeUnit, UnicodeEscape;
    if s == [] {
    } else if s[0] != BACKSLASH {
      EscapeKeepsString(cf, s[1..]);
      DecodeUnit(cf, s[0], Escape(cf, s[1..]));
    } else if IsSimpleEscape(s[1]) {
      EscapeKeepsString(cf, s[2..]);
      EscapeAscii(cf, s, 2);
      var e := Escape(cf, s);
      assert e[2..] == Escape(cf, s[2..]) && e[0] == s[0] && e[1] == s[1];
    } else {
      EscapeKeepsHex(cf, s);
    }
  }

  /** Six ASCII units in front stay where they are, and what follows is escaped by itself. */
  lemma {:induction false} EscapeSix(cf: int -> bool, s: Units)
    requires IsFormatTable(cf) && |s| >= 6 && forall i | 0 <= i < 6 :: s[i] < 0x80
    ensures var e := Escape(cf, s);
            |e| >= 6 && e[6..] == Escape(cf, s[6..]) && FourHex(e) == FourHex(s)
              && (forall i | 0 <= i < 6 :: e[i] == s[i])
  {
    hide Escape, FourHex;
    var e := Escape(cf, s);
    EscapeAscii(cf, s, 6);
    assert e[6..] == Escape(cf, s[6..]);
    assert forall i | 0 <= i < 6 :: e[i] == s[..6][i] == s[i];
    SameFourHex(e, s);
  }

  lemma {:induction false} SameFourHex(a: Units, b: Units)
    requires |a| >= 6 && |b| >= 6 && forall i | 0 <= i < 6 :: a[i] == b[i]
    ensures FourHex(a) == FourHex(b)
  {
  }

  lemma {:induction false} HexIsAscii(s: Units)
    requires IsStringBody(s) && |s| >= 6 && s[0] == BACKSLASH && !IsSimpleEscape(s[1])
    ensures StartsUnicodeEscape(s) && IsStringBody(s[6..]) && forall i | 0 <= i < 6 :: s[i] < 0x80
    ensures IsHexDigit(s[2]) && IsHexDigit(s[3]) && IsHexDigit(s[4]) && IsHexDigit(s[5])
  {
  }

  /** Decoding from a \u escape on depends on its four digits and what the rest decodes to. */
  lemma {:induction false} HexDecodesAlike(e: Units, s: Units)
    requires IsStringBody(s) && StartsUnicodeEscape(s) && IsStringBody(e) && StartsUnicodeEscape(e)
    requires FourHex(e) == FourHex(s) && IsStringBody(e[6..]) && IsStringBody(s[6..])
      && Decode(e[6..]) == Decode(s[6..])
    requires StartsLow(e[6..]) <==> StartsLow(s[6..])
    requires StartsLow(s[6..]) ==>
      && FourHex(e[6..]) == FourHex(s[6..]) && IsStringBody(e[6..][6..]) && IsStringBody(s[6..][6..])
      && Decode(e[6..][6..]) == Decode(s[6..][6..])
    ensures Decode(e) == Decode(s)
  {
    hide IsStringBody, FourHex, StartsLow, Combine;
  }

  lemma {:induction false} HexBody(e: Units)
    requires |e| >= 6 && e[0] == BACKSLASH && e[1] == 0x75 && IsStringBody(e[6..])
    requires IsHexDigit(e[2]) && IsHexDigit(e[3]) && IsHexDigit(e[4]) && IsHexDigit(e[5])
    ensures IsStringBody(e)
  {
  }

  lemma {:induction false} EscapeKeepsHex(cf: int -> bool, s: Units)
    requires IsFormatTable(cf) && IsStringBody(s) && |s| >= 6 && s[0] == BACKSLASH && !IsSimpleEscape(s[1])
    ensures IsStringBody(Escape(cf, s)) && Decode(Escape(cf, s)) == Decode(s)
    decreases |s|, 0
  {
    hide EscapeUnit, Escape, IsStringBody, FourHex, Decode, IsHexDigit;
    var e := Escape(cf, s);
    HexIsAscii(s);
    EscapeSix(cf, s);
    EscapeKeepsString(cf, s[6..]);
    HexBody(e);
    StartsLowEscaped(cf, s[6..]);
    if StartsLow(s[6..]) {
      LowIsHex(s[6..]);
      EscapeSix(cf, s[6..]);
      EscapeKeepsString(cf, s[6..][6..]);
    }
    HexDecodesAlike(e, s);
  }

  lemma {:induction false} LowIsHex(s: Units)
    requires IsStringBody(s) && StartsLow(s)
    ensures |s| >= 6 && IsStringBody(s[6..]) && forall i | 0 <= i < 6 :: s[i] < 0x80
  {
  }

  // ---------- Escaping keeps the meaning of a whole text ----------

  /** What a value tree means: its strings decoded, everything else as written. */
  datatype Json =
    | Text(decoded: Units)
    | Scalar(lexeme: Units)
    | Compound(kind: Kind, members: seq<(Option<Units>, Json)>)

  function LexemeMeaning(lexeme: Units): Units
    requires IsStringLexeme(lexeme)
  {
    Decode(lexeme[1..|lexeme| - 1])
  }

  ghost function Meaning(v: Value): Json
    requires WellFormed(v)
    decreases v
  {
    match v
    case Leaf(Str(lexeme)) => Text(LexemeMeaning(lexeme))
    case Leaf(t) => Scalar(Spell(t))
    case Container(k, items) => Compound(k, ItemsMeaning(k, items))
  }

  ghost function ItemsMeaning(k: Kind, items: Items): seq<(Option<Units>, Json)>
    requires WellFormedItems(k, items)
    decreases items
  {
    match items
    case Nil => []
    case Cons(key, value, rest) =>
      var name := if key.None? then None else Some(LexemeMeaning(key.value));
      [(name, Meaning(value))] + ItemsMeaning(k, rest)
  }

  function EscapeToken(cf: int -> bool, t: Token): Token {
    if t.Str? then Str(Escape(cf, t.lexeme)) else t
  }

  function EscapeValue(cf: int -> bool, v: Value): Value {
    match v
    case Leaf(t) => Leaf(EscapeToken(cf, t))
    case Container(k, items) => Container(k, EscapeItems(cf, items))
  }

  function EscapeItems(cf: int -> bool, items: Items): Items {
    match items
    case Nil => Nil
    case Cons(key, value, rest) =>
      Cons(if key.None? then None else Some(Escape(cf, key.value)), EscapeValue(cf, value), EscapeItems(cf, rest))
  }

  lemma {:induction false} EscapeKeepsLexeme(cf: int -> bool, lexeme: Units)
    requires IsFormatTable(cf) && IsStringLexeme(lexeme)
    ensures IsStringLexeme(Escape(cf, lexeme)) && LexemeMeaning(Escape(cf, lexeme)) == LexemeMeaning(lexeme)
  {
    hide IsStringBody, EscapeUnit;
    var body := lexeme[1..|lexeme| - 1];
    assert lexeme == [QUOTE] + body + [QUOTE];
    EscapeAppend(cf, [QUOTE] + body, [QUOTE]);
    EscapeAppend(cf, [QUOTE], body);
    PlainUnit(cf, QUOTE);
    EscapeKeepsString(cf, body);
    var e := Escape(cf, lexeme);
    assert e == [QUOTE] + Escape(cf, body) + [QUOTE];
    assert e[1..|e| - 1] == Escape(cf, body);
  }

  lemma {:induction false} EscapeKeepsTree(cf: int -> bool, v: Value)
    requires IsFormatTable(cf) && WellFormed(v)
    ensures WellFormed(EscapeValue(cf, v)) && Meaning(EscapeValue(cf, v)) == Meaning(v)
    decreases v
  {
    hide IsStringLexeme, Escape, LexemeMeaning;
    match v {
      case Leaf(t) => if t.Str? { EscapeKeepsLexeme(cf, t.lexeme); }
      case Container(k, items) => EscapeKeepsItems(cf, k, items);
    }
  }

  lemma {:induction false} EscapeKeepsItems(cf: int -> bool, k: Kind, items: Items)
    requires IsFormatTable(cf) && WellFormedItems(k, items)
    ensures WellFormedItems(k, EscapeItems(cf, items))
      && ItemsMeaning(k, EscapeItems(cf, items)) == ItemsMeaning(k, items)
    decreases items
  {
    hide IsStringLexeme, Escape, LexemeMeaning;
    match items {
      case Nil =>
      case Cons(key, value, rest) =>
        if key.Some? { EscapeKeepsLexeme(cf, key.value); }
        EscapeKeepsTree(cf, value);
        EscapeKeepsItems(cf, k, rest);
    }
  }

  function EscapeTokens(cf: int -> bool, toks: seq<Token>): seq<Token> {
    seq(|toks|, i requires 0 <= i < |toks| => EscapeToken(cf, toks[i]))
  }

  lemma {:induction false} EscapeOneToken(cf: int -> bool, t: Token)
    ensures EscapeTokens(cf, [t]) == [EscapeToken(cf, t)]
  {
  }

  lemma {:induction false} EscapeTokensOfTree(cf: int -> bool, v: Value)
    ensures EscapeTokens(cf, Tokens(v)) == Tokens(EscapeValue(cf, v))
    decreases v
  {
    hide EscapeTokens, ItemTokens, EscapeItems;
    match v {
      case Leaf(t) => EscapeOneToken(cf, t);
      case Container(k, items) =>
        var inner := ItemTokens(items);
        EscapeTokensOfItems(cf, items);
        EscapeOneToken(cf, Open(k));
        EscapeOneToken(cf, Close(k));
        EscapeTokensAppend(cf, [Open(k)], inner);
        EscapeTokensAppend(cf, [Open(k)] + inner, [Close(k)]);
    }
  }

  lemma {:induction false} EscapeTokensAppend(cf: int -> bool, a: seq<Token>, b: seq<Token>)
    ensures EscapeTokens(cf, a + b) == EscapeTokens(cf, a) + EscapeTokens(cf, b)
  {
  }

  lemma {:induction false} EscapeTokensOfItems(cf: int -> bool, items: Items)
    ensures EscapeTokens(cf, ItemTokens(items)) == ItemTokens(EscapeItems(cf, items))
    decreases items
  {
    match items {
      case Nil =>
      case Cons(key, value, rest) =>
        var items' := EscapeItems(cf, items);
        EscapeTokensOfTree(cf, value);
        EscapeTokensOfItems(cf, rest);
        assert EscapeTokens(cf, KeyTokens(key)) == KeyTokens(items'.key);
        hide EscapeTokens, EscapeToken, EscapeValue;
        EscapeTokensAppend(cf, KeyTokens(key), Tokens(value));
        if rest.Cons? {
          EscapeTokensAppend(cf, [Comma], ItemTokens(rest));
          EscapeTokensAppend(cf, KeyTokens(key) + Tokens(value), [Comma] + ItemTokens(rest));
          CommaStays(cf);
        } else {
          assert KeyTokens(key) + Tokens(value) + [] == KeyTokens(key) + Tokens(value);
          assert KeyTokens(items'.key) + Tokens(items'.value) + [] == KeyTokens(items'.key) + Tokens(items'.value);
        }
    }
  }

  lemma {:induction false} CommaStays(cf: int -> bool)
    ensures EscapeTokens(cf, [Comma]) == [Comma]
  {
  }

  lemma {:induction false} EscapeSpelling(cf: int -> bool, t: Token)
    requires IsFormatTable(cf) && ValidToken(t)
    ensures Escape(cf, Spell(t)) == Spell(EscapeToken(cf, t))
  {
    if t.Prim? {
      PrimUnits(t.lexeme);
      forall i | 0 <= i < |t.lexeme| ensures t.lexeme[i] < 0x80 { assert IsPrimUnit(t.lexeme[i]); }
    }
    if !t.Str? {
      EscapeAllAscii(cf, Spell(t));
    }
  }

  lemma {:induction false} EscapeSpread(cf: int -> bool, gaps: seq<Units>, toks: seq<Token>)
    requires IsFormatTable(cf) && |gaps| == |toks| + 1 && WhitespaceGaps(gaps)
    requires forall i | 0 <= i < |toks| :: ValidToken(toks[i])
    ensures Escape(cf, Spread(gaps, toks)) == Spread(gaps, EscapeTokens(cf, toks))
    decreases |toks|
  {
    hide Escape, EscapeToken, ValidToken;
    forall i | 0 <= i < |gaps[0]| ensures gaps[0][i] < 0x80 { assert IsWhitespace(gaps[0][i]); }
    EscapeAllAscii(cf, gaps[0]);
    if toks != [] {
      var rest := Spread(gaps[1..], toks[1..]);
      EscapeSpelling(cf, toks[0]);
      EscapeSpread(cf, gaps[1..], toks[1..]);
      EscapeAppend(cf, gaps[0] + Spell(toks[0]), rest);
      EscapeAppend(cf, gaps[0], Spell(toks[0]));
      assert EscapeTokens(cf, toks)[1..] == EscapeTokens(cf, toks[1..]);
    }
  }

  lemma {:induction false} NothingLeft(cf: int -> bool, text: Units)
    requires IsFormatTable(cf)
    ensures forall i | 0 <= i < |Escape(cf, text)| :: !cf(Escape(cf, text)[i])
    decreases |text|
  {
    if text != [] {
      NothingLeft(cf, text[1..]);
      forall i | 0 <= i < |EscapeUnit(cf, text[0])| ensures !cf(EscapeUnit(cf, text[0])[i]) {
        if cf(text[0]) { assert EscapeUnit(cf, text[0])[i] < 0x80; }
      }
    }
  }

  /**
   Escaping a JSON text gives a JSON text without format controls that means the same: the only
   tree of the escaped text has the meaning of the tree of the text.
   */
  lemma {:induction false} EscapingKeepsMeaning(cf: int -> bool, text: Units, v: Value)
    requires IsFormatTable(cf) && IsTextOf(text, v) && WellFormed(v)
    ensures IsTextOf(Escape(cf, text), EscapeValue(cf, v))
    ensures forall w: Value | IsTextOf(Escape(cf, text), w) && WellFormed(w) :: Meaning(w) == Meaning(v)
    ensures forall i | 0 <= i < |Escape(cf, text)| :: !cf(Escape(cf, text)[i])
  {
    hide Escape, Meaning;
    var gaps: seq<Units> :| Derives(text, v, gaps);
    TokensLexable(v);
    EscapeSpread(cf, gaps, Tokens(v));
    EscapeTokensOfTree(cf, v);
    EscapeKeepsTree(cf, v);
    assert Derives(Escape(cf, text), EscapeValue(cf, v), gaps);
    forall w: Value | IsTextOf(Escape(cf, text), w) && WellFormed(w)
      ensures Meaning(w) == Meaning(v)
    {
      OneTreePerText(Escape(cf, text), w, EscapeValue(cf, v));
    }
    NothingLeft(cf, text);
  }
}
