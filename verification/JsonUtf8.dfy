/** JSON texts in UTF-8: reformatting a text that is UTF-8 gives a text that is. */
module JsonUtf8 {
  import opened Wrappers
  import opened Utf8
  import opened JsonGrammar
  import opened JsonLexer
  import opened JsonPrinter

  /** Where a text may be cut: at its end, or before an ASCII unit. */
  predicate CutsBefore(s: Units) {
    s == [] || 0 <= s[0] < 0x80
  }

  // ---------- Tokens in a text ----------

  lemma {:induction false} TokenStartsAscii(t: Token)
    requires ValidToken(t)
    ensures Spell(t) != [] && CutsBefore(Spell(t))
  {
    hide IsStringBody;
    if t.Prim? {
      PrimUnits(t.lexeme);
      assert IsPrimUnit(t.lexeme[0]);
    }
  }

  ghost predicate TokensAreValid(toks: seq<Token>) {
    forall i | 0 <= i < |toks| :: Valid(Spell(toks[i]))
  }

  lemma {:induction false} SpreadStartsAscii(gaps: seq<Units>, toks: seq<Token>)
    requires |gaps| == |toks| + 1 && WhitespaceGaps(gaps)
    requires forall i | 0 <= i < |toks| :: ValidToken(toks[i])
    ensures CutsBefore(Spread(gaps, toks))
  {
    hide ValidToken, Spell;
    if gaps[0] != [] {
      assert IsWhitespace(gaps[0][0]);
    } else if toks != [] {
      assert ValidToken(toks[0]);
      TokenStartsAscii(toks[0]);
    }
  }

  /** Every token of a text in UTF-8 is in UTF-8. */
  lemma {:induction false} TokensOfText(gaps: seq<Units>, toks: seq<Token>)
    requires |gaps| == |toks| + 1 && WhitespaceGaps(gaps)
    requires forall i | 0 <= i < |toks| :: ValidToken(toks[i])
    requires Valid(Spread(gaps, toks))
    ensures TokensAreValid(toks)
    decreases |toks|
  {
    hide ValidToken, Spell, Valid, WhitespaceGaps;
    if toks != [] {
      var spell, rest := Spell(toks[0]), Spread(gaps[1..], toks[1..]);
      GapsTail(gaps);
      assert forall i | 0 <= i < |toks| - 1 :: toks[1..][i] == toks[i + 1];
      assert ValidToken(toks[0]);
      TokenStartsAscii(toks[0]);
      SpreadStartsAscii(gaps[1..], toks[1..]);
      Starts(spell, rest);
      assert gaps[0] + spell + rest == gaps[0] + (spell + rest);
      ValidSplit(gaps[0], spell + rest);
      ValidSplit(spell, rest);
      TokensOfText(gaps[1..], toks[1..]);
      assert forall i | 0 < i < |toks| :: toks[i] == toks[1..][i - 1];
    }
  }

  lemma GapsTail(gaps: seq<Units>)
    requires |gaps| > 0 && WhitespaceGaps(gaps)
    ensures WhitespaceGaps(gaps[1..])
  {
  }

  lemma Starts(a: Units, b: Units)
    requires a != [] && CutsBefore(a)
    ensures CutsBefore(a + b)
  {
  }

  // ---------- Tokens in the output ----------

  lemma {:induction false} WhitespaceIsValid(s: Units)
    requires AllWhitespace(s)
    ensures Valid(s)
  {
    if s != [] {
      assert IsWhitespace(s[0]);
      WhitespaceIsValid(s[1..]);
    }
  }

  lemma {:induction false} PieceIsValid(prev: Option<Token>, t: Token, next: Option<Token>, depth: int)
    requires Valid(Spell(t))
    ensures Valid(Piece(prev, t, next, depth))
  {
    hide Valid, Spell, Before, After;
    var before, after := Before(prev, t, depth), After(t, next, depth);
    WhitespaceIsValid(before);
    WhitespaceIsValid(after);
    ValidJoin(before, Spell(t));
    ValidJoin(before + Spell(t), after);
  }

  lemma {:induction false} FormatIsValid(prev: Option<Token>, toks: seq<Token>, depth: int)
    requires TokensAreValid(toks)
    ensures Valid(FormatFrom(prev, toks, depth))
    decreases |toks|
  {
    hide Spell, Piece;
    if toks != [] {
      var rest := FormatFrom(Some(toks[0]), toks[1..], DepthAfter(toks[0], depth));
      assert forall i | 0 <= i < |toks| - 1 :: toks[1..][i] == toks[i + 1];
      assert Valid(Spell(toks[0]));
      hide Valid;
      PieceIsValid(prev, toks[0], Next(toks), depth);
      FormatIsValid(Some(toks[0]), toks[1..], DepthAfter(toks[0], depth));
      ValidJoin(Piece(prev, toks[0], Next(toks), depth), rest);
    }
  }

  /** The pretty text of a tree that some UTF-8 text spells is in UTF-8. */
  lemma {:induction false} PrettyIsUtf8(text: Units, v: Value)
    requires Valid(text) && IsTextOf(text, v)
    ensures Valid(Pretty(v, 0) + [LF])
  {
    hide Valid, Pretty, FormatFrom, Spread, Tokens, WellFormed, ValidToken;
    var gaps: seq<Units> :| Derives(text, v, gaps);
    TokensLexable(v);
    TokensOfText(gaps, Tokens(v));
    FormatIsValid(None, Tokens(v), 0);
    TokenLoopPrintsTree(v);
    assert AllWhitespace([LF]);
    WhitespaceIsValid([LF]);
    ValidJoin(Pretty(v, 0), [LF]);
  }
}
