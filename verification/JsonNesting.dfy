/**
 Nesting: the depth scan that runs before the grammar check, and the balance of a tree's
 brackets that keeps the printing loop inside its input.
 */
module JsonNesting {
  import opened Wrappers
  import opened ByteStrings
  import opened JsonGrammar
  import opened JsonLexer
  import opened JsonPrinter
  import opened Sequences

  const MAX_DEPTH := 128

  // ---------- The nesting scan ----------

  /** The first loop of prettyTextJSON: does the depth count ever pass the limit? */
  predicate TooDeep(s: Units, depth: int, quoted: bool, escaped: bool) {
    if s == [] then false
    else if quoted then
      if escaped then TooDeep(s[1..], depth, true, false)
      else if s[0] == BACKSLASH then TooDeep(s[1..], depth, true, true)
      else TooDeep(s[1..], depth, s[0] != QUOTE, false)
    else if s[0] == QUOTE then TooDeep(s[1..], depth, true, escaped)
    else if s[0] == 0x7B || s[0] == 0x5B then
      depth + 1 > MAX_DEPTH || TooDeep(s[1..], depth + 1, false, escaped)
    else if s[0] == 0x7D || s[0] == 0x5D then TooDeep(s[1..], depth - 1, false, escaped)
    else TooDeep(s[1..], depth, false, escaped)
  }

  predicate DeepTokens(toks: seq<Token>, depth: int) {
    toks != [] && (
      || (toks[0].Open? && depth + 1 > MAX_DEPTH)
      || DeepTokens(toks[1..], DepthAfter(toks[0], depth)))
  }

  predicate Neutral(u: int) {
    u != QUOTE && u != 0x7B && u != 0x5B && u != 0x7D && u != 0x5D
  }

  lemma {:induction false} ScanNeutral(s: Units, rest: Units, depth: int)
    requires forall i | 0 <= i < |s| :: Neutral(s[i])
    ensures TooDeep(s + rest, depth, false, false) == TooDeep(rest, depth, false, false)
  {
    if s == [] {
      assert s + rest == rest;
    } else {
      assert (s + rest)[1..] == s[1..] + rest;
      ScanNeutral(s[1..], rest, depth);
    }
  }

  lemma {:induction false} ScanQuoted(body: Units, i: nat, s: Units, depth: int)
    requires i < |body| && body[i] != QUOTE && body[i] != BACKSLASH
    ensures TooDeep(body[i..] + s, depth, true, false) == TooDeep(body[i + 1..] + s, depth, true, false)
  {
    assert (body[i..] + s)[1..] == body[i + 1..] + s;
  }

  lemma {:induction false} ScanEscaped(body: Units, s: Units, depth: int)
    requires |body| >= 2 && body[0] == BACKSLASH
    ensures TooDeep(body + s, depth, true, false) == TooDeep(body[2..] + s, depth, true, false)
  {
    var t := body + s;
    assert t[1..][1..] == body[2..] + s;
    assert TooDeep(t, depth, true, false) == TooDeep(t[1..], depth, true, true);
  }

  lemma {:induction false} ScanHex(body: Units, s: Units, depth: int)
    requires |body| >= 6 && body[0] == BACKSLASH
    requires IsHexDigit(body[2]) && IsHexDigit(body[3]) && IsHexDigit(body[4]) && IsHexDigit(body[5])
    ensures TooDeep(body + s, depth, true, false) == TooDeep(body[6..] + s, depth, true, false)
  {
    hide TooDeep;
    ScanEscaped(body, s, depth);
    ScanQuoted(body, 2, s, depth);
    ScanQuoted(body, 3, s, depth);
    ScanQuoted(body, 4, s, depth);
    ScanQuoted(body, 5, s, depth);
  }

  lemma {:induction false} ScanBody(body: Units, rest: Units, depth: int)
    requires IsStringBody(body)
    ensures TooDeep(body + ([QUOTE] + rest), depth, true, false) == TooDeep(rest, depth, false, false)
    decreases |body|
  {
    var s := [QUOTE] + rest;
    if body == [] {
      assert body + s == s && s[1..] == rest;
    } else {
      hide TooDeep, IsHexDigit, IsSimpleEscape;
      if body[0] == BACKSLASH {
        if IsSimpleEscape(body[1]) {
          ScanEscaped(body, s, depth);
          ScanBody(body[2..], rest, depth);
        } else {
          ScanHex(body, s, depth);
          ScanBody(body[6..], rest, depth);
        }
      } else {
        ScanQuoted(body, 0, s, depth);
        ScanBody(body[1..], rest, depth);
      }
    }
  }

  lemma {:induction false} ScanToken(t: Token, rest: Units, depth: int)
    requires ValidToken(t)
    ensures TooDeep(Spell(t) + rest, depth, false, false)
         == ((t.Open? && depth + 1 > MAX_DEPTH) || TooDeep(rest, DepthAfter(t, depth), false, false))
  {
    match t {
      case Str(lexeme) => ScanString(lexeme, rest, depth);
      case Prim(lexeme) =>
        hide TooDeep, IsNumber, IsLiteral;
        PrimUnits(lexeme);
        forall i | 0 <= i < |lexeme| ensures Neutral(lexeme[i]) {
          assert IsPrimUnit(lexeme[i]);
        }
        ScanNeutral(lexeme, rest, depth);
      case _ =>
        assert (Spell(t) + rest)[1..] == rest;
    }
  }

  lemma {:induction false} ScanString(lexeme: Units, rest: Units, depth: int)
    requires IsStringLexeme(lexeme)
    ensures TooDeep(lexeme + rest, depth, false, false) == TooDeep(rest, depth, false, false)
  {
    hide IsStringBody;
    var body := lexeme[1..|lexeme| - 1];
    assert (lexeme + rest)[1..] == body + ([QUOTE] + rest);
    ScanBody(body, rest, depth);
  }

  lemma {:induction false} ScanSpread(gaps: seq<Units>, toks: seq<Token>, depth: int)
    requires |gaps| == |toks| + 1 && WhitespaceGaps(gaps)
    requires forall i | 0 <= i < |toks| :: ValidToken(toks[i])
    ensures TooDeep(Spread(gaps, toks), depth, false, false) == DeepTokens(toks, depth)
    decreases |toks|
  {
    forall i | 0 <= i < |gaps[0]| ensures Neutral(gaps[0][i]) {
      assert IsWhitespace(gaps[0][i]);
    }
    if toks == [] {
      ScanNeutral(gaps[0], [], depth);
      assert gaps[0] + [] == gaps[0];
    } else {
      var rest := Spread(gaps[1..], toks[1..]);
      assert Spread(gaps, toks) == gaps[0] + (Spell(toks[0]) + rest);
      ScanNeutral(gaps[0], Spell(toks[0]) + rest, depth);
      ScanToken(toks[0], rest, depth);
      ScanSpread(gaps[1..], toks[1..], DepthAfter(toks[0], depth));
    }
  }

  lemma {:induction false} DeepStep(t: Token, post: seq<Token>, depth: int)
    ensures DeepTokens([t] + post, depth)
      == ((t.Open? && depth + 1 > MAX_DEPTH) || DeepTokens(post, DepthAfter(t, depth)))
  {
    assert ([t] + post)[1..] == post;
  }

  lemma {:induction false} DeepValue(v: Value, post: seq<Token>, depth: int)
    requires WellFormed(v) && depth <= MAX_DEPTH
    ensures DeepTokens(Tokens(v) + post, depth) == (depth + Depth(v) > MAX_DEPTH || DeepTokens(post, depth))
    decreases v
  {
    hide DeepTokens, ItemTokens, ItemsDepth;
    match v {
      case Leaf(t) => DeepStep(t, post, depth);
      case Container(k, items) =>
        Regroup([Open(k)], ItemTokens(items), [Close(k)], post);
        DeepStep(Open(k), ItemTokens(items) + ([Close(k)] + post), depth);
        DeepStep(Close(k), post, depth + 1);
        if depth + 1 <= MAX_DEPTH {
          DeepItems(k, items, [Close(k)] + post, depth + 1);
        }
    }
  }

  lemma {:induction false} DeepKey(key: Option<Units>, post: seq<Token>, depth: int)
    ensures DeepTokens(KeyTokens(key) + post, depth) == DeepTokens(post, depth)
  {
    hide DeepTokens;
    if key.None? {
      assert KeyTokens(key) + post == post;
    } else {
      DeepStep(Str(key.value), [Colon] + post, depth);
      DeepStep(Colon, post, depth);
      assert KeyTokens(key) + post == [Str(key.value)] + ([Colon] + post);
    }
  }

  lemma {:induction false} DeepItems(k: Kind, items: Items, post: seq<Token>, depth: int)
    requires WellFormedItems(k, items) && depth <= MAX_DEPTH
    ensures DeepTokens(ItemTokens(items) + post, depth)
      == (depth + ItemsDepth(items) > MAX_DEPTH || DeepTokens(post, depth))
    decreases items
  {
    hide DeepTokens, Tokens, Depth, KeyTokens;
    match items {
      case Nil =>
        assert ItemTokens(items) + post == post;
      case Cons(key, value, rest) =>
        var more := if rest.Nil? then post else [Comma] + ItemTokens(rest) + post;
        ItemTokensShape(items, post);
        hide ItemTokens;
        DeepKey(key, Tokens(value) + more, depth);
        DeepValue(value, more, depth);
        if rest.Cons? {
          Regroup3([Comma], ItemTokens(rest), post);
          DeepStep(Comma, ItemTokens(rest) + post, depth);
          DeepItems(k, rest, post, depth);
        }
    }
  }

  /** On a JSON text the scan rejects exactly the trees nested deeper than the limit. */
  lemma {:induction false} ScanMeasuresDepth(text: Units, v: Value)
    requires IsTextOf(text, v)
    ensures TooDeep(text, 0, false, false) <==> Depth(v) > 128
  {
    var gaps: seq<Units> :| Derives(text, v, gaps);
    TokensLexable(v);
    ScanSpread(gaps, Tokens(v), 0);
    DeepValue(v, [], 0);
    assert Tokens(v) + [] == Tokens(v);
  }

  // ---------- Balance ----------

  /** Read from this depth on, the brackets never go below zero and end at zero. */
  predicate Balanced(toks: seq<Token>, depth: int) {
    && depth >= 0
    && (if toks == [] then depth == 0 else Balanced(toks[1..], DepthAfter(toks[0], depth)))
  }

  lemma {:induction false} BalancedStep(t: Token, post: seq<Token>, depth: nat)
    ensures Balanced([t] + post, depth) == Balanced(post, DepthAfter(t, depth))
  {
    assert ([t] + post)[1..] == post;
  }

  lemma {:induction false} BalancedKey(key: Option<Units>, post: seq<Token>, depth: nat)
    ensures Balanced(KeyTokens(key) + post, depth) == Balanced(post, depth)
  {
    hide Balanced;
    if key.None? {
      assert KeyTokens(key) + post == post;
    } else {
      BalancedStep(Str(key.value), [Colon] + post, depth);
      BalancedStep(Colon, post, depth);
      assert KeyTokens(key) + post == [Str(key.value)] + ([Colon] + post);
    }
  }

  lemma {:induction false} BalancedValue(v: Value, post: seq<Token>, depth: nat)
    requires WellFormed(v)
    ensures Balanced(Tokens(v) + post, depth) == Balanced(post, depth)
    decreases v
  {
    hide Balanced, ItemTokens;
    match v {
      case Leaf(t) => BalancedStep(t, post, depth);
      case Container(k, items) =>
        Regroup([Open(k)], ItemTokens(items), [Close(k)], post);
        BalancedStep(Open(k), ItemTokens(items) + ([Close(k)] + post), depth);
        BalancedStep(Close(k), post, depth + 1);
        BalancedItems(k, items, [Close(k)] + post, depth + 1);
    }
  }

  lemma {:induction false} BalancedItems(k: Kind, items: Items, post: seq<Token>, depth: nat)
    requires WellFormedItems(k, items)
    ensures Balanced(ItemTokens(items) + post, depth) == Balanced(post, depth)
    decreases items
  {
    hide Balanced, Tokens, KeyTokens;
    match items {
      case Nil =>
        assert ItemTokens(items) + post == post;
      case Cons(key, value, rest) =>
        var more := if rest.Nil? then post else [Comma] + ItemTokens(rest) + post;
        ItemTokensShape(items, post);
        hide ItemTokens;
        BalancedKey(key, Tokens(value) + more, depth);
        BalancedValue(value, more, depth);
        if rest.Cons? {
          Regroup3([Comma], ItemTokens(rest), post);
          BalancedStep(Comma, ItemTokens(rest) + post, depth);
          BalancedItems(k, rest, post, depth);
        }
    }
  }

  /** The brackets of a tree's tokens balance. */
  lemma {:induction false} TreesBalance(v: Value)
    requires WellFormed(v)
    ensures Balanced(Tokens(v), 0)
  {
    BalancedValue(v, [], 0);
    assert Tokens(v) + [] == Tokens(v);
  }
}
