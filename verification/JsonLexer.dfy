/**
 Reading a JSON text back: a lexer that undoes Spread, and the uniqueness of the tree.
 */
module JsonLexer {
  import opened Wrappers
  import opened ByteStrings
  import opened JsonGrammar
  import opened Sequences

  /** Where a run of a number or a literal stops. */
  predicate EndsPrim(u: int) {
    IsAsciiSpace(u) || u == 0x2C || u == 0x5D || u == 0x7D
  }

  function PrimSpan(s: Units): (n: nat)
    ensures n <= |s|
    ensures n < |s| ==> EndsPrim(s[n])
    ensures forall i | 0 <= i < n :: !EndsPrim(s[i])
  {
    if s == [] || EndsPrim(s[0]) then 0 else 1 + PrimSpan(s[1..])
  }

  /** The offset of the closing quotation mark; a backslash takes the next unit with it. */
  function StringSpan(s: Units): (r: Option<nat>)
    ensures r.Some? ==> r.value < |s| && s[r.value] == QUOTE
  {
    if s == [] then None
    else if s[0] == QUOTE then Some(0)
    else
      var skip := if s[0] == BACKSLASH then 2 else 1;
      if |s| < skip then None
      else match StringSpan(s[skip..])
        case None => None
        case Some(n) => Some(skip + n)
  }

  function Prepend(t: Token, rest: Option<seq<Token>>): Option<seq<Token>> {
    match rest
    case None => None
    case Some(ts) => Some([t] + ts)
  }

  function PunctuationOf(u: int): Option<Token> {
    if u == 0x7B then Some(Open(Object))
    else if u == 0x5B then Some(Open(Array))
    else if u == 0x7D then Some(Close(Object))
    else if u == 0x5D then Some(Close(Array))
    else if u == 0x2C then Some(Comma)
    else if u == 0x3A then Some(Colon)
    else None
  }

  /** The token a text starts with. */
  function FirstToken(s: Units): (r: Option<Token>)
    requires s != [] && !IsAsciiSpace(s[0])
    ensures r.Some? ==> 0 < |Spell(r.value)| <= |s| && Spell(r.value) == s[..|Spell(r.value)|]
  {
    if PunctuationOf(s[0]).Some? then PunctuationOf(s[0])
    else if s[0] == QUOTE then
      match StringSpan(s[1..])
      case None => None
      case Some(n) => Some(Str(s[..n + 2]))
    else Some(Prim(s[..PrimSpan(s)]))
  }

  function Lex(s: Units): Option<seq<Token>>
    decreases |s|
  {
    if s == [] then Some([])
    else if IsAsciiSpace(s[0]) then Lex(s[1..])
    else match FirstToken(s)
      case None => None
      case Some(t) => Prepend(t, Lex(s[|Spell(t)|..]))
  }

  // ---------- Lexemes ----------

  predicate IsPrimUnit(u: int) {
    IsDigit(u) || u == 0x2B || u == 0x2D || u == 0x2E || 0x41 <= u <= 0x5A || 0x61 <= u <= 0x7A
  }

  lemma {:induction false} PrimUnits(lexeme: Units)
    requires IsNumber(lexeme) || IsLiteral(lexeme)
    ensures lexeme != []
    ensures forall i | 0 <= i < |lexeme| :: IsPrimUnit(lexeme[i])
  {
    if IsNumber(lexeme) {
      var sign: Units, whole: Units, frac: Units, exp: Units :| NumberParts(lexeme, sign, whole, frac, exp);
      assert forall i | 0 <= i < |frac| :: IsPrimUnit(frac[i]) by {
        forall i | 0 <= i < |frac| ensures IsPrimUnit(frac[i]) {
          if i > 0 { assert frac[i] == frac[1..][i - 1]; }
        }
      }
      forall i | 0 <= i < |exp| ensures IsPrimUnit(exp[i]) {
        if i > 0 {
          if AllDigits(exp[1..]) { assert exp[i] == exp[1..][i - 1]; }
          else if i > 1 { assert exp[i] == exp[2..][i - 2]; }
        }
      }
    }
  }

  lemma {:induction false} PrimSpanStops(lexeme: Units, rest: Units)
    requires forall i | 0 <= i < |lexeme| :: IsPrimUnit(lexeme[i])
    requires rest == [] || EndsPrim(rest[0])
    ensures PrimSpan(lexeme + rest) == |lexeme|
  {
    if lexeme == [] {
      assert lexeme + rest == rest;
    } else {
      assert (lexeme + rest)[1..] == lexeme[1..] + rest;
      PrimSpanStops(lexeme[1..], rest);
    }
  }

  lemma {:induction false} SpanOver(body: Units, s: Units)
    requires body != [] && body[0] != QUOTE && body[0] != BACKSLASH && StringSpan(body[1..] + s).Some?
    ensures StringSpan(body + s) == Some(1 + StringSpan(body[1..] + s).value)
  {
    assert (body + s)[1..] == body[1..] + s;
  }

  lemma {:induction false} SpanOverEscape(body: Units, s: Units)
    requires |body| >= 2 && body[0] == BACKSLASH && StringSpan(body[2..] + s).Some?
    ensures StringSpan(body + s) == Some(2 + StringSpan(body[2..] + s).value)
  {
    assert (body + s)[2..] == body[2..] + s;
  }

  lemma {:induction false} SpanOverDigit(body: Units, i: nat, s: Units)
    requires i < |body| && IsHexDigit(body[i]) && StringSpan(body[i + 1..] + s).Some?
    ensures StringSpan(body[i..] + s) == Some(1 + StringSpan(body[i + 1..] + s).value)
  {
    SpanOver(body[i..], s);
  }

  lemma {:induction false} SpanOverHex(body: Units, s: Units)
    requires |body| >= 6 && body[0] == BACKSLASH && StringSpan(body[6..] + s).Some?
    requires IsHexDigit(body[2]) && IsHexDigit(body[3]) && IsHexDigit(body[4]) && IsHexDigit(body[5])
    ensures StringSpan(body + s) == Some(6 + StringSpan(body[6..] + s).value)
  {
    hide StringSpan, IsHexDigit;
    SpanOverDigit(body, 5, s);
    SpanOverDigit(body, 4, s);
    SpanOverDigit(body, 3, s);
    SpanOverDigit(body, 2, s);
    SpanOverEscape(body, s);
  }

  lemma {:induction false} SpanEnds(rest: Units)
    ensures StringSpan([QUOTE] + rest) == Some(0)
  {
  }

  lemma {:induction false} StringSpanCloses(body: Units, rest: Units)
    requires IsStringBody(body)
    ensures StringSpan(body + ([QUOTE] + rest)) == Some(|body|)
    decreases |body|
  {
    hide StringSpan, IsHexDigit, IsSimpleEscape;
    var s := [QUOTE] + rest;
    if body == [] {
      SpanEnds(rest);
      assert body + s == s;
    } else if body[0] == BACKSLASH {
      if |body| >= 2 && IsSimpleEscape(body[1]) {
        StringSpanCloses(body[2..], rest);
        SpanOverEscape(body, s);
      } else {
        StringSpanCloses(body[6..], rest);
        SpanOverHex(body, s);
      }
    } else {
      StringSpanCloses(body[1..], rest);
      SpanOver(body, s);
    }
  }

  // ---------- The lexer undoes Spread ----------

  /** A number or literal is followed by a comma or a closing bracket, as in every tree. */
  ghost predicate Lexable(toks: seq<Token>) {
    && (forall i | 0 <= i < |toks| :: ValidToken(toks[i]))
    && (forall i | 0 <= i < |toks| - 1 :: toks[i].Prim? ==> toks[i + 1].Comma? || toks[i + 1].Close?)
  }

  lemma {:induction false} LexSkipsWhitespace(gap: Units, rest: Units)
    requires AllWhitespace(gap)
    ensures Lex(gap + rest) == Lex(rest)
  {
    if gap == [] {
      assert gap + rest == rest;
    } else {
      assert (gap + rest)[1..] == gap[1..] + rest;
      LexSkipsWhitespace(gap[1..], rest);
    }
  }

  lemma {:induction false} StringComesFirst(lexeme: Units, rest: Units)
    requires IsStringLexeme(lexeme)
    ensures FirstToken(lexeme + rest) == Some(Str(lexeme))
  {
    hide IsStringBody, StringSpan;
    var s := lexeme + rest;
    var body := lexeme[1..|lexeme| - 1];
    assert s[1..] == body + ([QUOTE] + rest);
    StringSpanCloses(body, rest);
    assert s[..|lexeme|] == lexeme;
  }

  lemma {:induction false} PrimComesFirst(lexeme: Units, rest: Units)
    requires IsNumber(lexeme) || IsLiteral(lexeme)
    requires rest == [] || EndsPrim(rest[0])
    ensures lexeme != [] && !IsAsciiSpace(lexeme[0])
    ensures FirstToken(lexeme + rest) == Some(Prim(lexeme))
  {
    hide IsNumber, IsLiteral, PrimSpan;
    var s := lexeme + rest;
    PrimUnits(lexeme);
    PrimSpanStops(lexeme, rest);
    assert IsPrimUnit(lexeme[0]) && s[0] == lexeme[0];
    assert s[..|lexeme|] == lexeme;
  }

  lemma {:induction false} LexToken(t: Token, rest: Units)
    requires ValidToken(t)
    requires t.Prim? ==> rest == [] || EndsPrim(rest[0])
    ensures Lex(Spell(t) + rest) == Prepend(t, Lex(rest))
  {
    hide IsStringBody, IsNumber, IsLiteral, StringSpan, PrimSpan;
    var s := Spell(t) + rest;
    match t {
      case Str(lexeme) => StringComesFirst(lexeme, rest);
      case Prim(lexeme) => PrimComesFirst(lexeme, rest);
      case _ => assert |Spell(t)| == 1 && PunctuationOf(Spell(t)[0]) == Some(t);
    }
    assert FirstToken(s) == Some(t);
    assert s[|Spell(t)|..] == rest;
  }

  lemma {:induction false} SpreadStart(gaps: seq<Units>, toks: seq<Token>)
    requires |gaps| == |toks| + 1 && WhitespaceGaps(gaps)
    requires toks != [] && (toks[0].Comma? || toks[0].Close?)
    ensures Spread(gaps, toks) != [] && EndsPrim(Spread(gaps, toks)[0])
  {
    if gaps[0] == [] {
      assert Spread(gaps, toks)[0] == Spell(toks[0])[0];
    } else {
      assert IsWhitespace(gaps[0][0]);
    }
  }

  lemma {:induction false} LexSpread(gaps: seq<Units>, toks: seq<Token>)
    requires |gaps| == |toks| + 1 && WhitespaceGaps(gaps)
    requires Lexable(toks)
    ensures Lex(Spread(gaps, toks)) == Some(toks)
  {
    if toks == [] {
      LexSkipsWhitespace(gaps[0], []);
      assert gaps[0] + [] == gaps[0];
    } else {
      var rest := Spread(gaps[1..], toks[1..]);
      assert forall i | 0 <= i < |toks| - 1 :: toks[1..][i] == toks[i + 1];
      assert Lexable(toks[1..]);
      LexSpread(gaps[1..], toks[1..]);
      if toks[0].Prim? {
        if |toks| > 1 {
          assert toks[1..][0] == toks[0 + 1];
          SpreadStart(gaps[1..], toks[1..]);
        } else {
          assert rest == gaps[1];
          assert AllWhitespace(rest);
        }
      }
      assert ValidToken(toks[0]);
      LexToken(toks[0], rest);
      LexSkipsWhitespace(gaps[0], Spell(toks[0]) + rest);
      assert gaps[0] + Spell(toks[0]) + rest == gaps[0] + (Spell(toks[0]) + rest);
      assert [toks[0]] + toks[1..] == toks;
    }
  }

  lemma {:induction false} LexableAppend(a: seq<Token>, b: seq<Token>)
    requires Lexable(a) && Lexable(b)
    requires a == [] || b == [] || !a[|a| - 1].Prim? || b[0].Comma? || b[0].Close?
    ensures Lexable(a + b)
  {
  }

  lemma {:induction false} TokensLexable(v: Value)
    requires WellFormed(v)
    ensures Lexable(Tokens(v))
    decreases v
  {
    match v {
      case Leaf(t) =>
      case Container(k, items) =>
        ItemTokensLexable(k, items);
        LexableAppend([Open(k)], ItemTokens(items));
        LexableAppend([Open(k)] + ItemTokens(items), [Close(k)]);
    }
  }

  lemma {:induction false} ItemTokensLexable(k: Kind, items: Items)
    requires WellFormedItems(k, items)
    ensures Lexable(ItemTokens(items))
    decreases items
  {
    match items {
      case Nil =>
      case Cons(key, value, rest) =>
        TokensLexable(value);
        LexableAppend(KeyTokens(key), Tokens(value));
        if !rest.Nil? {
          ItemTokensLexable(k, rest);
          LexableAppend([Comma], ItemTokens(rest));
          LexableAppend(KeyTokens(key) + Tokens(value), [Comma] + ItemTokens(rest));
        } else {
          assert KeyTokens(key) + Tokens(value) + [] == KeyTokens(key) + Tokens(value);
        }
    }
  }

  /** Every text of a tree lexes to exactly the tree's tokens. */
  lemma {:induction false} LexReadsTokens(text: Units, v: Value)
    requires IsTextOf(text, v)
    ensures Lex(text) == Some(Tokens(v))
  {
    var gaps: seq<Units> :| Derives(text, v, gaps);
    TokensLexable(v);
    LexSpread(gaps, Tokens(v));
  }

  // ---------- A token sequence belongs to one tree ----------

  lemma {:induction false} ContainerTokens(k: Kind, items: Items, r: seq<Token>)
    ensures var s := Tokens(Container(k, items)) + r;
            s[0] == Open(k) && s[1..] == ItemTokens(items) + [Close(k)] + r
  {
    hide ItemTokens;
    Regroup([Open(k)], ItemTokens(items), [Close(k)], r);
    Regroup3(ItemTokens(items), [Close(k)], r);
    Cut([Open(k)], ItemTokens(items) + ([Close(k)] + r));
  }

  lemma {:induction false} LeafTokens(t: Token, r: seq<Token>)
    ensures (Tokens(Leaf(t)) + r)[0] == t && (Tokens(Leaf(t)) + r)[1..] == r
  {
  }

  lemma {:induction false} FirstOf(v: Value, r: seq<Token>)
    ensures (Tokens(v) + r)[0] == if v.Leaf? then v.token else Open(v.kind)
  {
  }

  lemma {:induction false} TokensUnique(v: Value, r: seq<Token>, v': Value, r': seq<Token>)
    requires WellFormed(v) && WellFormed(v')
    requires Tokens(v) + r == Tokens(v') + r'
    ensures v == v' && r == r'
    decreases v
  {
    FirstOf(v, r);
    FirstOf(v', r');
    hide Tokens, ItemTokens, ValidToken;
    match v {
      case Leaf(t) =>
        LeafTokens(t, r);
        LeafTokens(t, r');
      case Container(k, items) =>
        ContainerTokens(k, items, r);
        ContainerTokens(k, v'.items, r');
        ItemTokensUnique(k, items, r, v'.items, r');
    }
  }

  lemma {:induction false} ItemTokensUnique(k: Kind, xs: Items, r: seq<Token>, ys: Items, r': seq<Token>)
    requires WellFormedItems(k, xs) && WellFormedItems(k, ys)
    requires ItemTokens(xs) + [Close(k)] + r == ItemTokens(ys) + [Close(k)] + r'
    ensures xs == ys && r == r'
    decreases xs
  {
    var s, s' := ItemTokens(xs) + [Close(k)] + r, ItemTokens(ys) + [Close(k)] + r';
    assert s[0] == s'[0];
    if xs.Nil? || ys.Nil? {
      FirstItemToken(k, xs);
      FirstItemToken(k, ys);
      assert s[1..] == r && s'[1..] == r';
    } else {
      var more, more' := AfterItem(k, xs.rest, r), AfterItem(k, ys.rest, r');
      KeySplit(k, xs, r);
      KeySplit(k, ys, r');
      var m := |KeyTokens(xs.key)|;
      assert Tokens(xs.value) + more == s[m..] == s'[m..] == Tokens(ys.value) + more';
      assert KeyTokens(xs.key) == s[..m] == s'[..m] == KeyTokens(ys.key);
      assert k.Object? ==> KeyTokens(xs.key)[0] == KeyTokens(ys.key)[0];
      TokensUnique(xs.value, more, ys.value, more');
      assert more[0] == more'[0];
      RestSplit(k, xs.rest, r);
      RestSplit(k, ys.rest, r');
      assert more[1..] == more'[1..];
      if !xs.rest.Nil? {
        ItemTokensUnique(k, xs.rest, r, ys.rest, r');
      }
    }
  }

  lemma {:induction false} KeySplit(k: Kind, xs: Items, r: seq<Token>)
    requires xs.Cons? && WellFormedItems(k, xs)
    ensures var s := ItemTokens(xs) + [Close(k)] + r;
            var m := |KeyTokens(xs.key)|;
            && m <= |s| && m == (if k.Object? then 2 else 0)
            && s[..m] == KeyTokens(xs.key)
            && s[m..] == Tokens(xs.value) + AfterItem(k, xs.rest, r)
  {
    hide Tokens, ItemTokens;
    var head, body, end := KeyTokens(xs.key), Tokens(xs.value), [Close(k)] + r;
    var tail := if xs.rest.Nil? then [] else [Comma] + ItemTokens(xs.rest);
    ItemTokensSplit(xs);
    Regroup3(head + body + tail, [Close(k)], r);
    Regroup(head, body, tail, end);
    Regroup3(tail, [Close(k)], r);
    Cut(head, body + (tail + end));
  }

  lemma {:induction false} ItemTokensSplit(xs: Items)
    requires xs.Cons?
    ensures ItemTokens(xs)
      == KeyTokens(xs.key) + Tokens(xs.value) + (if xs.rest.Nil? then [] else [Comma] + ItemTokens(xs.rest))
  {
  }

  lemma {:induction false} RestSplit(k: Kind, rest: Items, r: seq<Token>)
    ensures var more := AfterItem(k, rest, r);
            && more[0] == (if rest.Nil? then Close(k) else Comma)
            && more[1..] == (if rest.Nil? then r else ItemTokens(rest) + [Close(k)] + r)
  {
  }

  /** What follows one member or element: the end of the container or a comma and more. */
  function AfterItem(k: Kind, rest: Items, r: seq<Token>): (s: seq<Token>)
    ensures s != []
  {
    (if rest.Nil? then [] else [Comma] + ItemTokens(rest)) + [Close(k)] + r
  }

  lemma {:induction false} FirstItemToken(k: Kind, items: Items)
    requires WellFormedItems(k, items)
    ensures items.Cons? ==> ItemTokens(items) != [] && !ItemTokens(items)[0].Close?
  {
    if items.Cons? {
      if items.key.None? {
        assert ItemTokens(items)[0] == Tokens(items.value)[0];
      }
    }
  }

  /** A text is the text of at most one tree. */
  lemma {:induction false} OneTreePerText(text: Units, v: Value, v': Value)
    requires IsTextOf(text, v) && IsTextOf(text, v')
    ensures v == v'
  {
    LexReadsTokens(text, v);
    LexReadsTokens(text, v');
    var gaps: seq<Units> :| Derives(text, v, gaps);
    var gaps': seq<Units> :| Derives(text, v', gaps');
    assert Tokens(v) + [] == Tokens(v') + [];
    TokensUnique(v, [], v', []);
  }
}
