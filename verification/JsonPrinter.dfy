/**
 Two printers of a value tree and their agreement.

 Pretty is the recursive four-space printer. FormatFrom works through a flat list of tokens
 knowing only the depth, the token before and the token after: this is what the byte loop of
 tools/text.go does.
 */
module JsonPrinter {
  import opened Wrappers
  import opened JsonGrammar
  import opened JsonLexer
  import opened Sequences

  const LF: int := 0x0A

  function Indent(depth: int): (s: Units)
    ensures |s| == (if depth <= 0 then 0 else 4 * depth)
    ensures AllWhitespace(s)
    decreases depth
  {
    if depth <= 0 then [] else Indent(depth - 1) + [0x20, 0x20, 0x20, 0x20]
  }

  function NewLine(depth: int): (s: Units)
    ensures AllWhitespace(s)
  {
    [LF] + Indent(depth)
  }

  // ---------- The recursive printer ----------

  function Pretty(v: Value, depth: nat): Units {
    match v
    case Leaf(t) => Spell(t)
    case Container(k, Nil) => [OpenUnit(k), CloseUnit(k)]
    case Container(k, items) =>
      [OpenUnit(k)] + NewLine(depth + 1) + PrettyItems(items, depth + 1) + NewLine(depth) + [CloseUnit(k)]
  }

  function PrettyItems(items: Items, depth: nat): Units {
    match items
    case Nil => []
    case Cons(key, value, rest) =>
      PrettyKey(key) + Pretty(value, depth)
      + (if rest.Nil? then [] else [0x2C] + NewLine(depth) + PrettyItems(rest, depth))
  }

  function PrettyKey(key: Option<Units>): Units {
    match key
    case None => []
    case Some(lexeme) => lexeme + [0x3A, 0x20]
  }

  // ---------- The token loop ----------

  function Next(toks: seq<Token>): Option<Token> {
    if |toks| < 2 then None else Some(toks[1])
  }

  function DepthAfter(t: Token, depth: int): int {
    if t.Open? then depth + 1 else if t.Close? then depth - 1 else depth
  }

  /** The white space written before a token. */
  function Before(prev: Option<Token>, t: Token, depth: int): (s: Units)
    ensures AllWhitespace(s)
  {
    if t.Close? && prev != Some(Open(t.kind)) then NewLine(depth - 1) else []
  }

  /** The white space written after a token. */
  function After(t: Token, next: Option<Token>, depth: int): (s: Units)
    ensures AllWhitespace(s)
  {
    match t
    case Open(k) => if next == Some(Close(k)) then [] else NewLine(depth + 1)
    case Comma => NewLine(depth)
    case Colon => [0x20]
    case _ => []
  }

  function Piece(prev: Option<Token>, t: Token, next: Option<Token>, depth: int): Units {
    Before(prev, t, depth) + Spell(t) + After(t, next, depth)
  }

  function FormatFrom(prev: Option<Token>, toks: seq<Token>, depth: int): Units
    decreases |toks|
  {
    if toks == [] then []
    else Piece(prev, toks[0], Next(toks), depth) + FormatFrom(Some(toks[0]), toks[1..], DepthAfter(toks[0], depth))
  }

  function Last(toks: seq<Token>): Token
    requires toks != []
  {
    toks[|toks| - 1]
  }

  lemma {:induction false} LastToken(v: Value)
    requires WellFormed(v)
    ensures !Last(Tokens(v)).Open?
  {
  }

  lemma {:induction false} LastItemToken(k: Kind, items: Items)
    requires WellFormedItems(k, items) && items.Cons?
    ensures ItemTokens(items) != [] && !Last(ItemTokens(items)).Open?
    decreases items
  {
    LastToken(items.value);
    if items.rest.Cons? {
      LastItemToken(k, items.rest);
    }
  }

  lemma {:induction false} FormatStep(prev: Option<Token>, t: Token, rest: seq<Token>, depth: int)
    ensures FormatFrom(prev, [t] + rest, depth)
         == Piece(prev, t, Next([t] + rest), depth) + FormatFrom(Some(t), rest, DepthAfter(t, depth))
  {
    assert ([t] + rest)[1..] == rest;
  }

  /** The token loop prints a value exactly as the recursive printer does. */
  lemma {:induction false} FormatValue(prev: Option<Token>, v: Value, post: seq<Token>, depth: nat)
    requires WellFormed(v)
    ensures FormatFrom(prev, Tokens(v) + post, depth)
         == Pretty(v, depth) + FormatFrom(Some(Last(Tokens(v))), post, depth)
    decreases v, 1
  {
    hide FormatFrom, Piece, NewLine, PrettyItems, ValidToken;
    match v {
      case Leaf(t) =>
        FormatStep(prev, t, post, depth);
        LeafPiece(prev, t, Next([t] + post), depth);
      case Container(k, items) =>
        if items.Nil? {
          assert Tokens(v) == [Open(k), Close(k)];
          FormatEmpty(prev, k, post, depth);
        } else {
          FormatContainer(prev, k, items, post, depth);
        }
    }
  }

  lemma {:induction false} LeafPiece(prev: Option<Token>, t: Token, next: Option<Token>, depth: int)
    requires t.Str? || t.Prim?
    ensures Piece(prev, t, next, depth) == Spell(t)
  {
    assert [] + Spell(t) + [] == Spell(t);
  }

  lemma {:induction false} EmptyPieces(prev: Option<Token>, k: Kind, next: Option<Token>, depth: int)
    ensures Piece(prev, Open(k), Some(Close(k)), depth) == [OpenUnit(k)]
    ensures Piece(Some(Open(k)), Close(k), next, depth) == [CloseUnit(k)]
  {
  }

  lemma {:induction false} FormatEmpty(prev: Option<Token>, k: Kind, post: seq<Token>, depth: nat)
    ensures FormatFrom(prev, [Open(k), Close(k)] + post, depth)
         == [OpenUnit(k), CloseUnit(k)] + FormatFrom(Some(Close(k)), post, depth)
  {
    hide FormatFrom, Piece;
    var rest := [Close(k)] + post;
    Regroup3([Open(k)], [Close(k)], post);
    FormatStep(prev, Open(k), rest, depth);
    FormatStep(Some(Open(k)), Close(k), post, depth + 1);
    EmptyPieces(prev, k, Next(rest), depth);
    EmptyPieces(prev, k, Next(rest), depth + 1);
    assert [Open(k), Close(k)] == [Open(k)] + [Close(k)] && ([Open(k)] + rest)[1] == Close(k);
    assert [OpenUnit(k), CloseUnit(k)] == [OpenUnit(k)] + [CloseUnit(k)];
    Regroup3([OpenUnit(k)], [CloseUnit(k)], FormatFrom(Some(Close(k)), post, depth));
  }

  lemma {:induction false} FormatContainer(prev: Option<Token>, k: Kind, items: Items, post: seq<Token>, depth: nat)
    requires WellFormedItems(k, items) && items.Cons?
    ensures FormatFrom(prev, Tokens(Container(k, items)) + post, depth)
         == Pretty(Container(k, items), depth) + FormatFrom(Some(Close(k)), post, depth)
    decreases items, 1
  {
    var body, end := ItemTokens(items), [Close(k)] + post;
    Regroup([Open(k)], body, [Close(k)], post);
    assert Tokens(Container(k, items)) + post == [Open(k)] + (body + end);
    FirstItemToken(k, items);
    LastItemToken(k, items);
    FormatOpen(prev, k, body + end, depth);
    FormatItems(Some(Open(k)), k, items, end, depth + 1);
    FormatClose(Some(Last(body)), k, post, depth + 1);
    Regroup([OpenUnit(k)] + NewLine(depth + 1), PrettyItems(items, depth + 1), NewLine(depth) + [CloseUnit(k)],
            FormatFrom(Some(Close(k)), post, depth));
    PrettyShape(k, items, depth);
  }

  lemma {:induction false} PrettyShape(k: Kind, items: Items, depth: nat)
    requires items.Cons?
    ensures Pretty(Container(k, items), depth)
         == [OpenUnit(k)] + NewLine(depth + 1) + PrettyItems(items, depth + 1) + (NewLine(depth) + [CloseUnit(k)])
  {
    var a := [OpenUnit(k)] + NewLine(depth + 1) + PrettyItems(items, depth + 1);
    assert Pretty(Container(k, items), depth) == a + NewLine(depth) + [CloseUnit(k)];
    assert a + NewLine(depth) + [CloseUnit(k)] == a + (NewLine(depth) + [CloseUnit(k)]);
  }

  lemma {:induction false} FormatOpen(prev: Option<Token>, k: Kind, inner: seq<Token>, depth: nat)
    requires inner != [] && inner[0] != Close(k)
    ensures FormatFrom(prev, [Open(k)] + inner, depth)
         == [OpenUnit(k)] + NewLine(depth + 1) + FormatFrom(Some(Open(k)), inner, depth + 1)
  {
    hide FormatFrom, NewLine;
    FormatStep(prev, Open(k), inner, depth);
    assert Piece(prev, Open(k), Next([Open(k)] + inner), depth) == [OpenUnit(k)] + NewLine(depth + 1);
  }

  lemma {:induction false} FormatClose(prev: Option<Token>, k: Kind, post: seq<Token>, depth: int)
    requires prev != Some(Open(k))
    ensures FormatFrom(prev, [Close(k)] + post, depth)
         == NewLine(depth - 1) + [CloseUnit(k)] + FormatFrom(Some(Close(k)), post, depth - 1)
  {
    FormatStep(prev, Close(k), post, depth);
  }

  lemma {:induction false} FormatKey(prev: Option<Token>, key: Option<Units>, post: seq<Token>, depth: nat)
    returns (prev': Option<Token>)
    requires post != [] && !post[0].Close?
    ensures FormatFrom(prev, KeyTokens(key) + post, depth) == PrettyKey(key) + FormatFrom(prev', post, depth)
  {
    hide FormatFrom, NewLine;
    if key.None? {
      prev' := prev;
      assert KeyTokens(key) + post == post;
    } else {
      prev' := Some(Colon);
      var s := Str(key.value);
      assert KeyTokens(key) + post == [s] + ([Colon] + post);
      FormatStep(prev, s, [Colon] + post, depth);
      FormatStep(Some(s), Colon, post, depth);
      var tail := FormatFrom(prev', post, depth);
      assert Piece(prev, s, Some(Colon), depth) == key.value
        && Piece(Some(s), Colon, Next([Colon] + post), depth) == [0x3A, 0x20];
      assert key.value + ([0x3A, 0x20] + tail) == key.value + [0x3A, 0x20] + tail;
    }
  }

  /** The separator after an item, the items after it, and what follows the container's items. */
  lemma {:induction false} FormatRest(prev: Option<Token>, k: Kind, rest: Items, post: seq<Token>, depth: nat)
    requires WellFormedItems(k, rest) && rest.Cons?
    ensures ItemTokens(rest) != []
    ensures FormatFrom(prev, [Comma] + ItemTokens(rest) + post, depth)
         == [0x2C] + NewLine(depth) + PrettyItems(rest, depth) + FormatFrom(Some(Last(ItemTokens(rest))), post, depth)
    decreases rest, 1
  {
    FormatComma(prev, ItemTokens(rest), post, depth);
    FormatItems(Some(Comma), k, rest, post, depth);
    Regroup([0x2C], NewLine(depth), PrettyItems(rest, depth), FormatFrom(Some(Last(ItemTokens(rest))), post, depth));
  }

  lemma {:induction false} FormatComma(prev: Option<Token>, toks: seq<Token>, post: seq<Token>, depth: nat)
    ensures FormatFrom(prev, [Comma] + toks + post, depth)
         == [0x2C] + (NewLine(depth) + FormatFrom(Some(Comma), toks + post, depth))
  {
    hide FormatFrom, NewLine;
    Regroup3([Comma], toks, post);
    FormatStep(prev, Comma, toks + post, depth);
    CommaPiece(prev, Next([Comma] + (toks + post)), depth);
    Regroup3([0x2C], NewLine(depth), FormatFrom(Some(Comma), toks + post, depth));
  }

  lemma {:induction false} CommaPiece(prev: Option<Token>, next: Option<Token>, depth: int)
    ensures Piece(prev, Comma, next, depth) == [0x2C] + NewLine(depth)
  {
    hide NewLine;
    assert [] + [0x2C] == [0x2C];
  }

  lemma {:induction false} ItemTokensShape(items: Items, post: seq<Token>)
    requires items.Cons?
    ensures var more := if items.rest.Nil? then post else [Comma] + ItemTokens(items.rest) + post;
            ItemTokens(items) + post == KeyTokens(items.key) + (Tokens(items.value) + more)
  {
    var key, value := KeyTokens(items.key), Tokens(items.value);
    if items.rest.Nil? {
      assert ItemTokens(items) == key + value + [];
      assert key + value + [] + post == key + (value + post);
    } else {
      var sep := [Comma] + ItemTokens(items.rest);
      assert ItemTokens(items) == key + value + sep;
      Regroup(key, value, sep, post);
    }
  }

  /** An item and what comes after it: nothing more, or a separator and the remaining items. */
  function PrettyRest(rest: Items, depth: nat): Units {
    if rest.Nil? then [] else [0x2C] + NewLine(depth) + PrettyItems(rest, depth)
  }

  lemma {:induction false} PrettyItemsShape(items: Items, depth: nat)
    requires items.Cons?
    ensures PrettyItems(items, depth)
      == PrettyKey(items.key) + Pretty(items.value, depth) + PrettyRest(items.rest, depth)
  {
    hide Pretty, NewLine;
  }

  lemma {:induction false} LastOfItems(items: Items)
    requires items.Cons? && (items.rest.Cons? ==> ItemTokens(items.rest) != [])
    ensures ItemTokens(items) != []
    ensures Last(ItemTokens(items)) == if items.rest.Nil? then Last(Tokens(items.value))
      else Last(ItemTokens(items.rest))
  {
    hide Tokens;
    assert ItemTokens(items)
        == KeyTokens(items.key) + Tokens(items.value)
          + (if items.rest.Nil? then [] else [Comma] + ItemTokens(items.rest));
  }

  /** What the loop prints once the value of an item is done. */
  lemma {:induction false} FormatAfterValue(prev: Option<Token>, k: Kind, rest: Items, post: seq<Token>, depth: nat)
    requires WellFormedItems(k, rest)
    ensures rest.Cons? ==> ItemTokens(rest) != []
    ensures FormatFrom(prev, if rest.Nil? then post else [Comma] + ItemTokens(rest) + post, depth)
         == PrettyRest(rest, depth) + FormatFrom(if rest.Nil? then prev else Some(Last(ItemTokens(rest))), post, depth)
    decreases rest, 2
  {
    hide FormatFrom, NewLine, PrettyItems, ItemTokens, Last;
    if rest.Nil? {
      assert [] + FormatFrom(prev, post, depth) == FormatFrom(prev, post, depth);
    } else {
      FormatRest(prev, k, rest, post, depth);
    }
  }

  lemma {:induction false} FormatItems(prev: Option<Token>, k: Kind, items: Items, post: seq<Token>, depth: nat)
    requires WellFormedItems(k, items) && items.Cons?
    ensures ItemTokens(items) != []
    ensures FormatFrom(prev, ItemTokens(items) + post, depth)
         == PrettyItems(items, depth) + FormatFrom(Some(Last(ItemTokens(items))), post, depth)
    decreases items, 0
  {
    var Cons(key, value, rest) := items;
    var more := if rest.Nil? then post else [Comma] + ItemTokens(rest) + post;
    ItemTokensShape(items, post);
    FirstValueToken(value);
    hide FormatFrom, Pretty, PrettyItems, PrettyRest, PrettyKey, Tokens, ItemTokens, KeyTokens, Last;
    var prev' := FormatKey(prev, key, Tokens(value) + more, depth);
    FormatValue(prev', value, more, depth);
    FormatAfterValue(Some(Last(Tokens(value))), k, rest, post, depth);
    PrettyItemsShape(items, depth);
    LastOfItems(items);
    Regroup(PrettyKey(key), Pretty(value, depth), PrettyRest(rest, depth),
            FormatFrom(Some(Last(ItemTokens(items))), post, depth));
  }

  lemma {:induction false} FirstValueToken(v: Value)
    requires WellFormed(v)
    ensures !Tokens(v)[0].Close?
  {
  }

  lemma {:induction false} TokenLoopPrintsTree(v: Value)
    requires WellFormed(v)
    ensures FormatFrom(None, Tokens(v), 0) == Pretty(v, 0)
  {
    FormatValue(None, v, [], 0);
    assert Tokens(v) + [] == Tokens(v);
  }

  // ---------- The output is a text of the same tree ----------

  lemma {:induction false} FormatIsSpread(lead: Units, prev: Option<Token>, toks: seq<Token>, depth: int, tail: Units)
    returns (gaps: seq<Units>)
    requires AllWhitespace(lead) && AllWhitespace(tail)
    ensures |gaps| == |toks| + 1 && WhitespaceGaps(gaps)
    ensures Spread(gaps, toks) == lead + FormatFrom(prev, toks, depth) + tail
    decreases |toks|
  {
    if toks == [] {
      gaps := [lead + tail];
    } else {
      var t := toks[0];
      var before, after := Before(prev, t, depth), After(t, Next(toks), depth);
      var gaps' := FormatIsSpread(after, Some(t), toks[1..], DepthAfter(t, depth), tail);
      gaps := [lead + before] + gaps';
      assert gaps[1..] == gaps';
      SpreadShape(lead, before, Spell(t), after, FormatFrom(Some(t), toks[1..], DepthAfter(t, depth)), tail);
    }
  }

  lemma {:induction false} SpreadShape(a: Units, b: Units, c: Units, d: Units, e: Units, f: Units)
    ensures (a + b) + c + (d + e + f) == a + (b + c + d + e) + f
  {
  }

  /** The pretty text, with its final line feed, reads back as the tree it was printed from. */
  lemma {:induction false} PrettyIsTextOf(v: Value)
    requires WellFormed(v)
    ensures IsTextOf(Pretty(v, 0) + [LF], v)
  {
    hide Pretty, FormatFrom, Tokens, Spread;
    TokenLoopPrintsTree(v);
    assert [] + Pretty(v, 0) + [LF] == Pretty(v, 0) + [LF];
    var gaps := FormatIsSpread([], None, Tokens(v), 0, [LF]);
    assert Derives(Pretty(v, 0) + [LF], v, gaps);
  }
}
