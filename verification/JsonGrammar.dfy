/**
 The JSON grammar of RFC 8259: value trees, their tokens, and the texts that spell them.

 A text is a sequence of code units. The reformatter of tools/text.go reads bytes and the
 escaping pass of cmd/datacenter.go reads code points; the grammar is the same for both,
 because only code units below 0x80 are structural.
 */
module JsonGrammar {
  import opened Wrappers
  import opened ByteStrings

  type Units = Bytes

  const QUOTE: int := 0x22
  const BACKSLASH: int := 0x5C

  datatype Kind = Object | Array

  datatype Token =
    | Open(kind: Kind)
    | Close(kind: Kind)
    | Comma
    | Colon
    | Str(lexeme: Units)
    | Prim(lexeme: Units)

  /** A value tree. Leaves keep their lexeme; members and elements keep their order. */
  datatype Value =
    | Leaf(token: Token)
    | Container(kind: Kind, items: Items)

  /** Members of an object (each with a key) or elements of an array (none with a key). */
  datatype Items =
    | Nil
    | Cons(key: Option<Units>, value: Value, rest: Items)

  function OpenUnit(k: Kind): int {
    if k.Object? then 0x7B else 0x5B
  }

  function CloseUnit(k: Kind): int {
    if k.Object? then 0x7D else 0x5D
  }

  function Spell(t: Token): Units {
    match t
    case Open(k) => [OpenUnit(k)]
    case Close(k) => [CloseUnit(k)]
    case Comma => [0x2C]
    case Colon => [0x3A]
    case Str(lexeme) => lexeme
    case Prim(lexeme) => lexeme
  }

  // ---------- Lexemes ----------

  /** The int part: a single zero, or digits that do not start with zero. */
  predicate IsIntPart(s: Units) {
    && s != []
    && AllDigits(s)
    && (s[0] == 0x30 ==> |s| == 1)
  }

  predicate IsFracPart(s: Units) {
    s == [] || (|s| >= 2 && s[0] == 0x2E && AllDigits(s[1..]))
  }

  predicate IsExpPart(s: Units) {
    || s == []
    || (|s| >= 2 && s[0] in {0x65, 0x45} && AllDigits(s[1..]))
    || (|s| >= 3 && s[0] in {0x65, 0x45} && s[1] in {0x2B, 0x2D} && AllDigits(s[2..]))
  }

  /** number = [ minus ] int [ frac ] [ exp ], section 6 of RFC 8259. */
  ghost predicate IsNumber(s: Units) {
    exists sign: Units, whole: Units, frac: Units, exp: Units ::
      NumberParts(s, sign, whole, frac, exp)
  }

  predicate NumberParts(s: Units, sign: Units, whole: Units, frac: Units, exp: Units) {
    && s == sign + whole + frac + exp
    && (sign == [] || sign == [0x2D])
    && IsIntPart(whole)
    && IsFracPart(frac)
    && IsExpPart(exp)
  }

  predicate IsLiteral(s: Units) {
    || s == [0x74, 0x72, 0x75, 0x65]
    || s == [0x66, 0x61, 0x6C, 0x73, 0x65]
    || s == [0x6E, 0x75, 0x6C, 0x6C]
  }

  predicate IsSimpleEscape(u: int) {
    u == 0x22 || u == 0x5C || u == 0x2F || u == 0x62 || u == 0x66 || u == 0x6E || u == 0x72 || u == 0x74
  }

  /** What may stand between the quotation marks, section 7 of RFC 8259. */
  predicate IsStringBody(s: Units) {
    if s == [] then true
    else if s[0] == BACKSLASH then
      if |s| >= 2 && IsSimpleEscape(s[1]) then IsStringBody(s[2..])
      else
        && |s| >= 6 && s[1] == 0x75
        && IsHexDigit(s[2]) && IsHexDigit(s[3]) && IsHexDigit(s[4]) && IsHexDigit(s[5])
        && IsStringBody(s[6..])
    else s[0] >= 0x20 && s[0] != QUOTE && IsStringBody(s[1..])
  }

  predicate IsStringLexeme(s: Units) {
    |s| >= 2 && s[0] == QUOTE && s[|s| - 1] == QUOTE && IsStringBody(s[1..|s| - 1])
  }

  ghost predicate ValidToken(t: Token) {
    match t
    case Str(lexeme) => IsStringLexeme(lexeme)
    case Prim(lexeme) => IsNumber(lexeme) || IsLiteral(lexeme)
    case _ => true
  }

  // ---------- Trees and their tokens ----------

  ghost predicate WellFormed(v: Value)
    decreases v
  {
    match v
    case Leaf(t) => (t.Str? || t.Prim?) && ValidToken(t)
    case Container(k, items) => WellFormedItems(k, items)
  }

  ghost predicate WellFormedItems(k: Kind, items: Items)
    decreases items
  {
    match items
    case Nil => true
    case Cons(key, value, rest) =>
      && (k.Object? <==> key.Some?)
      && (key.Some? ==> IsStringLexeme(key.value))
      && WellFormed(value)
      && WellFormedItems(k, rest)
  }

  function Tokens(v: Value): (ts: seq<Token>)
    ensures ts != []
  {
    match v
    case Leaf(t) => [t]
    case Container(k, items) => [Open(k)] + ItemTokens(items) + [Close(k)]
  }

  function ItemTokens(items: Items): seq<Token> {
    match items
    case Nil => []
    case Cons(key, value, rest) =>
      KeyTokens(key) + Tokens(value) + (if rest.Nil? then [] else [Comma] + ItemTokens(rest))
  }

  function KeyTokens(key: Option<Units>): seq<Token> {
    match key
    case None => []
    case Some(lexeme) => [Str(lexeme), Colon]
  }

  function Max(a: nat, b: nat): nat {
    if a < b then b else a
  }

  /** How many arrays and objects are open at once at the deepest place of the tree. */
  function Depth(v: Value): nat {
    match v
    case Leaf(_) => 0
    case Container(_, items) => 1 + ItemsDepth(items)
  }

  function ItemsDepth(items: Items): nat {
    match items
    case Nil => 0
    case Cons(_, value, rest) => Max(Depth(value), ItemsDepth(rest))
  }

  // ---------- Texts ----------

  predicate IsWhitespace(u: int) {
    u == 0x20 || u == 0x09 || u == 0x0A || u == 0x0D
  }

  predicate AllWhitespace(s: Units) {
    forall i | 0 <= i < |s| :: IsWhitespace(s[i])
  }

  predicate WhitespaceGaps(gaps: seq<Units>) {
    forall i | 0 <= i < |gaps| :: AllWhitespace(gaps[i])
  }

  /** The text that writes gap, token, gap, token, ..., gap. */
  function Spread(gaps: seq<Units>, toks: seq<Token>): Units
    requires |gaps| == |toks| + 1
  {
    if toks == [] then gaps[0]
    else gaps[0] + Spell(toks[0]) + Spread(gaps[1..], toks[1..])
  }

  /** JSON-text = ws value ws, with ws allowed around every structural character. */
  ghost predicate Derives(text: Units, v: Value, gaps: seq<Units>) {
    && WellFormed(v)
    && |gaps| == |Tokens(v)| + 1
    && WhitespaceGaps(gaps)
    && text == Spread(gaps, Tokens(v))
  }

  ghost predicate IsTextOf(text: Units, v: Value) {
    exists gaps: seq<Units> :: Derives(text, v, gaps)
  }

  ghost predicate IsJsonText(text: Units) {
    exists v: Value :: IsTextOf(text, v)
  }
}
