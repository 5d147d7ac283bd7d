/**
 mongoFilter of datacenter/database/mongo.go on input bytes.

 MongoFilter works on what json.Decoder hands out: tokens without commas and colons, and strings
 already decoded, since keys are compared as decoded. This module derives both from the texts and
 trees of JsonGrammar, so that the result is about the bytes.
 */
module MongoText {
  import opened Wrappers
  import opened ByteStrings
  import Utf8
  import JsonGrammar
  import JsonLexer
  import opened MongoFilter

  const MAX_INPUT := 65536

  /** What encoding/json makes of the lexeme of a string, number or literal. */
  type Reading = Bytes -> string

  function KindOf(k: JsonGrammar.Kind): Kind {
    if k.Object? then Object else Array
  }

  function TokenOf(t: JsonGrammar.Token, read: Reading): seq<Token> {
    match t
    case Open(k) => [Open(KindOf(k))]
    case Close(k) => [Close(KindOf(k))]
    case Comma => []
    case Colon => []
    case Str(lexeme) => [Text(read(lexeme))]
    case Prim(lexeme) => [Other(read(lexeme))]
  }

  /** The tokens that the decoder hands out for these tokens of a text. */
  function DecoderTokens(toks: seq<JsonGrammar.Token>, read: Reading): seq<Token> {
    if toks == [] then [] else TokenOf(toks[0], read) + DecoderTokens(toks[1..], read)
  }

  function NodeOf(v: JsonGrammar.Value, read: Reading): Node {
    match v
    case Leaf(t) => Atom(if t.Str? then Text(read(t.lexeme)) else Other(read(JsonGrammar.Spell(t))))
    case Container(k, items) => Container(KindOf(k), ItemsOf(items, read))
  }

  function ItemsOf(items: JsonGrammar.Items, read: Reading): Items {
    match items
    case Nil => Nil
    case Cons(key, value, rest) =>
      Cons(if key.Some? then Some(read(key.value)) else None, NodeOf(value, read), ItemsOf(rest, read))
  }

  lemma {:induction false} DecoderAppend(a: seq<JsonGrammar.Token>, b: seq<JsonGrammar.Token>, read: Reading)
    ensures DecoderTokens(a + b, read) == DecoderTokens(a, read) + DecoderTokens(b, read)
    decreases |a|
  {
    hide TokenOf;
    if a == [] {
      assert a + b == b;
    } else {
      assert (a + b)[1..] == a[1..] + b;
      DecoderAppend(a[1..], b, read);
    }
  }

  lemma {:induction false} OneDecoderToken(t: JsonGrammar.Token, read: Reading)
    ensures DecoderTokens([t], read) == TokenOf(t, read)
  {
    assert [t][1..] == [];
  }

  /** Read off the text of a tree, the decoder's tokens are those of its raw document. */
  lemma {:induction false} DecoderReadsTree(v: JsonGrammar.Value, read: Reading)
    requires JsonGrammar.WellFormed(v)
    ensures DecoderTokens(JsonGrammar.Tokens(v), read) == Tokens(NodeOf(v, read)) && WellFormed(NodeOf(v, read))
    decreases v
  {
    hide DecoderTokens, JsonGrammar.ValidToken;
    match v {
      case Leaf(t) => OneDecoderToken(t, read);
      case Container(k, items) =>
        var open, close, body := JsonGrammar.Token.Open(k), JsonGrammar.Token.Close(k), JsonGrammar.ItemTokens(items);
        DecoderReadsItems(k, items, read);
        DecoderAppend([open] + body, [close], read);
        DecoderAppend([open], body, read);
        OneDecoderToken(open, read);
        OneDecoderToken(close, read);
    }
  }

  lemma {:induction false} DecoderReadsItems(k: JsonGrammar.Kind, items: JsonGrammar.Items, read: Reading)
    requires JsonGrammar.WellFormedItems(k, items)
    ensures DecoderTokens(JsonGrammar.ItemTokens(items), read) == ItemTokens(ItemsOf(items, read))
    ensures WellFormedItems(ItemsOf(items, read), KindOf(k))
    decreases items
  {
    hide JsonGrammar.IsStringLexeme, JsonGrammar.Tokens, Tokens, NodeOf, TokenOf;
    match items {
      case Nil =>
      case Cons(key, value, rest) =>
        var keys, body := JsonGrammar.KeyTokens(key), JsonGrammar.Tokens(value);
        var more := if rest.Nil? then [] else [JsonGrammar.Comma] + JsonGrammar.ItemTokens(rest);
        DecoderReadsTree(value, read);
        DecoderReadsItems(k, rest, read);
        DecoderReadsKey(key, read);
        DecoderReadsMore(rest, read);
        hide DecoderTokens, JsonGrammar.KeyTokens;
        DecoderAppend(keys + body, more, read);
        DecoderAppend(keys, body, read);
    }
  }

  lemma {:induction false} DecoderReadsKey(key: Option<Bytes>, read: Reading)
    ensures DecoderTokens(JsonGrammar.KeyTokens(key), read) == if key.Some? then [Text(read(key.value))] else []
  {
    if key.Some? {
      var s, c := JsonGrammar.Str(key.value), JsonGrammar.Colon;
      assert [s, c] == [s] + [c];
      DecoderAppend([s], [c], read);
      OneDecoderToken(s, read);
      OneDecoderToken(c, read);
    }
  }

  lemma {:induction false} DecoderReadsMore(rest: JsonGrammar.Items, read: Reading)
    ensures DecoderTokens(if rest.Nil? then [] else [JsonGrammar.Comma] + JsonGrammar.ItemTokens(rest), read)
         == DecoderTokens(JsonGrammar.ItemTokens(rest), read)
  {
    if rest.Cons? {
      DecoderAppend([JsonGrammar.Comma], JsonGrammar.ItemTokens(rest), read);
      OneDecoderToken(JsonGrammar.Comma, read);
    }
  }

  // ---------- The filter check on bytes ----------

  /** validInput; a text of other white space alone is stopped by the grammar. */
  predicate ValidInput(text: Bytes) {
    |text| <= MAX_INPUT && !(forall i | 0 <= i < |text| :: IsAsciiSpace(text[i])) && Utf8.Valid(text) && 0 !in text
  }

  /** mongoFilter: input check, token pass, one whole document, operator pass, the driver's verdict. */
  ghost predicate AcceptsText(text: Bytes, read: Reading, bsonOk: bool) {
    && ValidInput(text)
    && JsonLexer.Lex(text).Some?
    && exists v: JsonGrammar.Value ::
         JsonGrammar.IsTextOf(text, v)
           && Accepts(DecoderTokens(JsonLexer.Lex(text).value, read), NodeOf(v, read), bsonOk)
  }

  lemma {:induction false} NotBlank(text: Bytes, v: JsonGrammar.Value)
    requires JsonGrammar.IsTextOf(text, v)
    ensures !(forall i | 0 <= i < |text| :: IsAsciiSpace(text[i]))
  {
    JsonLexer.LexReadsTokens(text, v);
    if forall i | 0 <= i < |text| :: IsAsciiSpace(text[i]) {
      BlankHasNoTokens(text);
    }
  }

  lemma {:induction false} BlankHasNoTokens(text: Bytes)
    requires forall i | 0 <= i < |text| :: IsAsciiSpace(text[i])
    ensures JsonLexer.Lex(text) == Some([])
    decreases |text|
  {
    if text != [] { BlankHasNoTokens(text[1..]); }
  }

  /**
   For the tree of a text: it is accepted exactly when it is short enough, UTF-8 and free of NUL, its
   tree is an object in which no key repeats anywhere, nothing nests deeper than 32 levels and every
   $ key that occurs is allowed, and the driver can convert it.
   */
  lemma {:induction false} AcceptedTexts(text: Bytes, v: JsonGrammar.Value, read: Reading, bsonOk: bool)
    requires JsonGrammar.IsTextOf(text, v)
    ensures AcceptsText(text, read, bsonOk) <==>
      && |text| <= MAX_INPUT && Utf8.Valid(text) && 0 !in text
      && Clean(NodeOf(v, read), 0) && v.Container? && v.kind.Object? && EveryOccurrence(NodeOf(v, read), 0) && bsonOk
  {
    hide JsonGrammar.Derives, JsonLexer.Lex, Utf8.Valid, Accepts, Clean, EveryOccurrence, JsonGrammar.WellFormed;
    NotBlank(text, v);
    JsonLexer.LexReadsTokens(text, v);
    Grows(text, v);
    DecoderReadsTree(v, read);
    forall w: JsonGrammar.Value | JsonGrammar.IsTextOf(text, w) ensures w == v {
      JsonLexer.OneTreePerText(text, v, w);
    }
    AcceptedFilters(DecoderTokens(JsonLexer.Lex(text).value, read), NodeOf(v, read), bsonOk);
    hide JsonGrammar.IsTextOf;
    assert AcceptsText(text, read, bsonOk)
      <==> ValidInput(text) && Accepts(DecoderTokens(JsonLexer.Lex(text).value, read), NodeOf(v, read), bsonOk);
  }

  lemma {:induction false} Grows(text: Bytes, v: JsonGrammar.Value)
    requires JsonGrammar.IsTextOf(text, v)
    ensures JsonGrammar.WellFormed(v)
  {
    assert exists gaps: seq<Bytes> :: JsonGrammar.Derives(text, v, gaps);
  }
}
