/**
 The two passes of mongoFilter in datacenter/database/mongo.go: a token pass that finds duplicate
 keys and deep nesting, and an operator allowlist on the decoded value.
 */
module MongoFilter {
  import opened Wrappers
  import opened Sequences

  const MAX_DEPTH := 32
  const MAX_ROWS := 1000

  datatype Kind = Object | Array

  /** What json.Decoder yields; commas and colons are its own business. */
  datatype Token = Open(kind: Kind) | Close(kind: Kind) | Text(s: string) | Other(literal: string)

  /** The raw document: every member of every object, in order, repeated keys included. */
  datatype Node = Atom(token: Token) | Container(kind: Kind, items: Items)

  datatype Items = Nil | Cons(key: Option<string>, value: Node, rest: Items)

  function Tokens(t: Node): (ts: seq<Token>)
    ensures ts != []
  {
    match t
    case Atom(token) => [token]
    case Container(k, items) => [Open(k)] + ItemTokens(items) + [Close(k)]
  }

  function ItemTokens(items: Items): seq<Token> {
    match items
    case Nil => []
    case Cons(key, value, rest) =>
      (if key.Some? then [Text(key.value)] else []) + Tokens(value) + ItemTokens(rest)
  }

  // ---------- What the token pass demands ----------

  predicate IsAtom(token: Token) {
    token.Text? || token.Other?
  }

  /** Within the depth limit from here on, keys where they belong, and none of them twice. */
  predicate Clean(t: Node, depth: nat) {
    && depth <= MAX_DEPTH
    && match t
       case Atom(token) => IsAtom(token)
       case Container(k, items) => CleanItems(items, k, depth + 1, {})
  }

  predicate CleanItems(items: Items, k: Kind, depth: nat, seen: set<string>) {
    match items
    case Nil => true
    case Cons(key, value, rest) =>
      && (k.Object? <==> key.Some?)
      && (key.Some? ==> key.value !in seen)
      && Clean(value, depth)
      && CleanItems(rest, k, depth, if key.Some? then seen + {key.value} else seen)
  }

  /** d.More(): there is a token and it does not close. */
  predicate More(s: seq<Token>) {
    s != [] && !s[0].Close?
  }

  /** jsonNode as a function: what is left of the tokens, or None when it answers false. */
  function AfterNode(s: seq<Token>, depth: nat): (r: Option<seq<Token>>)
    ensures r.Some? ==> |r.value| < |s|
    decreases |s|, 0
  {
    if depth > MAX_DEPTH || s == [] then None
    else match s[0]
      case Text(_) => Some(s[1..])
      case Other(_) => Some(s[1..])
      case Close(_) => None
      case Open(k) =>
        match AfterItems(s[1..], k, depth + 1, {})
        case None => None
        case Some(rest) => if rest != [] && rest[0] == Close(k) then Some(rest[1..]) else None
  }

  function AfterItems(s: seq<Token>, k: Kind, depth: nat, seen: set<string>): (r: Option<seq<Token>>)
    ensures r.Some? ==> |r.value| <= |s|
    decreases |s|, 1
  {
    if !More(s) then Some(s)
    else if k.Object? then
      if !s[0].Text? || s[0].s in seen then None
      else match AfterNode(s[1..], depth)
        case None => None
        case Some(rest) => AfterItems(rest, k, depth, seen + {s[0].s})
    else match AfterNode(s, depth)
      case None => None
      case Some(rest) => AfterItems(rest, k, depth, seen)
  }

  class Decoder {
    const tokens: seq<Token>
    var pos: nat

    ghost predicate Valid()
      reads this
    {
      pos <= |tokens|
    }

    function Rest(): seq<Token>
      reads this
      requires Valid()
    {
      tokens[pos..]
    }

    constructor (tokens: seq<Token>)
      ensures Valid() && Rest() == tokens
    {
      this.tokens, pos := tokens, 0;
    }

    method Next() returns (token: Option<Token>)
      requires Valid()
      modifies this
      ensures Valid()
      ensures old(Rest()) == [] ==> token.None? && Rest() == []
      ensures old(Rest()) != [] ==> token == Some(old(Rest())[0]) && Rest() == old(Rest())[1..]
    {
      if pos == |tokens| {
        return None;
      }
      token := Some(tokens[pos]);
      pos := pos + 1;
    }
  }

  /** It answers true exactly when the function above leaves tokens over, and leaves those. */
  method JsonNode(d: Decoder, depth: nat) returns (ok: bool)
    requires d.Valid()
    modifies d
    ensures d.Valid()
    ensures ok <==> AfterNode(old(d.Rest()), depth).Some?
    ensures ok ==> d.Rest() == AfterNode(old(d.Rest()), depth).value
    decreases MAX_DEPTH + 1 - depth, 0
  {
    if depth > MAX_DEPTH {
      return false;
    }
    var token := d.Next();
    if token.None? {
      return false;
    }
    match token.value {
      case Text(_) => return true;
      case Other(_) => return true;
      case Close(_) => return false;
      case Open(k) =>
        ok := JsonItems(d, k, depth + 1);
        if !ok {
          return false;
        }
        var end := d.Next();
        return end == Some(Close(k));
    }
  }

  method JsonItems(d: Decoder, k: Kind, depth: nat) returns (ok: bool)
    requires d.Valid()
    modifies d
    ensures d.Valid()
    ensures ok <==> AfterItems(old(d.Rest()), k, depth, {}).Some?
    ensures ok ==> d.Rest() == AfterItems(old(d.Rest()), k, depth, {}).value
    decreases MAX_DEPTH + 1 - depth, 1
  {
    hide AfterNode;
    var seen: set<string> := {};
    ghost var start := d.Rest();
    while More(d.Rest())
      invariant d.Valid()
      invariant AfterItems(start, k, depth, {}) == AfterItems(d.Rest(), k, depth, seen)
      decreases |d.Rest()|
    {
      if k.Object? {
        var key := d.Next();
        if key.None? || !key.value.Text? || key.value.s in seen {
          return false;
        }
        seen := seen + {key.value.s};
      }
      var good := JsonNode(d, depth);
      if !good {
        return false;
      }
    }
    return true;
  }

  // ---------- The token pass reads exactly the clean documents ----------

  lemma {:induction false} CleanIsRead(t: Node, r: seq<Token>, depth: nat)
    requires Clean(t, depth)
    ensures AfterNode(Tokens(t) + r, depth) == Some(r)
    decreases t
  {
    var s := Tokens(t) + r;
    match t {
      case Atom(token) =>
        assert s[1..] == r;
      case Container(k, items) =>
        assert s[1..] == ItemTokens(items) + ([Close(k)] + r);
        CleanItemsAreRead(items, k, [Close(k)] + r, depth + 1, {});
        assert ([Close(k)] + r)[1..] == r;
    }
  }

  /** The token of a key, if the items have keys. */
  function KeyToken(key: Option<string>): seq<Token> {
    if key.Some? then [Text(key.value)] else []
  }

  /** One item's tokens, and all that come after them. */
  lemma {:induction false} ItemTokensThen(key: Option<string>, value: Node, rest: Items, r: seq<Token>)
    ensures ItemTokens(Cons(key, value, rest)) + r == KeyToken(key) + (Tokens(value) + (ItemTokens(rest) + r))
  {
    hide Tokens;
    Regroup(KeyToken(key), Tokens(value), ItemTokens(rest), r);
  }

  /** One turn of the loop: the key if there must be one, the value, and the rest. */
  lemma {:induction false} AfterOneItem(key: Option<string>, k: Kind, s: seq<Token>, depth: nat, seen: set<string>)
    requires s != [] && !s[0].Close? && (k.Object? <==> key.Some?) && (key.Some? ==> key.value !in seen)
    ensures AfterItems(KeyToken(key) + s, k, depth, seen)
         == match AfterNode(s, depth)
            case None => None
            case Some(rest) => AfterItems(rest, k, depth, if key.Some? then seen + {key.value} else seen)
  {
    hide AfterNode;
    var t := KeyToken(key) + s;
    if key.Some? {
      assert t[0] == Text(key.value) && t[1..] == s;
    } else {
      assert t == s;
    }
  }

  lemma {:induction false} CleanItemsAreRead(items: Items, k: Kind, r: seq<Token>, depth: nat, seen: set<string>)
    requires CleanItems(items, k, depth, seen) && !More(r)
    ensures AfterItems(ItemTokens(items) + r, k, depth, seen) == Some(r)
    decreases items
  {
    hide Clean, AfterNode, Tokens;
    match items {
      case Nil =>
        assert [] + r == r;
      case Cons(key, value, rest) =>
        hide AfterItems, ItemTokens;
        var more := ItemTokens(rest) + r;
        CleanIsRead(value, more, depth);
        CleanItemsAreRead(rest, k, r, depth, if key.Some? then seen + {key.value} else seen);
        StartsOpenOrAtom(value, depth);
        ItemTokensThen(key, value, rest, r);
        AfterOneItem(key, k, Tokens(value) + more, depth, seen);
    }
  }

  lemma {:induction false} StartsOpenOrAtom(t: Node, depth: nat)
    requires Clean(t, depth)
    ensures !Tokens(t)[0].Close?
  {
  }

  lemma {:induction false} ReadIsClean(s: seq<Token>, depth: nat) returns (t: Node)
    requires AfterNode(s, depth).Some?
    ensures Clean(t, depth) && s == Tokens(t) + AfterNode(s, depth).value
    decreases |s|, 0
  {
    hide AfterItems, CleanItems, ItemTokens;
    Uncons(s);
    if s[0].Open? {
      var k := s[0].kind;
      var items := ReadItemsAreClean(s[1..], k, depth + 1, {});
      var rest := AfterItems(s[1..], k, depth + 1, {}).value;
      t := Container(k, items);
      Uncons(rest);
      Regroup([Open(k)], ItemTokens(items), [Close(k)], rest[1..]);
    } else {
      t := Atom(s[0]);
    }
  }

  lemma {:induction false} ReadItemsAreClean(s: seq<Token>, k: Kind, depth: nat, seen: set<string>)
    returns (items: Items)
    requires AfterItems(s, k, depth, seen).Some?
    ensures CleanItems(items, k, depth, seen) && s == ItemTokens(items) + AfterItems(s, k, depth, seen).value
    decreases |s|, 1
  {
    hide AfterNode, Clean, Tokens;
    if !More(s) {
      items := Nil;
      assert s == [] + s;
    } else {
      var key := if k.Object? then Some(s[0].s) else None;
      var seen' := if k.Object? then seen + {s[0].s} else seen;
      var body := if k.Object? then s[1..] else s;
      Uncons(s);
      assert s == KeyToken(key) + body;
      var value := ReadIsClean(body, depth);
      var left := AfterNode(body, depth).value;
      var rest := ReadItemsAreClean(left, k, depth, seen');
      items := Cons(key, value, rest);
      assert AfterItems(s, k, depth, seen) == AfterItems(left, k, depth, seen');
      hide AfterItems, ItemTokens;
      ItemTokensThen(key, value, rest, AfterItems(left, k, depth, seen').value);
    }
  }

  /** uniqueJSON accepts exactly the token streams of one clean document. */
  lemma {:induction false} UniqueJsonExactly(s: seq<Token>)
    ensures AfterNode(s, 0) == Some([]) <==> exists t: Node :: Clean(t, 0) && Tokens(t) == s
  {
    if AfterNode(s, 0) == Some([]) {
      var t := ReadIsClean(s, 0);
      assert Clean(t, 0) && Tokens(t) == Tokens(t) + [] == s;
    }
    if exists t: Node :: Clean(t, 0) && Tokens(t) == s {
      var t: Node :| Clean(t, 0) && Tokens(t) == s;
      CleanIsRead(t, [], 0);
      assert Tokens(t) + [] == s;
    }
  }

  // ---------- The operator pass ----------

  /** The decoded value: in an object the last member with a key wins. */
  datatype Value = Plain | List(elements: seq<Value>) | Record(fields: map<string, Value>)

  function Decode(t: Node): Value {
    match t
    case Atom(_) => Plain
    case Container(Object, items) => Record(DecodeFields(items))
    case Container(Array, items) => List(DecodeElements(items))
  }

  function DecodeFields(items: Items): map<string, Value> {
    match items
    case Nil => map[]
    case Cons(key, value, rest) =>
      (if key.Some? then map[key.value := Decode(value)] else map[]) + DecodeFields(rest)
  }

  function DecodeElements(items: Items): seq<Value> {
    match items
    case Nil => []
    case Cons(_, value, rest) => [Decode(value)] + DecodeElements(rest)
  }

  function Length(items: Items): nat {
    match items
    case Nil => 0
    case Cons(_, _, rest) => 1 + Length(rest)
  }

  function Allowlist(): seq<string> {
    ["$eq", "$ne", "$gt", "$gte", "$lt", "$lte", "$in", "$nin", "$and", "$or", "$nor", "$not", "$exists",
     "$type", "$regex", "$options", "$elemMatch", "$size", "$all", "$oid", "$date", "$numberInt",
     "$numberLong", "$numberDouble", "$numberDecimal"]
  }

  predicate KeyAllowed(key: string) {
    key != "" && key[0] == '$' ==> key in Allowlist()
  }

  /** filterNode on the decoded value. */
  predicate FilterNode(v: Value, depth: nat)
    decreases v
  {
    && depth <= MAX_DEPTH
    && match v
       case Plain => true
       case List(elements) =>
         |elements| <= MAX_ROWS && forall e | e in elements :: FilterNode(e, depth + 1)
       case Record(fields) =>
         forall key | key in fields :: KeyAllowed(key) && FilterNode(fields[key], depth + 1)
  }

  /** The same demands made of every occurrence in the raw document. */
  predicate EveryOccurrence(t: Node, depth: nat) {
    && depth <= MAX_DEPTH
    && match t
       case Atom(_) => true
       case Container(k, items) => (k.Array? ==> Length(items) <= MAX_ROWS) && EveryItem(items, depth + 1)
  }

  predicate EveryItem(items: Items, depth: nat) {
    match items
    case Nil => true
    case Cons(key, value, rest) =>
      (key.Some? ==> KeyAllowed(key.value)) && EveryOccurrence(value, depth) && EveryItem(rest, depth)
  }

  /** Keys are members' keys, and no key of an object has been seen before or comes again. */
  predicate HasKey(items: Items, key: string) {
    items.Cons? && (items.key == Some(key) || HasKey(items.rest, key))
  }

  lemma {:induction false} FieldsAreKeys(items: Items, key: string)
    ensures key in DecodeFields(items) <==> HasKey(items, key)
    decreases items
  {
    if items.Cons? { FieldsAreKeys(items.rest, key); }
  }

  lemma {:induction false} SeenKeysAreAbsent(items: Items, k: Kind, depth: nat, seen: set<string>, key: string)
    requires CleanItems(items, k, depth, seen) && key in seen
    ensures !HasKey(items, key)
    decreases items
  {
    if items.Cons? {
      SeenKeysAreAbsent(items.rest, k, depth, if items.key.Some? then seen + {items.key.value} else seen, key);
    }
  }

  lemma {:induction false} ElementsLength(items: Items)
    ensures |DecodeElements(items)| == Length(items)
    decreases items
  {
    if items.Cons? { ElementsLength(items.rest); }
  }

  /** On a clean document, checking the decoded value is checking every occurrence. */
  lemma {:induction false} DecodedAgreesWithRaw(t: Node, depth: nat, limit: nat)
    requires Clean(t, limit)
    ensures FilterNode(Decode(t), depth) <==> EveryOccurrence(t, depth)
    decreases t
  {
    hide KeyAllowed;
    match t {
      case Atom(_) =>
      case Container(Object, items) =>
        FieldsAgree(items, depth + 1, limit + 1, {});
      case Container(Array, items) =>
        ElementsLength(items);
        ElementsAgree(items, depth + 1, limit + 1);
    }
  }

  predicate FieldsPass(fields: map<string, Value>, depth: nat) {
    forall key | key in fields :: KeyAllowed(key) && FilterNode(fields[key], depth)
  }

  lemma {:induction false} FieldsAgree(items: Items, depth: nat, limit: nat, seen: set<string>)
    requires CleanItems(items, Object, limit, seen)
    ensures FieldsPass(DecodeFields(items), depth) <==> EveryItem(items, depth)
    decreases items
  {
    hide KeyAllowed, FilterNode, EveryOccurrence, Clean;
    match items {
      case Nil =>
      case Cons(key, value, rest) =>
        DecodedAgreesWithRaw(value, depth, limit);
        FieldsAgree(rest, depth, limit, seen + {key.value});
        SeenKeysAreAbsent(rest, Object, limit, seen + {key.value}, key.value);
        FieldsAreKeys(rest, key.value);
        var fields, more := DecodeFields(items), DecodeFields(rest);
        assert key.value !in more && fields == map[key.value := Decode(value)] + more;
        if FieldsPass(fields, depth) {
          assert key.value in fields;
          forall other | other in more ensures KeyAllowed(other) && FilterNode(more[other], depth) {
            assert other in fields && fields[other] == more[other];
          }
        }
    }
  }

  lemma {:induction false} ElementsAgree(items: Items, depth: nat, limit: nat)
    requires CleanItems(items, Array, limit, {})
    ensures (forall e | e in DecodeElements(items) :: FilterNode(e, depth)) <==> EveryItem(items, depth)
    decreases items
  {
    hide FilterNode, EveryOccurrence, Clean;
    match items {
      case Nil =>
      case Cons(key, value, rest) =>
        DecodedAgreesWithRaw(value, depth, limit);
        ElementsAgree(rest, depth, limit);
        var all, more := DecodeElements(items), DecodeElements(rest);
        assert all[0] == Decode(value) && all[1..] == more;
        assert forall e :: e in all <==> e == Decode(value) || e in more;
    }
  }

  /** mongoFilter up to the driver's own conversion, whose verdict is bsonOk. */
  ghost predicate Accepts(s: seq<Token>, t: Node, bsonOk: bool) {
    && AfterNode(s, 0) == Some([])
    && Tokens(t) == s && Decode(t).Record?
    && FilterNode(Decode(t), 0)
    && bsonOk
  }

  /** A document as any JSON decoder sees it: keys in objects only, no limits. */
  predicate WellFormed(t: Node) {
    match t
    case Atom(token) => IsAtom(token)
    case Container(k, items) => WellFormedItems(items, k)
  }

  predicate WellFormedItems(items: Items, k: Kind) {
    match items
    case Nil => true
    case Cons(key, value, rest) => (k.Object? <==> key.Some?) && WellFormed(value) && WellFormedItems(rest, k)
  }

  /** Reading a well-formed document succeeds only if it is clean, and then ends where it ends. */
  lemma {:induction false} WellFormedIsRead(t: Node, r: seq<Token>, depth: nat, s: seq<Token>)
    requires WellFormed(t) && s == Tokens(t) + r && AfterNode(s, depth).Some?
    ensures Clean(t, depth) && AfterNode(s, depth).value == r
    decreases t
  {
    match t {
      case Atom(token) =>
        assert s[1..] == r;
      case Container(k, items) =>
        assert s[1..] == ItemTokens(items) + ([Close(k)] + r);
        WellFormedItemsAreRead(items, k, [Close(k)] + r, depth + 1, {}, s[1..]);
        assert ([Close(k)] + r)[1..] == r;
    }
  }

  lemma {:induction false} WellFormedItemsAreRead(
    items: Items, k: Kind, r: seq<Token>, depth: nat, seen: set<string>, s: seq<Token>)
    requires WellFormedItems(items, k) && !More(r) && s == ItemTokens(items) + r && AfterItems(s, k, depth, seen).Some?
    ensures CleanItems(items, k, depth, seen) && AfterItems(s, k, depth, seen).value == r
    decreases items
  {
    hide AfterNode, WellFormed, Clean, Tokens;
    match items {
      case Nil =>
        assert s == r;
      case Cons(key, value, rest) =>
        var more := ItemTokens(rest) + r;
        var body := Tokens(value) + more;
        NotClosing(value);
        ItemTokensThen(key, value, rest, r);
        assert key.Some? ==> s[0] == Text(key.value);
        assert key.Some? ==> key.value !in seen;
        hide AfterItems, ItemTokens;
        AfterOneItem(key, k, body, depth, seen);
        WellFormedIsRead(value, more, depth, body);
        WellFormedItemsAreRead(rest, k, r, depth, if key.Some? then seen + {key.value} else seen, more);
    }
  }

  lemma NotClosing(t: Node)
    requires WellFormed(t)
    ensures !Tokens(t)[0].Close?
  {
  }

  /**
   An accepted filter is an object in which, anywhere, no key repeats, nothing nests deeper than
   32 levels, and every $ key that occurs is on the allowlist; and every such document is
   accepted when the driver can convert it.
   */
  lemma {:induction false} AcceptedFilters(s: seq<Token>, t: Node, bsonOk: bool)
    requires WellFormed(t) && Tokens(t) == s
    ensures Accepts(s, t, bsonOk) <==>
      Clean(t, 0) && t.Container? && t.kind.Object? && EveryOccurrence(t, 0) && bsonOk
  {
    hide Clean, FilterNode, EveryOccurrence;
    assert s == Tokens(t) + [];
    if AfterNode(s, 0).Some? {
      WellFormedIsRead(t, [], 0, s);
    }
    if Clean(t, 0) {
      CleanIsRead(t, [], 0);
      DecodedAgreesWithRaw(t, 0, 0);
    }
  }

  /** Without the token pass the operator pass alone would miss an operator under a repeated key. */
  lemma {:induction false} RepeatedKeyHidesOperator()
    ensures var bad := Container(Object, Cons(Some("$where"), Atom(Other("1")), Nil));
            var t := Container(Object, Cons(Some("a"), bad, Cons(Some("a"), Atom(Other("1")), Nil)));
            && WellFormed(t) && FilterNode(Decode(t), 0) && !EveryOccurrence(t, 0) && !Clean(t, 0)
  {
    var bad := Container(Object, Cons(Some("$where"), Atom(Other("1")), Nil));
    var tail := Cons(Some("a"), Atom(Other("1")), Nil);
    assert DecodeFields(tail) == map["a" := Plain];
    assert DecodeFields(Cons(Some("a"), bad, tail)) == map["a" := Plain];
    assert !KeyAllowed("$where") by {
      assert forall i | 0 <= i < |Allowlist()| :: Allowlist()[i] != "$where";
    }
    assert !EveryItem(Cons(Some("$where"), Atom(Other("1")), Nil), 2);
    assert !EveryOccurrence(bad, 1);
  }
}
