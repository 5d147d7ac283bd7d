/**
 What mongoFilter of datacenter/database/mongo.go promises about an accepted filter, told by the
 containers of the document: their keys, their sizes, and how deep they nest.
 */
module MongoMeaning {
  import opened ByteStrings
  import Utf8
  import JsonGrammar
  import opened MongoFilter
  import opened MongoText

  /** Every object and array of a document, itself included. */
  function Containers(t: Node): set<Node> {
    match t
    case Atom(_) => {}
    case Container(_, items) => {t} + InItems(items)
  }

  function InItems(items: Items): set<Node> {
    match items
    case Nil => {}
    case Cons(_, value, rest) => Containers(value) + InItems(rest)
  }

  /** How many containers are around the deepest value. */
  function Height(t: Node): nat {
    match t
    case Atom(_) => 0
    case Container(_, items) => ItemsHeight(items)
  }

  function ItemsHeight(items: Items): nat {
    match items
    case Nil => 0
    case Cons(_, value, rest) => if 1 + Height(value) > ItemsHeight(rest) then 1 + Height(value) else ItemsHeight(rest)
  }

  function Keys(items: Items): seq<string> {
    match items
    case Nil => []
    case Cons(key, _, rest) => (if key.Some? then [key.value] else []) + Keys(rest)
  }

  predicate NoRepeats(keys: seq<string>) {
    forall i, j | 0 <= i < j < |keys| :: keys[i] != keys[j]
  }

  predicate KeysOnce(n: Node) {
    n.Container? ==> NoRepeats(Keys(n.items))
  }

  /** The operators a filter may use, by what they are for. */
  function Comparisons(): set<string> {
    {"$eq", "$ne", "$gt", "$gte", "$lt", "$lte", "$in", "$nin"}
  }

  function Combinations(): set<string> {
    {"$and", "$or", "$nor", "$not"}
  }

  function Tests(): set<string> {
    {"$exists", "$type", "$regex", "$options", "$elemMatch", "$size", "$all"}
  }

  /** Not operators but typed values of extended JSON. */
  function TypedValues(): set<string> {
    {"$oid", "$date", "$numberInt", "$numberLong", "$numberDouble", "$numberDecimal"}
  }

  predicate IsOperator(key: string) {
    key in Comparisons() || key in Combinations() || key in Tests() || key in TypedValues()
  }

  lemma {:induction false} OperatorsListed(key: string)
    ensures key in Allowlist() <==> IsOperator(key)
  {
  }

  /** An array within the row limit, an object with no operator that is not on the list. */
  predicate Permitted(n: Node) {
    n.Container? ==>
      && (n.kind.Array? ==> Length(n.items) <= 1000)
      && forall key | key in Keys(n.items) :: "$" <= key ==> IsOperator(key)
  }

  lemma {:induction false} KeyAllowedExactly(key: string)
    ensures KeyAllowed(key) <==> ("$" <= key ==> IsOperator(key))
  {
    hide Allowlist, IsOperator;
    OperatorsListed(key);
    if key != "" && key[0] == '$' { assert key[..1] == "$"; }
  }

  // ---------- The token pass ----------

  lemma {:induction false} RepeatsMore(key: string, keys: seq<string>)
    ensures NoRepeats([key] + keys) <==> key !in keys && NoRepeats(keys)
  {
    var all := [key] + keys;
    if NoRepeats(all) {
      forall i | 0 <= i < |keys| ensures keys[i] != key { assert all[i + 1] == keys[i] && all[0] == key; }
      forall i, j | 0 <= i < j < |keys| ensures keys[i] != keys[j] {
        assert all[i + 1] == keys[i] && all[j + 1] == keys[j];
      }
    }
  }

  lemma {:induction false} CleanExactly(t: Node, depth: nat)
    requires WellFormed(t)
    ensures Clean(t, depth) <==> depth + Height(t) <= 32 && forall n | n in Containers(t) :: KeysOnce(n)
    decreases t
  {
    hide NoRepeats, CleanItems;
    match t {
      case Atom(_) =>
      case Container(k, items) =>
        CleanItemsExactly(items, k, depth + 1, {});
        hide ItemsHeight, Keys, WellFormedItems, InItems;
        assert t in Containers(t) && forall n | n in Containers(t) :: n == t || n in InItems(items);
        assert forall n | n in InItems(items) :: n in Containers(t);
        assert KeysOnce(t) <==> NoRepeats(Keys(items));
        DepthInside(items, depth);
    }
  }

  lemma {:induction false} DepthInside(items: Items, depth: nat)
    ensures items == Nil ==> ItemsHeight(items) == 0
  {
  }

  /** The items are clean when their values are, and their keys are new and never come twice. */
  lemma {:induction false} CleanItemsExactly(items: Items, k: Kind, depth: nat, seen: set<string>)
    requires WellFormedItems(items, k) && depth > 0
    ensures CleanItems(items, k, depth, seen) <==>
      && (items == Nil || depth - 1 + ItemsHeight(items) <= 32)
      && (forall n | n in InItems(items) :: KeysOnce(n))
      && NoRepeats(Keys(items)) && forall key | key in Keys(items) :: key !in seen
    decreases items
  {
    hide Clean, WellFormed, Containers, Height, KeysOnce;
    match items {
      case Nil =>
        assert NoRepeats([]);
      case Cons(key, value, rest) =>
        var seen' := if key.Some? then seen + {key.value} else seen;
        CleanExactly(value, depth);
        CleanItemsExactly(rest, k, depth, seen');
        hide NoRepeats;
        assert InItems(items) == Containers(value) + InItems(rest);
        assert (forall n | n in InItems(items) :: KeysOnce(n))
          <==> (forall n | n in Containers(value) :: KeysOnce(n)) && (forall n | n in InItems(rest) :: KeysOnce(n));
        if key.Some? {
          RepeatsMore(key.value, Keys(rest));
          assert Keys(items) == [key.value] + Keys(rest);
        } else {
          assert Keys(items) == Keys(rest);
        }
    }
  }

  // ---------- The operator pass ----------

  lemma {:induction false} OccurrencesExactly(t: Node, depth: nat)
    ensures EveryOccurrence(t, depth) <==> depth + Height(t) <= 32 && forall n | n in Containers(t) :: Permitted(n)
    decreases t
  {
    hide IsOperator, EveryItem, KeyAllowed;
    match t {
      case Atom(_) =>
      case Container(k, items) =>
        ItemsPermitted(items, depth + 1);
        hide ItemsHeight, Keys, InItems, Length;
        assert t in Containers(t) && forall n | n in Containers(t) :: n == t || n in InItems(items);
        assert forall n | n in InItems(items) :: n in Containers(t);
        assert Permitted(t) <==>
          (k.Array? ==> Length(items) <= 1000) && forall key | key in Keys(items) :: "$" <= key ==> IsOperator(key);
        hide Permitted;
        assert (forall n | n in Containers(t) :: Permitted(n))
          <==> Permitted(t) && forall n | n in InItems(items) :: Permitted(n);
        DepthInside(items, depth);
    }
  }

  lemma {:induction false} ItemsPermitted(items: Items, depth: nat)
    requires depth > 0
    ensures EveryItem(items, depth) <==>
      && (items == Nil || depth - 1 + ItemsHeight(items) <= 32)
      && (forall n | n in InItems(items) :: Permitted(n))
      && forall key | key in Keys(items) :: "$" <= key ==> IsOperator(key)
    decreases items
  {
    hide EveryOccurrence, Containers, Height, Permitted, IsOperator, KeyAllowed;
    match items {
      case Nil =>
      case Cons(key, value, rest) =>
        OccurrencesExactly(value, depth);
        ItemsPermitted(rest, depth);
        assert InItems(items) == Containers(value) + InItems(rest);
        assert (forall n | n in InItems(items) :: Permitted(n))
          <==> (forall n | n in Containers(value) :: Permitted(n)) && (forall n | n in InItems(rest) :: Permitted(n));
        if key.Some? {
          KeyAllowedExactly(key.value);
          assert Keys(items) == [key.value] + Keys(rest);
        } else {
          assert Keys(items) == Keys(rest);
        }
    }
  }

  // ---------- Accepted filters ----------

  /** An object, nested at most 32 deep, in which no key repeats and everything is permitted. */
  ghost predicate Meant(t: Node) {
    && t.Container? && t.kind.Object? && Height(t) <= 32
    && forall n | n in Containers(t) :: KeysOnce(n) && Permitted(n)
  }

  lemma {:induction false} AcceptedMeans(s: seq<Token>, t: Node, bsonOk: bool)
    requires WellFormed(t) && Tokens(t) == s
    ensures Accepts(s, t, bsonOk) <==> Meant(t) && bsonOk
  {
    hide Clean, EveryOccurrence, Accepts, KeysOnce, Permitted, Containers, Height;
    AcceptedFilters(s, t, bsonOk);
    CleanExactly(t, 0);
    OccurrencesExactly(t, 0);
  }

  /** The same for input bytes: at most 64 KiB of UTF-8 without NUL that spell such an object. */
  lemma {:induction false} AcceptedTextsMean(text: Bytes, v: JsonGrammar.Value, read: Reading, bsonOk: bool)
    requires JsonGrammar.IsTextOf(text, v)
    ensures AcceptsText(text, read, bsonOk) <==>
      |text| <= 65536 && Utf8.Valid(text) && 0 !in text && Meant(NodeOf(v, read)) && bsonOk
  {
    hide Clean, EveryOccurrence, AcceptsText, KeysOnce, Permitted, Containers, Height, Utf8.Valid, JsonGrammar.Derives;
    AcceptedTexts(text, v, read, bsonOk);
    Grows(text, v);
    DecoderReadsTree(v, read);
    CleanExactly(NodeOf(v, read), 0);
    OccurrencesExactly(NodeOf(v, read), 0);
    SameKind(v, read);
  }

  lemma SameKind(v: JsonGrammar.Value, read: Reading)
    ensures NodeOf(v, read).Container? <==> v.Container?
    ensures v.Container? ==> (NodeOf(v, read).kind.Object? <==> v.kind.Object?)
  {
  }
}
