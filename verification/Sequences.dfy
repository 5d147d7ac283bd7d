/** Re-association of concatenations, which the proofs about texts and tokens all need. */
module Sequences {
  lemma Regroup3<T>(a: seq<T>, b: seq<T>, c: seq<T>)
    ensures a + b + c == a + (b + c)
  {
  }

  lemma Regroup<T>(a: seq<T>, b: seq<T>, c: seq<T>, d: seq<T>)
    ensures a + b + c + d == a + (b + (c + d))
  {
  }

  /** Cutting a concatenation where its first part ends. */
  lemma Cut<T>(a: seq<T>, b: seq<T>)
    ensures (a + b)[..|a|] == a && (a + b)[|a|..] == b
  {
  }

  lemma Uncons<T>(s: seq<T>)
    requires s != []
    ensures s == [s[0]] + s[1..]
  {
  }

  /** rest is what is left of s after k elements. */
  predicate LeftAfter<T(==)>(s: seq<T>, k: int, rest: seq<T>) {
    0 <= k <= |s| && rest == s[k..]
  }

  lemma StartsWhole<T>(s: seq<T>)
    ensures LeftAfter(s, 0, s)
  {
  }

  lemma DropMore<T>(s: seq<T>, k: int, rest: seq<T>, n: nat)
    requires LeftAfter(s, k, rest) && n <= |rest|
    ensures LeftAfter(s, k + n, rest[n..]) && |rest| == |s| - k
  {
  }

  lemma LeftIs<T>(s: seq<T>, k: int, rest: seq<T>)
    requires LeftAfter(s, k, rest)
    ensures 0 <= k <= |s| && rest == s[k..]
  {
  }
}
