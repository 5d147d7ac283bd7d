/** Go's order on strings, and strings in ascending order. */
module StringOrder {
  /** Go's < on strings. */
  predicate StringLess(a: string, b: string) {
    if b == [] then false
    else if a == [] then true
    else a[0] < b[0] || (a[0] == b[0] && StringLess(a[1..], b[1..]))
  }

  lemma {:induction false} StringLessIrreflexive(a: string)
    ensures !StringLess(a, a)
    decreases |a|
  {
    if a != [] { StringLessIrreflexive(a[1..]); }
  }

  lemma {:induction false} StringLessTransitive(a: string, b: string, c: string)
    ensures StringLess(a, b) && StringLess(b, c) ==> StringLess(a, c)
    decreases |b|
  {
    if a != [] && b != [] && c != [] { StringLessTransitive(a[1..], b[1..], c[1..]); }
  }

  lemma {:induction false} StringLessSplits(a: string, b: string, c: string)
    ensures StringLess(a, c) ==> StringLess(a, b) || StringLess(b, c)
    decreases |b|
  {
    if a != [] && b != [] && c != [] { StringLessSplits(a[1..], b[1..], c[1..]); }
  }

  lemma {:induction false} StringLessTotal(a: string, b: string)
    ensures StringLess(a, b) || a == b || StringLess(b, a)
    decreases |b|
  {
    if a != [] && b != [] {
      StringLessTotal(a[1..], b[1..]);
      if a[0] == b[0] && a[1..] == b[1..] {
        assert a == [a[0]] + a[1..] && b == [b[0]] + b[1..];
      }
    }
  }

  /** In the dictionary: a is a proper beginning of b, or smaller at the first place where they differ. */
  ghost predicate Precedes(a: string, b: string) {
    exists n: nat :: PrecedesAt(a, b, n)
  }

  predicate PrecedesAt(a: string, b: string, n: nat) {
    && n <= |a| && n < |b| && (forall i | 0 <= i < n :: a[i] == b[i])
    && (n == |a| || a[n] < b[n])
  }

  lemma {:induction false} StringLessExactly(a: string, b: string)
    ensures StringLess(a, b) <==> Precedes(a, b)
    decreases |a|
  {
    if a == [] || b == [] {
      if b != [] { assert PrecedesAt(a, b, 0); }
    } else {
      StringLessExactly(a[1..], b[1..]);
      if a[0] < b[0] { assert PrecedesAt(a, b, 0); }
      if a[0] == b[0] && Precedes(a[1..], b[1..]) {
        var n: nat :| PrecedesAt(a[1..], b[1..], n);
        assert forall i | 0 < i < n + 1 :: a[i] == a[1..][i - 1] && b[i] == b[1..][i - 1];
        assert PrecedesAt(a, b, n + 1);
      }
      if Precedes(a, b) {
        var n: nat :| PrecedesAt(a, b, n);
        if n > 0 { assert PrecedesAt(a[1..], b[1..], n - 1); }
      }
    }
  }

  ghost predicate Ascending(s: seq<string>) {
    forall i, j | 0 <= i < j < |s| :: StringLess(s[i], s[j])
  }

  lemma NothingAscends()
    ensures Ascending([])
  {
  }

  function InsertString(x: string, s: seq<string>): seq<string> {
    if s == [] then [x]
    else if StringLess(s[0], x) then [s[0]] + InsertString(x, s[1..])
    else [x] + s
  }

  lemma {:induction false} InsertKeeps(x: string, s: seq<string>)
    ensures forall y :: y in InsertString(x, s) <==> y == x || y in s
    decreases |s|
  {
    if s != [] {
      assert s == [s[0]] + s[1..];
      InsertKeeps(x, s[1..]);
    }
  }

  lemma {:induction false} AscendingCons(x: string, s: seq<string>)
    requires Ascending(s) && forall y | y in s :: StringLess(x, y)
    ensures Ascending([x] + s)
  {
    var t := [x] + s;
    assert t[1..] == s;
  }

  lemma {:induction false} InsertAscends(x: string, s: seq<string>)
    requires Ascending(s) && x !in s
    ensures Ascending(InsertString(x, s))
    decreases |s|
  {
    hide StringLess;
    if s == [] {
    } else if StringLess(s[0], x) {
      assert forall y | y in s[1..] :: StringLess(s[0], y);
      InsertAscends(x, s[1..]);
      InsertKeeps(x, s[1..]);
      AscendingCons(s[0], InsertString(x, s[1..]));
    } else {
      StringLessTotal(s[0], x);
      forall y | y in s ensures StringLess(x, y) {
        if y != s[0] { StringLessTransitive(x, s[0], y); }
      }
      AscendingCons(x, s);
    }
  }

  /** Only one ascending sequence lists a given set. */
  lemma {:induction false} AscendingUnique(a: seq<string>, b: seq<string>)
    requires Ascending(a) && Ascending(b) && forall x :: x in a <==> x in b
    ensures a == b
    decreases |a|
  {
    hide StringLess;
    if a != [] { assert a[0] in b; }
    if b != [] { assert b[0] in a; }
    if a != [] {
      StringLessTransitive(a[0], b[0], a[0]);
      StringLessIrreflexive(a[0]);
      assert a[0] in b && b[0] in a;
      assert a[0] == b[0];
      forall x ensures x in a[1..] <==> x in b[1..] {
        StringLessIrreflexive(x);
        assert x in a <==> x == a[0] || x in a[1..];
        assert x in b <==> x == b[0] || x in b[1..];
      }
      AscendingUnique(a[1..], b[1..]);
      assert a == [a[0]] + a[1..] && b == [b[0]] + b[1..];
    }
  }
}
