/**
 What the numbers in datacenter/database/wire.go mean: decimal counts in RESP2 lines, and the
 little-endian sizes in MongoDB message headers.
 */
module RespNumbers {
  import opened Wrappers
  import opened ByteStrings
  import opened Sequences
  import opened RespGrammar
  import opened WireStream

  // ---------- Decimal ----------

  /** n in decimal, digit by digit from n / 10 and n % 10. */
  function Numeral(n: nat): (s: Bytes)
    ensures s != []
  {
    if n < 10 then [0x30 + n] else Numeral(n / 10) + [0x30 + n % 10]
  }

  function Zeros(z: nat): Bytes {
    if z == 0 then [] else Zeros(z - 1) + [0x30]
  }

  function Pow10(k: nat): nat {
    if k == 0 then 1 else 10 * Pow10(k - 1)
  }

  lemma {:induction false} ValueOfMore(s: Bytes, d: int)
    ensures DigitsValue(s + [d]) == 10 * DigitsValue(s) + (d - 0x30)
  {
    assert (s + [d])[..|s|] == s;
  }

  /** Each digit counts ten times as much as the one after it. */
  lemma {:induction false} PlaceValue(a: Bytes, b: Bytes)
    ensures DigitsValue(a + b) == DigitsValue(a) * Pow10(|b|) + DigitsValue(b)
    decreases |b|
  {
    hide DigitsValue;
    if b == [] {
      assert a + b == a;
      NoDigits();
    } else {
      var front, d := b[..|b| - 1], b[|b| - 1];
      PlaceValue(a, front);
      assert b == front + [d];
      Regroup3(a, front, [d]);
      ValueOfMore(a + front, d);
      ValueOfMore(front, d);
      Shift(DigitsValue(a), Pow10(|front|));
    }
  }

  lemma NoDigits()
    ensures DigitsValue([]) == 0
  {
  }

  lemma {:induction false} Shift(x: int, p: nat)
    ensures 10 * (x * p) == x * (10 * p)
  {
  }

  lemma {:induction false} NumeralValue(n: nat)
    ensures AllDigits(Numeral(n)) && DigitsValue(Numeral(n)) == n
    decreases n
  {
    hide DigitsValue;
    NoDigits();
    if n < 10 {
      assert [] + [0x30 + n] == [0x30 + n];
      ValueOfMore([], 0x30 + n);
    } else {
      NumeralValue(n / 10);
      ValueOfMore(Numeral(n / 10), 0x30 + n % 10);
    }
  }

  lemma {:induction false} ZerosValue(z: nat)
    ensures AllDigits(Zeros(z)) && DigitsValue(Zeros(z)) == 0
    decreases z
  {
    hide DigitsValue;
    NoDigits();
    if z > 0 {
      ZerosValue(z - 1);
      ValueOfMore(Zeros(z - 1), 0x30);
    }
  }

  /** Digits spell exactly one number: its numeral, after any zeros. */
  lemma {:induction false} DigitsSpell(s: Bytes) returns (z: nat)
    requires s != [] && AllDigits(s)
    ensures DigitsValue(s) >= 0 && s == Zeros(z) + Numeral(DigitsValue(s))
    decreases |s|
  {
    var front, d := s[..|s| - 1], s[|s| - 1];
    assert s == front + [d] && 0x30 <= d <= 0x39;
    ValueOfMore(front, d);
    if front == [] {
      z := 0;
      NoDigits();
      assert Zeros(0) + Numeral(d - 0x30) == [d];
    } else {
      z := DigitsSpell(front);
      var m := DigitsValue(front);
      if m > 0 {
        SpellMore(m, d);
        Regroup3(Zeros(z), Numeral(m), [d]);
      } else {
        assert Numeral(0) == [0x30] && Numeral(d - 0x30) == [d];
        z := z + 1;
      }
    }
  }

  lemma {:induction false} SpellMore(m: nat, d: int)
    requires m > 0 && 0x30 <= d <= 0x39
    ensures Numeral(10 * m + (d - 0x30)) == Numeral(m) + [d]
  {
    var n := 10 * m + (d - 0x30);
    assert n / 10 == m && n % 10 == d - 0x30;
  }

  function Abs(n: int): nat {
    if n < 0 then -n else n
  }

  /** A sign if any, zeros if any, and the numeral; a minus exactly when n is negative, but for zero. */
  predicate Spells(s: Bytes, sign: Bytes, z: nat, n: int) {
    && s == sign + (Zeros(z) + Numeral(Abs(n)))
    && ((sign == [0x2D] && n <= 0) || ((sign == [] || sign == [0x2B]) && n >= 0))
  }

  lemma {:induction false} SpelledDigits(z: nat, n: nat)
    ensures var digits := Zeros(z) + Numeral(n);
            digits != [] && AllDigits(digits) && DigitsValue(digits) == n && digits[0] != 0x2B && digits[0] != 0x2D
  {
    hide DigitsValue;
    ZerosValue(z);
    NumeralValue(n);
    PlaceValue(Zeros(z), Numeral(n));
    var digits := Zeros(z) + Numeral(n);
    assert IsDigit(digits[0]);
  }

  lemma {:induction false} ParsesSpelling(s: Bytes, sign: Bytes, z: nat, n: int)
    requires Spells(s, sign, z, n) && -0x8000_0000_0000_0000 <= n < 0x8000_0000_0000_0000
    ensures ParseInt(s) == Some(n)
  {
    hide DigitsValue, AllDigits, Zeros, Numeral;
    var digits := Zeros(z) + Numeral(Abs(n));
    SpelledDigits(z, Abs(n));
    assert sign == [] ==> s == digits;
    assert sign != [] ==> s[0] == sign[0] && s[1..] == digits;
  }

  lemma {:induction false} SpellingOf(s: Bytes) returns (sign: Bytes, z: nat)
    requires ParseInt(s).Some?
    ensures Spells(s, sign, z, ParseInt(s).value)
  {
    hide DigitsValue, AllDigits, Zeros, Numeral;
    var signed := s[0] == 0x2B || s[0] == 0x2D;
    var digits := if signed then s[1..] else s;
    sign := if signed then [s[0]] else [];
    z := DigitsSpell(digits);
    assert s == sign + digits;
  }

  /** ParseInt answers n exactly for the decimal spellings of n, and for n within 64 bits. */
  lemma {:induction false} ParsesDecimal(s: Bytes, n: int)
    ensures ParseInt(s) == Some(n) <==>
      && -9_223_372_036_854_775_808 <= n <= 9_223_372_036_854_775_807
      && exists sign: Bytes, z: nat :: Spells(s, sign, z, n)
  {
    if ParseInt(s) == Some(n) {
      var sign, z := SpellingOf(s);
      assert Spells(s, sign, z, n);
    }
    hide ParseInt, Spells;
    if -0x8000_0000_0000_0000 <= n < 0x8000_0000_0000_0000 {
      if sign: Bytes, z: nat :| Spells(s, sign, z, n) { ParsesSpelling(s, sign, z, n); }
    }
  }

  // ---------- Whole replies ----------

  lemma {:induction false} ShortNumeral(n: nat, k: nat)
    requires k > 0 && n < Pow10(k)
    ensures |Numeral(n)| <= k
    decreases k
  {
    assert Pow10(1) == 10;
    if n >= 10 { ShortNumeral(n / 10, k - 1); }
  }

  lemma {:induction false} NumeralParses(n: nat)
    requires n <= MAX_RESULT
    ensures ParseInt(Numeral(n)) == Some(n) && AllDigits(Numeral(n)) && |Numeral(n)| <= 7
  {
    hide ParseInt, Numeral;
    TenMillion();
    ShortNumeral(n, 7);
    NumeralValue(n);
    assert Zeros(0) + Numeral(n) == Numeral(n) && [] + Numeral(n) == Numeral(n);
    assert Spells(Numeral(n), [], 0, n);
    ParsesDecimal(Numeral(n), n);
  }

  lemma TenMillion()
    ensures Pow10(7) == 10_000_000
  {
    assert Pow10(1) == 10 && Pow10(2) == 100 && Pow10(3) == 1000 && Pow10(4) == 10_000 && Pow10(5) == 100_000;
  }

  lemma {:induction false} LineOf(kind: int, text: Bytes)
    requires text != [] && |text| <= 7 && AllDigits(text) && kind != LF
    ensures var line := [kind] + text + [CR, LF];
            IsLine(line) && line[1..|line| - 2] == text && line[0] == kind
  {
    var line := [kind] + text + [CR, LF];
    forall i | 0 <= i < |line| - 1 ensures line[i] != LF {
      if 1 <= i < |line| - 2 { assert IsDigit(text[i - 1]) && line[i] == text[i - 1]; }
    }
  }

  lemma {:induction false} CountLine(kind: int, n: nat)
    requires n <= MAX_RESULT && kind != LF
    ensures var line := [kind] + Numeral(n) + [CR, LF];
            IsLine(line) && Count(line) == Some(n) && line[0] == kind
  {
    hide ParseInt, Numeral, AllDigits, NoLf;
    NumeralParses(n);
    LineOf(kind, Numeral(n));
  }

  /** A bulk string with its length in decimal before it is read whole, if it fits the budget. */
  lemma {:induction false} ReadsBulk(data: Bytes, rest: Bytes, depth: nat, budget: int)
    requires depth <= 32 && budget <= 1_048_576
    ensures var line := [0x24] + Numeral(|data|) + [CR, LF];
            |line| + |data| + 2 <= budget ==>
              ParseFrame(line + data + [CR, LF] + rest, depth, budget) == Success(Bulk(line, data))
  {
    hide ParseFrame, Numeral, IsLine, Count;
    var line := [0x24] + Numeral(|data|) + [CR, LF];
    if |line| + |data| + 2 <= budget {
      CountLine(0x24, |data|);
      Complete(Bulk(line, data), rest, depth, budget);
    }
  }

  /** An array with the number of its parts in decimal before it is read whole, if it fits the budget. */
  lemma {:induction false} ReadsArray(parts: Frames, rest: Bytes, depth: nat, budget: int)
    requires depth <= 32 && budget <= 1_048_576 && ShapeAll(parts, depth + 1) && Length(parts) <= 2032
    ensures var line := [0x2A] + Numeral(Length(parts)) + [CR, LF];
            |line| + |EncodeAll(parts)| <= budget ==>
              ParseFrame(line + EncodeAll(parts) + rest, depth, budget) == Success(Multi(line, parts))
  {
    hide ParseFrame, Numeral, IsLine, Count;
    var line := [0x2A] + Numeral(Length(parts)) + [CR, LF];
    if |line| + |EncodeAll(parts)| <= budget {
      CountLine(0x2A, Length(parts));
      Complete(Multi(line, parts), rest, depth, budget);
    }
  }

  /** A status, an error or an integer is one line. */
  lemma {:induction false} ReadsStatus(kind: int, text: Bytes, rest: Bytes, depth: nat, budget: int)
    requires depth <= 32 && kind in {0x2B, 0x2D, 0x3A} && NoLf(text) && |text| + 3 <= 4096
    ensures var line := [kind] + text + [CR, LF];
            |line| <= budget ==> ParseFrame(line + rest, depth, budget) == Success(Line(line))
  {
    hide ParseFrame;
    var line := [kind] + text + [CR, LF];
    assert forall i | 1 <= i < |line| - 2 :: line[i] == text[i - 1];
    if |line| <= budget { Complete(Line(line), rest, depth, budget); }
  }

  /** The null bulk string and the null array are one line too. */
  lemma {:induction false} ReadsNull(kind: int, rest: Bytes, depth: nat, budget: int)
    requires depth <= 32 && kind in {0x24, 0x2A} && budget >= 5
    ensures var line := [kind, 0x2D, 0x31, CR, LF];
            ParseFrame(line + rest, depth, budget) == Success(Line(line))
  {
    hide ParseFrame, ParseInt;
    var line := [kind, 0x2D, 0x31, CR, LF];
    assert line[1..|line| - 2] == [0x2D, 0x31] == [0x2D] + (Zeros(0) + Numeral(1));
    assert Spells([0x2D, 0x31], [0x2D], 0, -1);
    ParsesDecimal([0x2D, 0x31], -1);
    Complete(Line(line), rest, depth, budget);
  }

  /** What the announced number decides: too many bytes or parts are a limit, not a malformed reply. */
  lemma {:induction false} RefusesTooMuch(kind: int, n: nat, rest: Bytes, depth: nat, budget: int)
    requires depth <= 32 && budget <= 1_048_576 && n <= 1_048_576 && kind != LF
    ensures var line := [kind] + Numeral(n) + [CR, LF];
            |line| <= budget ==>
              && (kind == 0x24 && n > budget - |line| - 2 ==> ParseFrame(line + rest, depth, budget) == Failure(Limit))
              && (kind == 0x2A && n > 2032 ==> ParseFrame(line + rest, depth, budget) == Failure(Limit))
              && (kind !in {0x24, 0x2A, 0x2B, 0x2D, 0x3A} ==> ParseFrame(line + rest, depth, budget) == Failure(Query))
  {
    hide Numeral, Count, IsLine, ReadLine, ParseParts;
    var line := [kind] + Numeral(n) + [CR, LF];
    CountLine(kind, n);
    assert |line| >= 3 && line[|line| - 2] == CR;
    ReadsLine(line, rest);
  }

  /** Nesting, the line buffer and the budget are limits; a stream that ends early is the stream's error. */
  lemma {:induction false} RefusesByLimit(s: Bytes, depth: nat, budget: int)
    ensures depth > 32 || budget < 3 ==> ParseFrame(s, depth, budget) == Failure(Limit)
    ensures depth <= 32 && budget >= 3 && |s| >= 4096 && NoLf(s[..4096])
      ==> ParseFrame(s, depth, budget) == Failure(Limit)
    ensures depth <= 32 && budget >= 3 && |s| < 4096 && NoLf(s) ==> ParseFrame(s, depth, budget) == Failure(Io)
  {
    hide ParseBody;
    match FindLf(s) {
      case Some(n) => assert |s| >= 4096 && NoLf(s[..4096]) ==> n >= 4096 by { LfAfter(s, n); }
      case None =>
    }
  }

  lemma {:induction false} LfAfter(s: Bytes, n: nat)
    requires n < |s| && s[n] == LF
    ensures n < 4096 <= |s| ==> !NoLf(s[..4096])
  {
    if n < 4096 <= |s| { assert s[..4096][n] == LF; }
  }

  /** A bulk string that breaks off is the stream's error, one that does not end in CR LF is malformed. */
  lemma {:induction false} RefusesBrokenBulk(n: nat, data: Bytes, depth: nat, budget: int)
    requires depth <= 32 && budget <= 1_048_576
    ensures var line := [0x24] + Numeral(n) + [CR, LF];
            |line| + n + 2 <= budget ==>
              && (|data| < n + 2 ==> ParseFrame(line + data, depth, budget) == Failure(Io))
              && (|data| >= n + 2 && data[n..n + 2] != [CR, LF] ==>
                    ParseFrame(line + data, depth, budget) == Failure(Query))
  {
    hide Numeral, Count, IsLine, ReadLine, ParseParts;
    var line := [0x24] + Numeral(n) + [CR, LF];
    if |line| + n + 2 <= budget {
      CountLine(0x24, n);
      assert |line| >= 3 && line[|line| - 2] == CR;
      ReadsLine(line, data);
      Cut(line, data);
      if |data| >= n + 2 { assert data[n..n + 2] == [data[n], data[n + 1]]; }
    }
  }

  // ---------- Little-endian ----------

  /** The low k bytes of n, least significant first. */
  function LeBytes(n: nat, k: nat): (s: Bytes)
    ensures |s| == k
  {
    if k == 0 then [] else [n % 0x100] + LeBytes(n / 0x100, k - 1)
  }

  lemma {:induction false} FourLeBytes(n: nat)
    ensures var a, b, c := n / 0x100, n / 0x100 / 0x100, n / 0x100 / 0x100 / 0x100;
            LeBytes(n, 4) == [n % 0x100, a % 0x100, b % 0x100, c % 0x100]
  {
    var a, b, c := n / 0x100, n / 0x100 / 0x100, n / 0x100 / 0x100 / 0x100;
    assert LeBytes(c, 1) == [c % 0x100] + LeBytes(c / 0x100, 0);
    assert LeBytes(b, 2) == [b % 0x100] + LeBytes(c, 1);
    assert LeBytes(a, 3) == [a % 0x100] + LeBytes(b, 2);
  }

  lemma {:induction false} LowByte(n: nat)
    ensures n == 0x100 * (n / 0x100) + n % 0x100 && (n < 0x100 ==> n % 0x100 == n)
  {
  }

  lemma {:induction false} FourDigits(n: nat)
    requires n < 0x1_0000_0000
    ensures var a, b, c := n / 0x100, n / 0x100 / 0x100, n / 0x100 / 0x100 / 0x100;
            n % 0x100 + 0x100 * (a % 0x100) + 0x1_0000 * (b % 0x100) + 0x100_0000 * (c % 0x100) == n
  {
    var a, b, c := n / 0x100, n / 0x100 / 0x100, n / 0x100 / 0x100 / 0x100;
    LowByte(n);
    LowByte(a);
    LowByte(b);
    LowByte(c);
  }

  lemma {:induction false} At<T>(before: seq<T>, middle: seq<T>, after: seq<T>, i: nat)
    requires i < |middle|
    ensures (before + middle + after)[|before| + i] == middle[i]
  {
  }

  lemma {:induction false} Le32Reads(before: Bytes, n: nat, after: Bytes)
    requires n < 0x1_0000_0000
    ensures Le32(before + LeBytes(n, 4) + after, |before|) == n
  {
    hide LeBytes;
    FourLeBytes(n);
    At(before, LeBytes(n, 4), after, 0);
    At(before, LeBytes(n, 4), after, 1);
    At(before, LeBytes(n, 4), after, 2);
    At(before, LeBytes(n, 4), after, 3);
    FourDigits(n);
  }

  /**
   A MongoDB message (its size, two identifiers, its operation, its body) is handed on whole when it
   is at most 1 MiB, and refused when it is compressed.
   */
  lemma {:induction false} ReadsMessage(ids: Bytes, op: nat, body: Bytes, rest: Bytes)
    requires |ids| == 8 && op < 0x1_0000_0000 && |body| < 0x1_0000_0000 - 16
    ensures var size := 16 + |body|;
            var f := LeBytes(size, 4) + ids + LeBytes(op, 4) + body;
            NextFrame(true, f + rest) == if size > 1_048_576 || op == 2012 then Failure(Limit) else Success(f)
  {
    hide LeBytes, Le32;
    var size := 16 + |body|;
    var f := LeBytes(size, 4) + ids + LeBytes(op, 4) + body;
    var s := f + rest;
    Le32Reads([], size, ids + LeBytes(op, 4) + body + rest);
    assert s == [] + LeBytes(size, 4) + (ids + LeBytes(op, 4) + body + rest);
    Le32Reads(LeBytes(size, 4) + ids, op, body + rest);
    assert s == (LeBytes(size, 4) + ids) + LeBytes(op, 4) + (body + rest);
    assert s[..|f|] == f;
  }
}
