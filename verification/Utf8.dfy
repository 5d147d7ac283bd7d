/** UTF-8 as section 4 of RFC 3629 defines it, over sequences of byte values. */
module Utf8 {
  import opened ByteStrings

  predicate IsTail(b: int) {
    0x80 <= b <= 0xBF
  }

  /** The length of the character that s starts with, or 0 when it starts with none. */
  function RuneLen(s: Bytes): (n: nat)
    ensures n <= |s| && n <= 4
  {
    if s == [] then 0
    else if 0 <= s[0] <= 0x7F then 1
    else if 0xC2 <= s[0] <= 0xDF then
      if |s| >= 2 && IsTail(s[1]) then 2 else 0
    else if 0xE0 <= s[0] <= 0xEF then
      if && |s| >= 3 && IsTail(s[1]) && IsTail(s[2])
         && (s[0] == 0xE0 ==> s[1] >= 0xA0) && (s[0] == 0xED ==> s[1] <= 0x9F)
      then 3 else 0
    else if 0xF0 <= s[0] <= 0xF4 then
      if && |s| >= 4 && IsTail(s[1]) && IsTail(s[2]) && IsTail(s[3])
         && (s[0] == 0xF0 ==> s[1] >= 0x90) && (s[0] == 0xF4 ==> s[1] <= 0x8F)
      then 4 else 0
    else 0
  }

  predicate Valid(s: Bytes)
    decreases |s|
  {
    s == [] || (RuneLen(s) > 0 && Valid(s[RuneLen(s)..]))
  }

  /** Characters, where a byte that starts none counts as one. */
  function RuneCount(s: Bytes): (n: nat)
    ensures n <= |s|
    decreases |s|
  {
    if s == [] then 0
    else if RuneLen(s) == 0 then 1 + RuneCount(s[1..])
    else 1 + RuneCount(s[RuneLen(s)..])
  }

  predicate HasMultibyte(s: Bytes) {
    exists i :: 0 <= i < |s| && s[i] >= 0x80
  }

  lemma {:induction false} MultibyteSplit(s: Bytes, n: nat)
    requires n <= |s|
    ensures HasMultibyte(s) <==> HasMultibyte(s[..n]) || HasMultibyte(s[n..])
  {
    if i :| 0 <= i < |s| && s[i] >= 0x80 {
      if i < n { assert s[..n][i] >= 0x80; } else { assert s[n..][i - n] >= 0x80; }
    }
    if i :| 0 <= i < |s[n..]| && s[n..][i] >= 0x80 {
      assert s[n + i] >= 0x80;
    }
  }

  /** The first character has several bytes exactly when one of them is not ASCII. */
  lemma {:induction false} LongRune(s: Bytes)
    requires RuneLen(s) > 0
    ensures HasMultibyte(s[..RuneLen(s)]) <==> RuneLen(s) > 1
  {
    var n := RuneLen(s);
    if n > 1 { assert s[..n][0] >= 0x80; }
  }

  /** In a valid text the characters are fewer than the bytes exactly when one is multi-byte. */
  lemma {:induction false} FewerRunes(s: Bytes)
    requires Valid(s)
    ensures RuneCount(s) < |s| <==> HasMultibyte(s)
    decreases |s|
  {
    hide RuneLen, HasMultibyte;
    if s == [] {
      NoMultibyte();
    } else {
      var n := RuneLen(s);
      FewerRunes(s[n..]);
      LongRune(s);
      MultibyteSplit(s, n);
    }
  }

  lemma NoMultibyte()
    ensures !HasMultibyte([])
  {
  }

  lemma {:induction false} TailsInside(s: Bytes, k: nat)
    requires 0 < k < RuneLen(s)
    ensures IsTail(s[k])
  {
  }

  lemma {:induction false} RuneEndsBefore(s: Bytes, last: Bytes)
    requires s != [] && RuneLen(s + last) > 0 && last != [] && RuneLen(last) > 0
    ensures RuneLen(s + last) <= |s|
  {
    var t := s + last;
    assert t[|s|] == last[0] && !IsTail(last[0]);
    if |s| < RuneLen(t) {
      TailsInside(t, |s|);
    }
  }

  /** Dropping one whole character from the end of a valid text leaves a valid text. */
  lemma {:induction false} ValidWithoutLast(s: Bytes, last: Bytes)
    requires Valid(s + last) && last != [] && RuneLen(last) == |last|
    ensures Valid(s)
    decreases |s|
  {
    hide RuneLen;
    if s != [] {
      var t := s + last;
      var n := RuneLen(t);
      RuneEndsBefore(s, last);
      assert t[n..] == s[n..] + last;
      ValidWithoutLast(s[n..], last);
      RuneLenWithin(s, last);
    }
  }

  lemma {:induction false} RuneLenWithin(s: Bytes, last: Bytes)
    requires 0 < RuneLen(s + last) <= |s|
    ensures RuneLen(s) == RuneLen(s + last)
  {
    assert forall i | 0 <= i < |s| :: (s + last)[i] == s[i];
  }

  lemma {:induction false} ValidAreBytes(s: Bytes)
    requires Valid(s)
    ensures AreBytes(s)
    decreases |s|
  {
    if s != [] {
      var n := RuneLen(s);
      ValidAreBytes(s[n..]);
      RuneBytes(s);
      forall i | n <= i < |s| ensures 0 <= s[i] < 0x100 { assert s[i] == s[n..][i - n]; }
    }
  }

  lemma {:induction false} RuneBytes(s: Bytes)
    ensures forall i | 0 <= i < RuneLen(s) :: 0 <= s[i] < 0x100
  {
  }

  /** What follows a whole character does not change it. */
  lemma {:induction false} RuneLenOfFront(a: Bytes, b: Bytes)
    requires RuneLen(a) > 0
    ensures RuneLen(a + b) == RuneLen(a)
  {
    assert forall i | 0 <= i < |a| :: (a + b)[i] == a[i];
  }

  lemma {:induction false} ValidJoin(a: Bytes, b: Bytes)
    requires Valid(a) && Valid(b)
    ensures Valid(a + b)
    decreases |a|
  {
    hide RuneLen;
    if a == [] {
      assert a + b == b;
    } else {
      var n := RuneLen(a);
      RuneLenOfFront(a, b);
      assert (a + b)[n..] == a[n..] + b;
      ValidJoin(a[n..], b);
    }
  }

  /** A valid text cut before an ASCII byte gives two valid texts. */
  lemma {:induction false} ValidSplit(a: Bytes, b: Bytes)
    requires Valid(a + b) && (b == [] || 0 <= b[0] < 0x80)
    ensures Valid(a) && Valid(b)
    decreases |a|
  {
    if a == [] {
      assert a + b == b;
    } else if b == [] {
      assert a + b == a;
    } else {
      var n := RuneLen(a + b);
      assert RuneLen(b) > 0;
      RuneEndsBefore(a, b);
      RuneLenWithin(a, b);
      hide RuneLen;
      assert (a + b)[n..] == a[n..] + b;
      ValidSplit(a[n..], b);
    }
  }
}
