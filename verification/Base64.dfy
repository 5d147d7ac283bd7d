/** Base64 as sections 3.5 and 4 of RFC 4648 define it: encoding, and strict decoding. */
module Base64 {
  import opened Wrappers
  import opened ByteStrings

  const PAD := 0x3D

  function Char64(n: int): int {
    if n < 26 then 0x41 + n
    else if n < 52 then 0x61 + n - 26
    else if n < 62 then 0x30 + n - 52
    else if n == 62 then 0x2B
    else 0x2F
  }

  /** The six bits of a character, or -1 when it is outside the alphabet. */
  function Value64(c: int): (v: int)
    ensures -1 <= v < 64
    ensures v >= 0 ==> Char64(v) == c
  {
    if 0x41 <= c <= 0x5A then c - 0x41
    else if 0x61 <= c <= 0x7A then c - 0x61 + 26
    else if 0x30 <= c <= 0x39 then c - 0x30 + 52
    else if c == 0x2B then 62
    else if c == 0x2F then 63
    else -1
  }

  lemma {:induction false} ValueOfChar(n: int)
    requires 0 <= n < 64
    ensures Value64(Char64(n)) == n && Char64(n) != PAD
  {
  }

  function Encode1(a: int): Bytes {
    [Char64(a / 4), Char64(a % 4 * 16), PAD, PAD]
  }

  function Encode2(a: int, b: int): Bytes {
    [Char64(a / 4), Char64(a % 4 * 16 + b / 16), Char64(b % 16 * 4), PAD]
  }

  function Encode3(a: int, b: int, c: int): (q: Bytes)
    ensures |q| == 4
  {
    [Char64(a / 4), Char64(a % 4 * 16 + b / 16), Char64(b % 16 * 4 + c / 64), Char64(c % 64)]
  }

  function Encode(x: Bytes): Bytes {
    if |x| == 0 then []
    else if |x| == 1 then Encode1(x[0])
    else if |x| == 2 then Encode2(x[0], x[1])
    else Encode3(x[0], x[1], x[2]) + Encode(x[3..])
  }

  /** Three, two or one byte from a full quantum, a quantum with one pad, a quantum with two. */
  function Decode3(q: Bytes): Option<Bytes>
    requires |q| == 4
  {
    var a, b, c, d := Value64(q[0]), Value64(q[1]), Value64(q[2]), Value64(q[3]);
    if a < 0 || b < 0 || c < 0 || d < 0 then None
    else Some([a * 4 + b / 16, b % 16 * 16 + c / 4, c % 4 * 64 + d])
  }

  function Decode2(q: Bytes): Option<Bytes>
    requires |q| == 4
  {
    var a, b, c := Value64(q[0]), Value64(q[1]), Value64(q[2]);
    if a < 0 || b < 0 || c < 0 || c % 4 != 0 then None
    else Some([a * 4 + b / 16, b % 16 * 16 + c / 4])
  }

  function Decode1(q: Bytes): Option<Bytes>
    requires |q| == 4
  {
    var a, b := Value64(q[0]), Value64(q[1]);
    if a < 0 || b < 0 || b % 16 != 0 then None else Some([a * 4 + b / 16])
  }

  function DecodeLast(q: Bytes): Option<Bytes>
    requires |q| == 4
  {
    if q[2] == PAD && q[3] == PAD then Decode1(q)
    else if q[3] == PAD then Decode2(q)
    else Decode3(q)
  }

  /** Strict decoding: padding only at the end, and no stray bits under it. */
  function StrictDecode(e: Bytes): Option<Bytes>
    requires |e| % 4 == 0
    decreases |e|
  {
    if e == [] then Some([])
    else if |e| == 4 then DecodeLast(e)
    else match Decode3(e[..4])
      case None => None
      case Some(head) =>
        match StrictDecode(e[4..])
        case None => None
        case Some(rest) => Some(head + rest)
  }

  // ---------- Decoding undoes encoding, and nothing else decodes ----------

  predicate IsByte(b: int) { 0 <= b < 0x100 }

  lemma {:induction false} Quantum3(a: int, b: int, c: int)
    requires IsByte(a) && IsByte(b) && IsByte(c)
    ensures Decode3(Encode3(a, b, c)) == Some([a, b, c])
    ensures Encode3(a, b, c)[3] != PAD
  {
    hide Char64, Value64;
    Six(a, b);
    Six(b, c);
    ValueOfChar(a / 4);
    ValueOfChar(a % 4 * 16 + b / 16);
    ValueOfChar(b % 16 * 4 + c / 64);
    ValueOfChar(c % 64);
  }

  /** The six-bit pieces of two neighbouring bytes, and the bytes put together again. */
  lemma {:induction false} Six(a: int, b: int)
    requires IsByte(a) && IsByte(b)
    ensures 0 <= a / 4 < 64 && 0 <= a % 4 * 16 + b / 16 < 64 && 0 <= a % 16 * 4 + b / 64 < 64 && 0 <= b % 64 < 64
    ensures a / 4 * 4 + (a % 4 * 16 + b / 16) / 16 == a
    ensures (a % 4 * 16 + b / 16) % 16 * 16 + (b % 16 * 4) / 4 == b
    ensures (a % 4 * 16 + b / 16) % 16 == b / 16 && (a % 16 * 4 + b / 64) / 4 == a % 16
    ensures (a % 16 * 4 + b / 64) % 4 * 64 + b % 64 == b
    ensures b / 16 * 16 + b % 16 == b
  {
  }

  lemma {:induction false} Quantum2(a: int, b: int)
    requires IsByte(a) && IsByte(b)
    ensures DecodeLast(Encode2(a, b)) == Some([a, b])
  {
    hide Char64, Value64;
    Six(a, b);
    Six(b, 0);
    ValueOfChar(a / 4);
    ValueOfChar(a % 4 * 16 + b / 16);
    ValueOfChar(b % 16 * 4);
  }

  lemma {:induction false} Quantum1(a: int)
    requires IsByte(a)
    ensures DecodeLast(Encode1(a)) == Some([a])
  {
    ValueOfChar(a / 4);
    ValueOfChar(a % 4 * 16);
  }

  lemma {:induction false} EncodedLen(x: Bytes)
    ensures |Encode(x)| == 4 * ((|x| + 2) / 3)
    decreases |x|
  {
    if |x| >= 3 { EncodedLen(x[3..]); }
  }

  lemma {:induction false} DecodeOfEncode(x: Bytes)
    requires AreBytes(x)
    ensures |Encode(x)| % 4 == 0 && StrictDecode(Encode(x)) == Some(x)
    decreases |x|
  {
    hide Char64, Value64, Decode3, Encode3, DecodeLast, Encode1, Encode2;
    EncodedLen(x);
    if |x| >= 3 {
      var q, rest := Encode3(x[0], x[1], x[2]), Encode(x[3..]);
      Quantum3(x[0], x[1], x[2]);
      DecodeOfEncode(x[3..]);
      assert (q + rest)[..4] == q && (q + rest)[4..] == rest;
      if rest == [] {
        EncodedLen(x[3..]);
        assert q + rest == q;
        LastIsFull(q);
        assert x == [x[0], x[1], x[2]];
      } else {
        assert x == [x[0], x[1], x[2]] + x[3..];
      }
    } else if |x| == 2 {
      Quantum2(x[0], x[1]);
      assert x == [x[0], x[1]];
    } else if |x| == 1 {
      Quantum1(x[0]);
      assert x == [x[0]];
    }
  }

  lemma {:induction false} LastIsFull(q: Bytes)
    requires |q| == 4 && q[3] != PAD
    ensures DecodeLast(q) == Decode3(q)
  {
  }

  lemma {:induction false} FullQuantum(q: Bytes)
    requires |q| == 4 && Decode3(q).Some?
    ensures var x := Decode3(q).value; |x| == 3 && AreBytes(x) && Encode3(x[0], x[1], x[2]) == q
  {
    hide Char64, Value64;
    var a, b, c, d := Value64(q[0]), Value64(q[1]), Value64(q[2]), Value64(q[3]);
    Bits(a, b);
    Bits(b, c);
    assert (c % 4 * 64 + d) / 64 == c % 4 && (c % 4 * 64 + d) % 64 == d;
  }

  lemma {:induction false} Bits(a: int, b: int)
    requires 0 <= a < 64 && 0 <= b < 64
    ensures (a * 4 + b / 16) / 4 == a && (a * 4 + b / 16) % 4 == b / 16
    ensures (a % 16 * 16 + b / 4) / 16 == a % 16 && (a % 16 * 16 + b / 4) % 16 == b / 4
    ensures IsByte(a * 4 + b / 16) && IsByte(a % 16 * 16 + b / 4)
    ensures b / 16 * 16 + b % 16 == b && b / 4 * 4 + b % 4 == b
  {
  }

  lemma {:induction false} LastQuantum(q: Bytes)
    requires |q| == 4 && DecodeLast(q).Some?
    ensures var x := DecodeLast(q).value; 1 <= |x| <= 3 && AreBytes(x) && Encode(x) == q
  {
    hide Char64, Value64, Decode3, Encode3;
    var x := DecodeLast(q).value;
    if q[3] != PAD {
      FullQuantum(q);
      assert Encode(x) == q + [] == q;
    } else {
      var a, b, c := Value64(q[0]), Value64(q[1]), Value64(q[2]);
      if q[2] == PAD {
        Bits(a, b);
        assert q == [q[0], q[1], PAD, PAD];
      } else {
        Bits(a, b);
        Bits(b, c);
        assert q == [q[0], q[1], q[2], PAD];
      }
    }
  }

  lemma {:induction false} EncodeOfDecode(e: Bytes)
    requires |e| % 4 == 0 && StrictDecode(e).Some?
    ensures AreBytes(StrictDecode(e).value) && Encode(StrictDecode(e).value) == e
    decreases |e|
  {
    hide Decode3, Encode3, DecodeLast, Encode1, Encode2;
    if |e| == 4 {
      LastQuantum(e);
    } else if e != [] {
      FullQuantum(e[..4]);
      EncodeOfDecode(e[4..]);
      var head, rest := Decode3(e[..4]).value, StrictDecode(e[4..]).value;
      assert (head + rest)[3..] == rest;
      assert e == e[..4] + e[4..];
    }
  }

  /** A text decodes to exactly those bytes whose encoding it is. */
  lemma {:induction false} DecodesExactly(e: Bytes, x: Bytes)
    requires |e| % 4 == 0
    ensures StrictDecode(e) == Some(x) <==> AreBytes(x) && e == Encode(x)
  {
    hide StrictDecode, Encode;
    if StrictDecode(e) == Some(x) { EncodeOfDecode(e); }
    if AreBytes(x) && e == Encode(x) { DecodeOfEncode(x); }
  }
}
