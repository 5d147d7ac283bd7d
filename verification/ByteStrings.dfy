/** Byte strings, and the small byte tests that several files of the repository share. */
module ByteStrings {
  type Bytes = seq<int>

  predicate AreBytes(s: Bytes) {
    forall i | 0 <= i < |s| :: 0 <= s[i] < 0x100
  }

  predicate IsDigit(b: int) {
    0x30 <= b <= 0x39
  }

  predicate AllDigits(s: Bytes) {
    forall i | 0 <= i < |s| :: IsDigit(s[i])
  }

  predicate IsHexDigit(b: int) {
    IsDigit(b) || 0x41 <= b <= 0x46 || 0x61 <= b <= 0x66
  }

  /** The number a hexadecimal digit stands for. */
  function HexValue(b: int): int {
    if IsDigit(b) then b - 0x30 else if b >= 0x61 then b - 0x61 + 10 else b - 0x41 + 10
  }

  function LowerHex(n: int): int {
    if n < 10 then 0x30 + n else 0x61 + n - 10
  }

  function UpperHex(n: int): int {
    if n < 10 then 0x30 + n else 0x41 + n - 10
  }

  /** Space, and the five controls from TAB to CR. */
  predicate IsAsciiSpace(b: int) {
    b == 0x20 || 9 <= b <= 13
  }
}
