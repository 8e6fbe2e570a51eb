/**
  Hexadecimal text as its readers mean it: which numeral stands for which number, and which
  unit of a mask it sets. Nothing here depends on how the masks are read or written.
 */
module Numerals {

  const LOWER := "0123456789abcdef"
  const UPPER := "0123456789ABCDEF"

  /** The character is the numeral for `v`. */
  predicate Numeral(c: char, v: nat) {
    v < 16 && (c == LOWER[v] || c == UPPER[v])
  }

  /** The text consists of lower-case numerals. */
  ghost predicate IsLower(text: string) {
    forall i :: 0 <= i < |text| ==> text[i] in LOWER
  }

  function Power(k: nat): (p: nat)
    ensures p >= 1
  {
    if k == 0 then 1 else 2 * Power(k - 1)
  }

  /** The `j`-th bit of a numeral, the most significant one first. */
  ghost predicate SetBit(c: char, j: nat)
    requires j < 4
  {
    exists v: nat :: Numeral(c, v) && v / Power(3 - j) % 2 == 1
  }

  /** Unit `u` of a mask: each numeral stands for four units. */
  ghost predicate SetUnit(text: string, u: nat) {
    u / 4 < |text| && SetBit(text[u / 4], u % 4)
  }

  /** The units before `u` that are not set. */
  ghost function FreeBefore(text: string, u: nat): set<nat> {
    set x: nat | x < u && !SetUnit(text, x)
  }

  lemma LowerAt(v: nat)
    requires v < 16
    ensures LOWER[v] == if v < 10 then '0' + v as char else 'a' + (v - 10) as char
  {
    match v {
      case 0 | 1 | 2 | 3 | 4 | 5 | 6 | 7 =>
      case 8 | 9 | 10 | 11 | 12 | 13 | 14 | 15 =>
    }
  }

  lemma UpperAt(v: nat)
    requires v < 16
    ensures UPPER[v] == if v < 10 then '0' + v as char else 'A' + (v - 10) as char
  {
    match v {
      case 0 | 1 | 2 | 3 | 4 | 5 | 6 | 7 =>
      case 8 | 9 | 10 | 11 | 12 | 13 | 14 | 15 =>
    }
  }
}
