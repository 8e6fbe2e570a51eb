/**
  The compute-unit masks of a DCU card: strings of hexadecimal digits, most significant
  unit first, read here as flat sequences of bits.
 */
module CoreMask {
  import opened Numerals

  type Bits = seq<bool>

  // ---- hexadecimal digits ----

  predicate IsHex(c: char) {
    '0' <= c <= '9' || 'a' <= c <= 'f' || 'A' <= c <= 'F'
  }

  predicate IsMask(mask: string) {
    forall i :: 0 <= i < |mask| ==> IsHex(mask[i])
  }

  /** A character that is not a digit reads as zero. */
  function HexVal(c: char): (v: nat)
    ensures v < 16
  {
    if '0' <= c <= '9' then (c - '0') as nat
    else if 'a' <= c <= 'f' then 10 + (c - 'a') as nat
    else if 'A' <= c <= 'F' then 10 + (c - 'A') as nat
    else 0
  }

  function HexDigit(v: nat): (c: char)
    requires v < 16
    ensures IsHex(c) && HexVal(c) == v
  {
    if v < 10 then '0' + v as char else 'a' + (v - 10) as char
  }

  function Nibble(v: nat): (b: Bits)
    requires v < 16
    ensures |b| == 4
  {
    [v / 8 % 2 == 1, v / 4 % 2 == 1, v / 2 % 2 == 1, v % 2 == 1]
  }

  function Number(b: Bits): nat {
    if b == [] then 0 else 2 * Number(b[..|b| - 1]) + if b[|b| - 1] then 1 else 0
  }

  lemma {:induction false} NumberOfFour(b: Bits)
    requires |b| == 4
    ensures Number(b) == 8 * Bit(b[0]) + 4 * Bit(b[1]) + 2 * Bit(b[2]) + Bit(b[3])
  {
    assert b[..3][..2] == b[..2] && b[..2][..1] == b[..1] && b[..1][..0] == [];
    assert Number(b[..1]) == if b[0] then 1 else 0;
    assert Number(b[..2]) == 2 * Number(b[..1]) + if b[1] then 1 else 0;
    assert Number(b[..3]) == 2 * Number(b[..2]) + if b[2] then 1 else 0;
  }

  lemma {:induction false} NibbleOfNumber(b: Bits)
    requires |b| == 4
    ensures Number(b) < 16 && Nibble(Number(b)) == b
  {
    NumberOfFour(b);
  }

  /** The units of a mask. */
  function Units(mask: string): Bits {
    if mask == "" then [] else Units(mask[..|mask| - 1]) + Nibble(HexVal(mask[|mask| - 1]))
  }

  lemma UnitsSnoc(mask: string, c: char)
    ensures Units(mask + [c]) == Units(mask) + Nibble(HexVal(c))
  {
  }

  lemma {:induction false} UnitsLength(mask: string)
    ensures |Units(mask)| == 4 * |mask|
  {
    if mask != "" {
      UnitsLength(mask[..|mask| - 1]);
    }
  }

  // ---- bits ----

  function Bit(x: bool): nat {
    if x then 1 else 0
  }

  /** How many units are set. */
  function Count(b: Bits): nat {
    if b == [] then 0 else Count(b[..|b| - 1]) + Bit(b[|b| - 1])
  }

  /** How many units are not set. */
  function Free(b: Bits): nat {
    if b == [] then 0 else Free(b[..|b| - 1]) + Bit(!b[|b| - 1])
  }

  function Or(a: Bits, b: Bits): (r: Bits)
    requires |a| == |b|
    ensures |r| == |a|
    ensures forall i :: 0 <= i < |a| ==> r[i] == (a[i] || b[i])
  {
    seq(|a|, i requires 0 <= i < |a| => a[i] || b[i])
  }

  ghost predicate Disjoint(a: Bits, b: Bits) {
    |a| == |b| && forall i :: 0 <= i < |a| ==> !(a[i] && b[i])
  }

  /** The first `n` free units: a free unit is taken when fewer than `n` free units precede it. */
  function TakeFree(b: Bits, n: int): (r: Bits)
    ensures |r| == |b|
  {
    seq(|b|, i requires 0 <= i < |b| => !b[i] && Free(b[..i]) < n)
  }

  lemma {:induction false} FreeAppend(a: Bits, b: Bits)
    ensures Free(a + b) == Free(a) + Free(b)
    decreases |b|
  {
    if b == [] {
      assert a + b == a;
    } else {
      assert (a + b)[..|a + b| - 1] == a + b[..|b| - 1];
      FreeAppend(a, b[..|b| - 1]);
    }
  }

  lemma TakeAt(b: Bits, n: int, i: nat)
    requires i < |b|
    ensures TakeFree(b, n)[i] == (!b[i] && Free(b[..i]) < n)
  {
  }

  lemma TakenInFirst(a: Bits, b: Bits, n: int, i: nat)
    requires i < |a|
    ensures TakeFree(a + b, n)[i] == TakeFree(a, n)[i]
  {
    assert (a + b)[..i] == a[..i];
  }

  /** Whether a unit is taken depends on the unit and on the free units before it. */
  lemma TakenAlike(b: Bits, i: nat, n: int, c: Bits, j: nat, m: int)
    requires i < |b| && j < |c| && b[i] == c[j]
    requires n - Free(b[..i]) == m - Free(c[..j])
    ensures TakeFree(b, n)[i] == TakeFree(c, m)[j]
  {
  }

  lemma {:induction false} TakenInSecond(a: Bits, b: Bits, n: int, j: nat)
    requires j < |b|
    ensures TakeFree(a + b, n)[|a| + j] == TakeFree(b, n - Free(a))[j]
  {
    var whole, i := a + b, |a| + j;
    assert Free(whole[..i]) == Free(a) + Free(b[..j]) by {
      assert whole[..i] == a + b[..j];
      FreeAppend(a, b[..j]);
    }
    TakenAlike(whole, i, n, b, j, n - Free(a));
  }

  /** Taking from a concatenation: the free units of the first part come first. */
  lemma TakeFreeAppend(a: Bits, b: Bits, n: int)
    ensures TakeFree(a + b, n) == TakeFree(a, n) + TakeFree(b, n - Free(a))
  {
    var whole, first, second := TakeFree(a + b, n), TakeFree(a, n), TakeFree(b, n - Free(a));
    forall i | 0 <= i < |a|
      ensures whole[i] == first[i]
    {
      TakenInFirst(a, b, n, i);
    }
    forall j | 0 <= j < |b|
      ensures whole[|a| + j] == second[j]
    {
      TakenInSecond(a, b, n, j);
    }
    SameParts(whole, first, second);
  }

  lemma SameParts(whole: Bits, first: Bits, second: Bits)
    requires |whole| == |first| + |second|
    requires forall i :: 0 <= i < |first| ==> whole[i] == first[i]
    requires forall j :: 0 <= j < |second| ==> whole[|first| + j] == second[j]
    ensures whole == first + second
  {
  }

  /** What is left of a request after `free` units were met. */
  function Left(n: int, free: nat): int {
    if n > free then n - free else Min(n, 0)
  }

  function Min(a: int, b: int): int {
    if a < b then a else b
  }

  lemma LeftTwice(n: int, f: nat, g: nat)
    ensures Left(Left(n, f), g) == Left(n, f + g)
  {
  }

  lemma TakeLeft(b: Bits, n: int, free: nat)
    ensures TakeFree(b, Left(n, free)) == TakeFree(b, n - free)
  {
  }

  lemma {:induction false} CountAndFree(b: Bits)
    ensures Count(b) + Free(b) == |b|
  {
    if b != [] {
      CountAndFree(b[..|b| - 1]);
    }
  }

  /** The grant avoids all set units. */
  lemma TakeFreeAvoids(b: Bits, n: int)
    ensures Disjoint(b, TakeFree(b, n))
  {
  }

  /** The grant has exactly the requested size, or all that is free. */
  lemma {:induction false} TakeFreeCount(b: Bits, n: nat)
    ensures Count(TakeFree(b, n)) == Min(n, Free(b))
    decreases |b|
  {
    if b != [] {
      var k := |b| - 1;
      TakeFreeCount(b[..k], n);
      assert forall i :: 0 <= i < k ==> b[..k][..i] == b[..i];
      assert TakeFree(b, n)[..k] == TakeFree(b[..k], n);
    }
  }

  lemma {:induction false} FreePrefix(b: Bits, i: nat, j: nat)
    requires i <= j <= |b|
    ensures Free(b[..i]) <= Free(b[..j])
    decreases j
  {
    if i < j {
      FreePrefix(b, i, j - 1);
      assert b[..j][..j - 1] == b[..j - 1];
    }
  }

  /** No free unit lies before one that is taken. */
  lemma TakeFreeFirst(b: Bits, n: int, i: nat, j: nat)
    requires i < j < |b| && TakeFree(b, n)[j] && !b[i]
    ensures TakeFree(b, n)[i]
  {
    FreePrefix(b, i, j);
  }

  /** Joining disjoint masks adds their sizes. */
  lemma {:induction false} CountOr(a: Bits, b: Bits)
    requires Disjoint(a, b)
    ensures Count(Or(a, b)) == Count(a) + Count(b)
    decreases |a|
  {
    if a != [] {
      var k := |a| - 1;
      CountOr(a[..k], b[..k]);
      assert Or(a, b)[..k] == Or(a[..k], b[..k]);
    }
  }

  lemma OrAppend(a: Bits, b: Bits, c: Bits, d: Bits)
    requires |a| == |b| && |c| == |d|
    ensures Or(a + c, b + d) == Or(a, b) + Or(c, d)
  {
  }

  // ---- the text of a mask ----

  /** The numerals are read as the numbers they stand for, and written in lower case; anything else reads as zero. */
  lemma ReadsNumerals(c: char, v: nat)
    requires v < 16
    ensures Numeral(c, v) ==> HexVal(c) == v
    ensures HexDigit(v) == LOWER[v]
    ensures IsHex(c) ==> Numeral(c, HexVal(c))
    ensures !IsHex(c) ==> HexVal(c) == 0 && !Numeral(c, v)
  {
    LowerAt(v);
    UpperAt(v);
    LowerAt(HexVal(c));
    UpperAt(HexVal(c));
  }

  lemma NibbleBit(v: nat, j: nat)
    requires v < 16 && j < 4
    ensures Nibble(v)[j] == (v / Power(3 - j) % 2 == 1)
  {
    assert Power(0) == 1 && Power(1) == 2 && Power(2) == 4 && Power(3) == 8;
  }

  lemma {:induction false} UnitAt(mask: string, i: nat, j: nat)
    requires i < |mask| && j < 4
    ensures |Units(mask)| == 4 * |mask| && Units(mask)[4 * i + j] == Nibble(HexVal(mask[i]))[j]
    decreases |mask|
  {
    var n := |mask| - 1;
    var before, digit := Units(mask[..n]), Nibble(HexVal(mask[n]));
    UnitsLength(mask[..n]);
    assert Units(mask) == before + digit;
    var u := 4 * i + j;
    if i < n {
      UnitAt(mask[..n], i, j);
      assert u < |before| && (before + digit)[u] == before[u];
    } else {
      assert u == |before| + j && (before + digit)[u] == digit[j];
    }
  }

  lemma DigitBit(c: char, j: nat)
    requires j < 4
    ensures Nibble(HexVal(c))[j] <==> SetBit(c, j)
  {
    var v := HexVal(c);
    NibbleBit(v, j);
    ReadsNumerals(c, v);
    if w: nat :| Numeral(c, w) && w / Power(3 - j) % 2 == 1 {
      ReadsNumerals(c, w);
    }
    if !IsHex(c) {
      ZeroBits(j);
    }
  }

  lemma ZeroBits(j: nat)
    requires j < 4
    ensures !Nibble(0)[j]
  {
  }

  /** What the units of a mask are, in terms of its text. */
  lemma UnitIsBit(mask: string, u: nat)
    requires u < 4 * |mask|
    ensures |Units(mask)| == 4 * |mask| && (Units(mask)[u] <==> SetUnit(mask, u))
  {
    UnitAt(mask, u / 4, u % 4);
    DigitBit(mask[u / 4], u % 4);
  }

  /** The free units are counted one by one. */
  lemma {:induction false} FreeCounts(mask: string, u: nat)
    requires u <= 4 * |mask| == |Units(mask)|
    ensures Free(Units(mask)[..u]) == |FreeBefore(mask, u)|
    decreases u
  {
    var b := Units(mask);
    if u == 0 {
      assert FreeBefore(mask, 0) == {};
    } else {
      FreeCounts(mask, u - 1);
      assert b[..u][..u - 1] == b[..u - 1];
      UnitIsBit(mask, u - 1);
      FreeBeforeStep(mask, u - 1);
    }
  }

  lemma FreeBeforeStep(mask: string, u: nat)
    ensures |FreeBefore(mask, u + 1)| == |FreeBefore(mask, u)| + if SetUnit(mask, u) then 0 else 1
  {
    var here := if SetUnit(mask, u) then {} else {u};
    assert FreeBefore(mask, u + 1) == FreeBefore(mask, u) + here;
  }

  /** The joined mask, unit by unit. */
  lemma JoinedText(a: string, b: string, res: string)
    requires |res| == |a| <= |b|
    requires |Units(a)| == |Units(b[..|res|])| && Units(res) == Or(Units(a), Units(b[..|res|]))
    ensures forall u: nat :: u < 4 * |res| ==> (SetUnit(res, u) <==> SetUnit(a, u) || SetUnit(b, u))
  {
    forall u: nat | u < 4 * |res|
      ensures SetUnit(res, u) <==> SetUnit(a, u) || SetUnit(b, u)
    {
      UnitIsBit(res, u);
      UnitIsBit(a, u);
      UnitIsBit(b[..|res|], u);
      assert b[..|res|][u / 4] == b[u / 4];
    }
  }

  /** The granted mask, unit by unit. */
  lemma GrantedText(mask: string, req: int, res: string)
    requires |res| == |mask| && Units(res) == TakeFree(Units(mask), req)
    ensures forall u: nat :: u < 4 * |res| ==>
      (SetUnit(res, u) <==> !SetUnit(mask, u) && |FreeBefore(mask, u)| < req)
  {
    UnitsLength(mask);
    forall u: nat | u < 4 * |res|
      ensures SetUnit(res, u) <==> !SetUnit(mask, u) && |FreeBefore(mask, u)| < req
    {
      UnitIsBit(res, u);
      UnitIsBit(mask, u);
      FreeCounts(mask, u);
    }
  }

  lemma LowerSnoc(res: string, v: nat)
    requires v < 16 && IsLower(res)
    ensures IsLower(res + [HexDigit(v)])
  {
    ReadsNumerals('0', v);
  }

  // ---- the operations on masks ----

  function Zeros(n: nat): Bits {
    seq(n, _ => false)
  }

  /** One digit per four units: a count that is not a multiple of four loses the remainder. */
  method InitCoreUsage(req: nat) returns (res: string)
    ensures |res| == req / 4 && IsMask(res) && Units(res) == Zeros(4 * (req / 4))
    ensures forall i :: 0 <= i < |res| ==> res[i] == '0'
  {
    res := "";
    var i := 0;
    while i < req / 4
      invariant i <= req / 4 && |res| == i && IsMask(res) && Units(res) == Zeros(4 * i)
      invariant forall j :: 0 <= j < |res| ==> res[j] == '0'
    {
      UnitsSnoc(res, '0');
      assert Zeros(4 * (i + 1)) == Zeros(4 * i) + Nibble(0);
      res := res + "0";
      i := i + 1;
    }
  }

  function OrDigits(left: nat, right: nat): (v: nat)
    requires left < 16 && right < 16
    ensures v < 16 && Nibble(v) == Or(Nibble(left), Nibble(right))
  {
    NibbleOfNumber(Or(Nibble(left), Nibble(right)));
    Number(Or(Nibble(left), Nibble(right)))
  }

  lemma AddDigit(tot: string, c: string, i: nat, res: string, merged: nat)
    requires i < |tot| && i < |c| && merged == OrDigits(HexVal(tot[i]), HexVal(c[i]))
    requires |Units(tot[..i])| == |Units(c[..i])| && Units(res) == Or(Units(tot[..i]), Units(c[..i]))
    ensures |Units(tot[..i + 1])| == |Units(c[..i + 1])| == |Units(tot[..i])| + 4
    ensures Units(res + [HexDigit(merged)]) == Or(Units(tot[..i + 1]), Units(c[..i + 1]))
  {
    assert tot[..i + 1] == tot[..i] + [tot[i]] && c[..i + 1] == c[..i] + [c[i]];
    UnitsSnoc(tot[..i], tot[i]);
    UnitsSnoc(c[..i], c[i]);
    UnitsSnoc(res, HexDigit(merged));
    OrAppend(Units(tot[..i]), Units(c[..i]), Nibble(HexVal(tot[i])), Nibble(HexVal(c[i])));
  }

  /** The text before the first NUL, where reading stops. */
  function Written(tot: string): (w: string)
    ensures |w| <= |tot| && w == tot[..|w|]
    ensures '\0' !in w && (|w| < |tot| ==> tot[|w|] == '\0')
  {
    if tot == "" || tot[0] == '\0' then "" else [tot[0]] + Written(tot[1..])
  }

  lemma {:induction false} WrittenStep(tot: string, i: nat)
    requires i <= |Written(tot)|
    ensures i < |Written(tot)| <==> i < |tot| && tot[i] != '\0'
    decreases i
  {
    if i > 0 {
      WrittenStep(tot[1..], i - 1);
    }
  }

  lemma MaskIsWritten(mask: string)
    requires IsMask(mask)
    ensures Written(mask) == mask
  {
    WrittenStep(mask, |Written(mask)|);
  }

  /** The union of two masks, as far as the first one is written; a shorter second one panics. */
  method AddCoreUsage(tot: string, c: string) returns (panicked: bool, res: string)
    ensures panicked <==> |c| < |Written(tot)|
    ensures !panicked ==> |res| == |Written(tot)| && IsMask(res)
    ensures !panicked ==> |Units(Written(tot))| == |Units(c[..|res|])|
    ensures !panicked ==> Units(res) == Or(Units(Written(tot)), Units(c[..|res|]))
    ensures !panicked ==> IsLower(res) && forall u: nat :: u < 4 * |res| ==>
      (SetUnit(res, u) <==> SetUnit(Written(tot), u) || SetUnit(c, u))
  {
    res := "";
    var i := 0;
    while i < |tot| && tot[i] != '\0'
      invariant 0 <= i <= |Written(tot)| && i <= |c| && |res| == i && IsMask(res)
      invariant |Units(tot[..i])| == |Units(c[..i])| == 4 * i
      invariant Units(res) == Or(Units(tot[..i]), Units(c[..i])) && IsLower(res)
    {
      WrittenStep(tot, i);
      if i >= |c| {
        return true, res;
      }
      var merged := OrDigits(HexVal(tot[i]), HexVal(c[i]));
      AddDigit(tot, c, i, res, merged);
      LowerSnoc(res, merged);
      res := res + [HexDigit(merged)];
      i := i + 1;
    }
    WrittenStep(tot, i);
    JoinedText(Written(tot), c, res);
    panicked := false;
  }

  method ByteAlloc(b: nat, req: int) returns (res: nat, remains: int)
    requires b < 16
    ensures res < 16 && Nibble(res) == TakeFree(Nibble(b), req)
    ensures remains == Left(req, Free(Nibble(b)))
  {
    var left := Nibble(b);
    ghost var taken := TakeFree(left, req);
    NibbleOfNumber(taken);
    if req == 0 {
      NumberOfFour(taken);
      return 0, 0;
    }
    remains := req;
    res := 0;
    for i := 0 to |left|
      invariant res == Number(taken[..i])
      invariant remains == Left(req, Free(left[..i]))
    {
      assert left[..i + 1][..i] == left[..i] && taken[..i + 1][..i] == taken[..i];
      res := res * 2;
      if !left[i] && remains > 0 {
        remains := remains - 1;
        res := res + 1;
      }
    }
    assert left[..4] == left && taken[..4] == taken;
  }

  lemma AllocDigit(tot: string, i: nat, req: int, res: string, alloc: nat)
    requires i < |tot| && alloc < 16 && Units(res) == TakeFree(Units(tot[..i]), req)
    requires Nibble(alloc) == TakeFree(Nibble(HexVal(tot[i])), Left(req, Free(Units(tot[..i]))))
    ensures Units(res + [HexDigit(alloc)]) == TakeFree(Units(tot[..i + 1]), req)
    ensures Free(Units(tot[..i + 1])) == Free(Units(tot[..i])) + Free(Nibble(HexVal(tot[i])))
  {
    var before, digit := Units(tot[..i]), Nibble(HexVal(tot[i]));
    assert Units(tot[..i + 1]) == before + digit by {
      assert tot[..i + 1] == tot[..i] + [tot[i]];
      UnitsSnoc(tot[..i], tot[i]);
    }
    assert TakeFree(before + digit, req) == TakeFree(before, req) + Nibble(alloc) by {
      TakeFreeAppend(before, digit, req);
      TakeLeft(digit, req, Free(before));
    }
    assert Free(before + digit) == Free(before) + Free(digit) by {
      FreeAppend(before, digit);
    }
    UnitsSnoc(res, HexDigit(alloc));
  }

  /** The mask allocator refines "take the first free units". */
  method AllocCoreUsage(tot: string, req: int) returns (res: string)
    ensures |res| == |Written(tot)| && IsMask(res) && IsLower(res)
    ensures Units(res) == TakeFree(Units(Written(tot)), req)
    ensures forall u: nat :: u < 4 * |res| ==>
      (SetUnit(res, u) <==> !SetUnit(Written(tot), u) && |FreeBefore(Written(tot), u)| < req)
  {
    res := "";
    var remains := req;
    var i := 0;
    while i < |tot| && tot[i] != '\0'
      invariant 0 <= i <= |Written(tot)| && |res| == i && IsMask(res)
      invariant Units(res) == TakeFree(Units(tot[..i]), req) && IsLower(res)
      invariant remains == Left(req, Free(Units(tot[..i])))
    {
      WrittenStep(tot, i);
      var left := HexVal(tot[i]);
      var alloc, rest := ByteAlloc(left, remains);
      AllocDigit(tot, i, req, res, alloc);
      LowerSnoc(res, alloc);
      LeftTwice(req, Free(Units(tot[..i])), Free(Nibble(left)));
      remains := rest;
      res := res + [HexDigit(alloc)];
      i := i + 1;
    }
    WrittenStep(tot, i);
    GrantedText(Written(tot), req, res);
  }

  // ---- the units determine the text ----

  lemma NibbleValue(v: nat, w: nat)
    requires v < 16 && w < 16 && Nibble(v) == Nibble(w)
    ensures v == w
  {
    NumberOfFour(Nibble(v));
  }

  lemma SameNibble(a: string, b: string, i: nat)
    requires |a| == |b| && Units(a) == Units(b) && i < |a|
    ensures HexVal(a[i]) == HexVal(b[i])
  {
    var x, y := Nibble(HexVal(a[i])), Nibble(HexVal(b[i]));
    forall j: nat | j < 4
      ensures x[j] == y[j]
    {
      UnitAt(a, i, j);
      UnitAt(b, i, j);
    }
    NibbleValue(HexVal(a[i]), HexVal(b[i]));
  }

  lemma LowerDigit(c: char)
    requires c in LOWER
    ensures c == HexDigit(HexVal(c))
  {
    var v: nat :| v < |LOWER| && LOWER[v] == c;
    ReadsNumerals(c, v);
  }

  /** Two lower-case masks with the same units are the same text. */
  lemma UnitsDetermineText(a: string, b: string)
    requires IsLower(a) && IsLower(b) && |a| == |b| && Units(a) == Units(b)
    ensures a == b
  {
    forall i | 0 <= i < |a|
      ensures a[i] == b[i]
    {
      SameNibble(a, b, i);
      LowerDigit(a[i]);
      LowerDigit(b[i]);
    }
  }
}
