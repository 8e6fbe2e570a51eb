/**
  The parts of Go's `strings` and `strconv` packages that the annotations rely on.
 */
module Text {

  function Split(s: string, c: char): (parts: seq<string>)
    ensures |parts| >= 1
  {
    if s == "" then [""]
    else
      var rest := Split(s[1..], c);
      if s[0] == c then [""] + rest else [[s[0]] + rest[0]] + rest[1..]
  }

  function Join(fields: seq<string>, c: char): string
    requires fields != []
  {
    if |fields| == 1 then fields[0] else fields[0] + [c] + Join(fields[1..], c)
  }

  /** Every record followed by the separator. */
  function Terminated(records: seq<string>, c: char): string {
    if records == [] then "" else records[0] + [c] + Terminated(records[1..], c)
  }

  ghost predicate Free(s: string, cs: string) {
    forall c :: c in cs ==> c !in s
  }

  lemma {:induction false} SplitWhole(s: string, c: char)
    requires c !in s
    ensures Split(s, c) == [s]
  {
    if s != "" {
      SplitWhole(s[1..], c);
      assert [s[0]] + s[1..] == s;
    }
  }

  lemma {:induction false} SplitFirst(s: string, c: char, rest: string)
    requires c !in s
    ensures Split(s + [c] + rest, c) == [s] + Split(rest, c)
  {
    var t := s + [c] + rest;
    if s == "" {
      assert t[1..] == rest;
    } else {
      SplitFirst(s[1..], c, rest);
      assert t[1..] == s[1..] + [c] + rest;
      assert [s[0]] + s[1..] == s;
    }
  }

  /** Splitting undoes joining when no field contains the separator. */
  lemma {:induction false} SplitJoin(fields: seq<string>, c: char)
    requires fields != [] && forall f :: f in fields ==> c !in f
    ensures Split(Join(fields, c), c) == fields
  {
    if |fields| == 1 {
      SplitWhole(fields[0], c);
    } else {
      SplitJoin(fields[1..], c);
      SplitFirst(fields[0], c, Join(fields[1..], c));
    }
  }

  /** Terminated records split into the records and one empty remainder. */
  lemma {:induction false} SplitTerminated(records: seq<string>, c: char)
    requires forall r :: r in records ==> c !in r
    ensures Split(Terminated(records, c), c) == records + [""]
  {
    if records != [] {
      SplitTerminated(records[1..], c);
      SplitFirst(records[0], c, Terminated(records[1..], c));
    }
  }

  lemma {:induction false} TerminatedAppend(rs: seq<string>, ts: seq<string>, c: char)
    ensures Terminated(rs + ts, c) == Terminated(rs, c) + Terminated(ts, c)
  {
    if rs == [] {
      assert rs + ts == ts;
    } else {
      TerminatedAppend(rs[1..], ts, c);
      assert (rs + ts)[1..] == rs[1..] + ts;
    }
  }

  lemma TerminatedSnoc(rs: seq<string>, r: string, c: char)
    ensures Terminated(rs + [r], c) == Terminated(rs, c) + (r + [c])
  {
    TerminatedAppend(rs, [r], c);
    assert [r][1..] == [];
    assert Terminated([r], c) == r + [c];
  }

  /** A part never contains the separator, and holds no character the text did not hold. */
  lemma {:induction false} SplitParts(s: string, c: char, part: string, x: char)
    requires part in Split(s, c) && x in part
    ensures x != c && x in s
  {
    if s != "" {
      var rest := Split(s[1..], c);
      if part in rest {
        SplitParts(s[1..], c, part, x);
      } else {
        assert s[0] != c && part == [s[0]] + rest[0];
        if x != s[0] {
          SplitParts(s[1..], c, rest[0], x);
        }
      }
    }
  }

  lemma {:induction false} JoinFree(fields: seq<string>, c: char, x: char)
    requires fields != [] && x != c && forall f :: f in fields ==> x !in f
    ensures x !in Join(fields, c)
  {
    if |fields| > 1 {
      JoinFree(fields[1..], c, x);
    }
  }

  lemma {:induction false} TerminatedFree(records: seq<string>, c: char, x: char)
    requires x != c && forall r :: r in records ==> x !in r
    ensures x !in Terminated(records, c)
  {
    if records != [] {
      TerminatedFree(records[1..], c, x);
    }
  }

  // ---- numbers ----

  predicate IsDigit(c: char) {
    '0' <= c <= '9'
  }

  function Digit(d: nat): char
    requires d < 10
  {
    '0' + d as char
  }

  function Value(c: char): nat
    requires IsDigit(c)
  {
    (c - '0') as nat
  }

  function Decimal(n: nat): string {
    if n < 10 then [Digit(n)] else Decimal(n / 10) + [Digit(n % 10)]
  }

  function Itoa(n: int): string {
    if n < 0 then "-" + Decimal(-n) else Decimal(n)
  }

  predicate AllDigits(s: string) {
    forall i :: 0 <= i < |s| ==> IsDigit(s[i])
  }

  function ParseDecimal(s: string): nat
    requires AllDigits(s)
  {
    if s == "" then 0 else 10 * ParseDecimal(s[..|s| - 1]) + Value(s[|s| - 1])
  }

  function Clamp(n: int, lo: int, hi: int): int {
    if n < lo then lo else if n > hi then hi else n
  }

  /**
    `strconv.ParseInt` with base 10, as its callers here use it: the error is dropped, so
    malformed text reads as zero and a number out of range as the nearest bound.
   */
  function ParseInt(s: string, lo: int, hi: int): int {
    if s == "" then 0
    else
      var signed := s[0] == '-' || s[0] == '+';
      var digits := if signed then s[1..] else s;
      if digits == "" || !AllDigits(digits) then 0
      else Clamp(if s[0] == '-' then 0 - ParseDecimal(digits) else ParseDecimal(digits), lo, hi)
  }

  lemma {:induction false} DecimalRoundTrip(n: nat)
    ensures Decimal(n) != "" && AllDigits(Decimal(n))
    ensures ParseDecimal(Decimal(n)) == n
  {
    if n < 10 {
      assert [Digit(n)][..0] == "";
    } else {
      DecimalRoundTrip(n / 10);
      var s := Decimal(n);
      assert s[..|s| - 1] == Decimal(n / 10);
    }
  }

  /** A number that is written and read back comes to the nearest one in range. */
  lemma ItoaNearest(n: int, lo: int, hi: int)
    requires lo <= hi
    ensures ParseInt(Itoa(n), lo, hi) == if n < lo then lo else if n > hi then hi else n
  {
    if n < 0 {
      NegativeText(-n, lo, hi);
    } else {
      PlainText(n, lo, hi);
    }
  }

  lemma NegativeText(n: nat, lo: int, hi: int)
    ensures ParseInt("-" + Decimal(n), lo, hi) == Clamp(0 - n, lo, hi)
  {
    DecimalRoundTrip(n);
    assert ("-" + Decimal(n))[1..] == Decimal(n);
  }

  lemma PlainText(n: nat, lo: int, hi: int)
    ensures ParseInt(Decimal(n), lo, hi) == Clamp(n, lo, hi)
  {
    DecimalRoundTrip(n);
    assert IsDigit(Decimal(n)[0]);
  }

  /** A plus sign is read over, and anything but a sign and digits reads as zero. */
  lemma ReadsSigns(n: nat, s: string, lo: int, hi: int)
    requires lo <= n <= hi
    ensures ParseInt("+" + Decimal(n), lo, hi) == n
    ensures (exists i :: 1 <= i < |s| && !('0' <= s[i] <= '9')) ==> ParseInt(s, lo, hi) == 0
  {
    DecimalRoundTrip(n);
    assert ("+" + Decimal(n))[1..] == Decimal(n);
    if i :| 1 <= i < |s| && !('0' <= s[i] <= '9') {
      assert s[1..][i - 1] == s[i];
    }
  }

  /** A number in range survives being written and read back. */
  lemma ItoaRoundTrip(n: int, lo: int, hi: int)
    requires lo <= n <= hi
    ensures ParseInt(Itoa(n), lo, hi) == n
  {
    ItoaNearest(n, lo, hi);
  }

  lemma ItoaFree(n: int, c: char)
    requires c != '-' && !IsDigit(c)
    ensures c !in Itoa(n)
  {
    DecimalRoundTrip(if n < 0 then -n else n);
  }

  function FormatBool(b: bool): string {
    if b then "true" else "false"
  }

  predicate ParseBool(s: string) {
    s in ["1", "t", "T", "TRUE", "true", "True"]
  }

  /** The texts that read as true. */
  lemma ReadsBools(s: string)
    ensures ParseBool(s) <==> s == "1" || s == "t" || s == "T" || s == "TRUE" || s == "true" || s == "True"
  {
  }

  lemma BoolRoundTrip(b: bool)
    ensures ParseBool(FormatBool(b)) == b
    ensures Free(FormatBool(b), ",:;")
  {
  }

  // ---- the text itself ----

  const DIGITS := "0123456789"

  lemma DigitText(d: nat)
    requires d < 10
    ensures Digit(d) == DIGITS[d]
  {
    assert DIGITS == ['0', '1', '2', '3', '4', '5', '6', '7', '8', '9'];
    match d {
      case 0 | 1 | 2 | 3 | 4 =>
      case 5 | 6 | 7 | 8 | 9 =>
    }
  }

  /** Numbers are written in decimal, without leading zeros, a minus sign first. */
  lemma ItoaText(n: nat, d: nat)
    requires d < 10
    ensures Itoa(d) == [DIGITS[d]]
    ensures n > 0 ==> Itoa(10 * n + d) == Itoa(n) + [DIGITS[d]]
    ensures n > 0 ==> Itoa(0 - n) == "-" + Itoa(n)
  {
    DigitText(d);
    assert (10 * n + d) / 10 == n && (10 * n + d) % 10 == d;
  }

  /** How often a character occurs. */
  function Occurs(s: string, c: char): nat {
    if s == "" then 0 else Occurs(s[1..], c) + if s[0] == c then 1 else 0
  }

  lemma {:induction false} SplitCounts(s: string, c: char)
    ensures |Split(s, c)| == Occurs(s, c) + 1
    ensures c in s <==> Occurs(s, c) > 0
  {
    if s != "" {
      SplitCounts(s[1..], c);
      assert c in s <==> c == s[0] || c in s[1..];
    }
  }
}
