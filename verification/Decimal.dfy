/** Decimal numbers as `sprintf`, `std::to_string`, `strtoul` and `strtol` print and scan them. */
module Decimal {
  import opened Bytes

  const TWO_31 := 0x8000_0000
  const TWO_32 := 0x1_0000_0000
  const TWO_63 := 0x8000_0000_0000_0000
  const TWO_64 := 0x1_0000_0000_0000_0000

  predicate IsDigit(b: Byte) { 48 <= b <= 57 }

  predicate AllDigits(s: seq<Byte>) { forall k :: 0 <= k < |s| ==> IsDigit(s[k]) }

  /** `%lu`, `%u`. */
  function Print(n: nat): (s: seq<Byte>)
    ensures |s| >= 1 && AllDigits(s)
  {
    if n < 10 then [DIGIT_0 + n] else Print(n / 10) + [DIGIT_0 + n % 10]
  }

  /** The numeral denotes `n` and has no leading zero. */
  lemma {:induction false} PrintMeaning(n: nat)
    ensures NumeralValue(Print(n)) == n
    ensures |Print(n)| > 1 ==> Print(n)[0] != DIGIT_0
  {
    var s := Print(n);
    if n < 10 {
      assert s[..0] == [] && NumeralValue(s) == NumeralValue([]) * 10 + n;
    } else {
      PrintMeaning(n / 10);
      assert s[..|s| - 1] == Print(n / 10);
      assert |Print(n / 10)| == 1 ==> Print(n / 10)[..0] == [] && NumeralValue(Print(n / 10)) == Print(n / 10)[0] - 48;
    }
  }

  /** `%d`: a sign when negative. */
  function PrintInt(z: int): (s: seq<Byte>)
    ensures |s| >= 1 && forall k :: 0 <= k < |s| ==> s[k] != SEMICOLON && s[k] != NUL
  {
    if z < 0 then [MINUS] + Print(-z) else Print(z)
  }

  /** The number a run of decimal digits denotes. */
  function NumeralValue(s: seq<Byte>): int {
    if s == [] then 0 else
      var last: int := s[|s| - 1];
      NumeralValue(s[..|s| - 1]) * 10 + (last - 48)
  }

  function Pow10(k: nat): (p: nat)
    ensures p >= 1
  {
    if k == 0 then 1 else 10 * Pow10(k - 1)
  }

  /** A numeral fits `k` digits exactly when the number is below the k-th power of ten. */
  lemma {:induction false} PrintLength(n: nat, k: nat)
    requires k >= 1
    ensures |Print(n)| <= k <==> n < Pow10(k)
  {
    if k == 1 {
      assert Pow10(1) == 10 * Pow10(0);
    } else if n >= 10 {
      PrintLength(n / 10, k - 1);
      assert n < 10 * Pow10(k - 1) <==> n / 10 < Pow10(k - 1);
    } else {
      assert Pow10(k) == 10 * Pow10(k - 1);
    }
  }

  // ---- scanning: a `char*` is the bytes from its address on ---------------------------------

  predicate IsSpace(b: Byte) { b == 32 || 9 <= b <= 13 }

  function SkipSpace(s: seq<Byte>): (r: seq<Byte>)
    ensures |r| <= |s|
  {
    if s != [] && IsSpace(s[0]) then SkipSpace(s[1..]) else s
  }

  /** How many digits the longest run at the front has. */
  function DigitCount(s: seq<Byte>): (n: nat)
    ensures n <= |s|
  {
    if s != [] && IsDigit(s[0]) then 1 + DigitCount(s[1..]) else 0
  }

  lemma {:induction false} DigitCountOfRun(d: seq<Byte>, t: seq<Byte>)
    requires AllDigits(d)
    requires t == [] || !IsDigit(t[0])
    ensures DigitCount(d + t) == |d|
  {
    if d != [] {
      assert (d + t)[1..] == d[1..] + t;
      DigitCountOfRun(d[1..], t);
    } else {
      assert d + t == t;
    }
  }

  /** What follows spaces and a sign. */
  function Unsigned(s: seq<Byte>): (u: seq<Byte>)
    ensures |u| <= |s|
  {
    var t := SkipSpace(s);
    if t != [] && t[0] in {MINUS, PLUS} then t[1..] else t
  }

  /** The scan stops at a byte of `s`: it looks at nothing behind. */
  predicate ScanStays(s: seq<Byte>) {
    DigitCount(Unsigned(s)) < |Unsigned(s)|
  }

  /** The signed numeral at the front: its value and what follows it, or 0 and `s` itself when
      there is none. */
  function Scan(s: seq<Byte>): (r: (int, seq<Byte>))
    ensures |r.1| <= |s| && (ScanStays(s) ==> r.1 != [])
  {
    var t := SkipSpace(s);
    var neg := t != [] && t[0] == MINUS;
    var u := Unsigned(s);
    var n := DigitCount(u);
    if n == 0 then (0, s) else (if neg then -NumeralValue(u[..n]) else NumeralValue(u[..n]), u[n..])
  }

  /** `strtoul(s, nullptr, 10)` for a 64-bit `unsigned long`: out of range saturates and
      a minus sign negates modulo 2^64. */
  function Strtoul(s: seq<Byte>): (v: nat)
    ensures v < TWO_64
  {
    var z := Scan(s).0;
    if z >= TWO_64 || z <= -TWO_64 then TWO_64 - 1 else if z < 0 then z + TWO_64 else z
  }

  /** `strtol(s, nullptr, 10)` for a 64-bit `long`. */
  function Strtol(s: seq<Byte>): (v: int)
    ensures -TWO_63 <= v < TWO_63
  {
    var z := Scan(s).0;
    if z >= TWO_63 then TWO_63 - 1 else if z < -TWO_63 then -TWO_63 else z
  }

  /** Conversion to `unsigned int`. */
  function ToUint32(v: int): (r: nat)
    ensures r < TWO_32
    ensures 0 <= v < TWO_32 ==> r == v
  {
    v % TWO_32
  }

  /** Conversion to `int` (two's complement). */
  function ToInt32(v: int): (r: int)
    ensures -TWO_31 <= r < TWO_31
    ensures -TWO_31 <= v < TWO_31 ==> r == v
    ensures TWO_64 - TWO_31 <= v < TWO_64 ==> r == v - TWO_64
  {
    var m := v % TWO_32;
    if m >= TWO_31 then m - TWO_32 else m
  }

  lemma ScanDigits(d: seq<Byte>, t: seq<Byte>)
    requires d != [] && AllDigits(d)
    requires t != [] && !IsDigit(t[0])
    ensures Scan(d + t) == (NumeralValue(d), t) && ScanStays(d + t)
  {
    DigitCountOfRun(d, t);
    assert (d + t)[0] == d[0] && (d + t)[..|d|] == d && (d + t)[|d|..] == t;
  }

  lemma ScanMinusDigits(d: seq<Byte>, t: seq<Byte>)
    requires d != [] && AllDigits(d)
    requires t != [] && !IsDigit(t[0])
    ensures Scan([MINUS] + (d + t)) == (-NumeralValue(d), t) && ScanStays([MINUS] + (d + t))
  {
    DigitCountOfRun(d, t);
    assert ([MINUS] + (d + t))[1..] == d + t && (d + t)[..|d|] == d && (d + t)[|d|..] == t;
  }

  /** A printed integer followed by a byte that is no digit scans back to itself, and the scan
      stops right behind it. */
  lemma ScanPrinted(z: int, t: seq<Byte>)
    requires t != [] && !IsDigit(t[0])
    ensures Scan(PrintInt(z) + t) == (z, t) && ScanStays(PrintInt(z) + t)
  {
    var n := if z < 0 then -z else z;
    PrintMeaning(n);
    if z < 0 {
      ScanMinusDigits(Print(n), t);
      assert [MINUS] + Print(n) + t == [MINUS] + (Print(n) + t);
    } else {
      ScanDigits(Print(n), t);
    }
  }

  /** What the scanners of libc make of any printed integer: in range its value, for `strtoul` modulo
      2^64 below zero, and saturated beyond. */
  lemma ScannedNumber(z: int, t: seq<Byte>)
    requires t != [] && !IsDigit(t[0])
    ensures 0 <= z < 0x1_0000_0000_0000_0000 ==> Strtoul(PrintInt(z) + t) == z
    ensures -0x1_0000_0000_0000_0000 < z < 0 ==> Strtoul(PrintInt(z) + t) == 0x1_0000_0000_0000_0000 + z
    ensures z <= -0x1_0000_0000_0000_0000 || z >= 0x1_0000_0000_0000_0000 ==>
      Strtoul(PrintInt(z) + t) == 0xFFFF_FFFF_FFFF_FFFF
    ensures -0x8000_0000_0000_0000 <= z < 0x8000_0000_0000_0000 ==> Strtol(PrintInt(z) + t) == z
    ensures z >= 0x8000_0000_0000_0000 ==> Strtol(PrintInt(z) + t) == 0x7FFF_FFFF_FFFF_FFFF
    ensures z < -0x8000_0000_0000_0000 ==> Strtol(PrintInt(z) + t) == -0x8000_0000_0000_0000
  {
    ScanPrinted(z, t);
  }

  /** Spaces and a plus sign in front change nothing. */
  lemma {:induction false} ScanSkips(spaces: seq<Byte>, n: nat, t: seq<Byte>)
    requires forall k :: 0 <= k < |spaces| ==> spaces[k] == 32 || 9 <= spaces[k] <= 13
    requires t != [] && !IsDigit(t[0])
    ensures Scan(spaces + (Print(n) + t)) == (n, t) && Scan(spaces + ([PLUS] + (Print(n) + t))) == (n, t)
  {
    SkipsSpaces(spaces, Print(n) + t);
    SkipsSpaces(spaces, [PLUS] + (Print(n) + t));
    PrintMeaning(n);
    DigitCountOfRun(Print(n), t);
    assert ([PLUS] + (Print(n) + t))[1..] == Print(n) + t;
    assert (Print(n) + t)[..|Print(n)|] == Print(n) && (Print(n) + t)[|Print(n)|..] == t;
  }

  lemma {:induction false} SkipsSpaces(spaces: seq<Byte>, t: seq<Byte>)
    requires forall k :: 0 <= k < |spaces| ==> IsSpace(spaces[k])
    requires t != [] && !IsSpace(t[0])
    ensures SkipSpace(spaces + t) == t
  {
    if spaces == [] {
      assert spaces + t == t;
    } else {
      assert (spaces + t)[1..] == spaces[1..] + t;
      SkipsSpaces(spaces[1..], t);
    }
  }

  /** Printing loses nothing: different numbers have different numerals. */
  lemma PrintInjective(m: nat, n: nat)
    requires Print(m) == Print(n)
    ensures m == n
  {
    PrintMeaning(m);
    PrintMeaning(n);
  }
}
