/** Calendar dates as the application stores them: `YYYY-MM-DD` strings.
    Buckets are sorted by the instant each string denotes; this module gives
    that order as a number (`DateKey`) and proves that it agrees with the
    plain lexicographic order of the strings. */
module Dates {

  predicate IsDigit(c: char) {
    '0' <= c <= '9'
  }

  function DigitValue(c: char): (v: nat)
    requires IsDigit(c)
    ensures v < 10
  {
    (c as int) - ('0' as int)
  }

  predicate AllDigits(s: string) {
    forall i :: 0 <= i < |s| ==> IsDigit(s[i])
  }

  function Pow10(n: nat): (p: nat)
    ensures p >= 1
  {
    if n == 0 then 1 else 10 * Pow10(n - 1)
  }

  /** The decimal value of a string of digits, most significant digit first. */
  function Number(s: string): (v: nat)
    requires AllDigits(s)
    ensures v < Pow10(|s|)
  {
    if s == [] then 0
    else
      var d, p := DigitValue(s[0]), Pow10(|s| - 1);
      assert d * p <= 9 * p;
      d * p + Number(s[1..])
  }

  /** A date string as the calendar builds it: four year digits, a dash,
      two month digits, a dash, two day digits. */
  predicate WellFormedDate(s: string) {
    |s| == 10 && s[4] == '-' && s[7] == '-'
    && AllDigits(s[..4]) && AllDigits(s[5..7]) && AllDigits(s[8..])
  }

  function Year(s: string): nat
    requires WellFormedDate(s)
  {
    Number(s[..4])
  }

  function MonthOf(s: string): (m: nat)
    requires WellFormedDate(s)
    ensures m < 100
  {
    Number(s[5..7])
  }

  function DayOf(s: string): (d: nat)
    requires WellFormedDate(s)
    ensures d < 100
  {
    Number(s[8..])
  }

  /** Calendar order of two well-formed dates: by year, then month, then day. */
  predicate ChronologicallyBefore(a: string, b: string)
    requires WellFormedDate(a) && WellFormedDate(b)
  {
    Year(a) < Year(b)
    || (Year(a) == Year(b) && MonthOf(a) < MonthOf(b))
    || (Year(a) == Year(b) && MonthOf(a) == MonthOf(b) && DayOf(a) < DayOf(b))
  }

  /** The sort key of a date: one number that grows with the instant the
      date denotes. The year, month and day can be read back from it. */
  function DateKey(s: string): (k: nat)
    requires WellFormedDate(s)
    ensures k / 10000 == Year(s) && (k / 100) % 100 == MonthOf(s) && k % 100 == DayOf(s)
  {
    var y, m, d := Year(s), MonthOf(s), DayOf(s);
    assert (y * 10000 + m * 100 + d) / 100 == y * 100 + m;
    y * 10000 + m * 100 + d
  }

  lemma DateKeyIsChronological(a: string, b: string)
    requires WellFormedDate(a) && WellFormedDate(b)
    ensures DateKey(a) < DateKey(b) <==> ChronologicallyBefore(a, b)
  {
  }

  /** Two well-formed dates with the same key are the same string. */
  lemma DateKeyInjective(a: string, b: string)
    requires WellFormedDate(a) && WellFormedDate(b)
    ensures DateKey(a) == DateKey(b) ==> a == b
  {
    if DateKey(a) == DateKey(b) {
      NumberInjective(a[..4], b[..4]);
      NumberInjective(a[5..7], b[5..7]);
      NumberInjective(a[8..], b[8..]);
      assert a == a[..4] + [a[4]] + a[5..7] + [a[7]] + a[8..];
      assert b == b[..4] + [b[4]] + b[5..7] + [b[7]] + b[8..];
    }
  }

  predicate IsLeapYear(y: nat) {
    y % 4 == 0 && (y % 100 != 0 || y % 400 == 0)
  }

  /** The number of days of month `m` of year `y` in the Gregorian calendar. */
  function DaysInMonth(y: nat, m: nat): (n: nat)
    requires 1 <= m <= 12
    ensures 28 <= n <= 31
    ensures n == 29 <==> m == 2 && IsLeapYear(y)
  {
    if m == 2 then (if IsLeapYear(y) then 29 else 28)
    else if m == 4 || m == 6 || m == 9 || m == 11 then 30
    else 31
  }

  /** A well-formed date that names a day of the calendar: its month is 1 to
      12 and its day lies within that month. Only such strings denote an
      instant; for the others the instant is not defined. */
  predicate IsCalendarDate(s: string) {
    && WellFormedDate(s)
    && 1 <= MonthOf(s) <= 12
    && 1 <= DayOf(s) <= DaysInMonth(Year(s), MonthOf(s))
  }

  function DigitChar(d: nat): (c: char)
    requires d < 10
    ensures IsDigit(c) && DigitValue(c) == d
  {
    (('0' as int) + d) as char
  }

  /** Appending a digit multiplies the value by ten and adds the digit. */
  lemma {:induction false} NumberAppend(s: string, c: char)
    requires AllDigits(s) && IsDigit(c)
    ensures AllDigits(s + [c]) && Number(s + [c]) == 10 * Number(s) + DigitValue(c)
  {
    if s != [] {
      var t := s + [c];
      assert t[0] == s[0] && t[1..] == s[1..] + [c];
      NumberAppend(s[1..], c);
      var d, p, x := DigitValue(s[0]), Pow10(|s| - 1), Number(s[1..]);
      assert Number(s) == d * p + x;
      assert Number(t) == d * Pow10(|s|) + Number(s[1..] + [c]);
      assert Pow10(|s|) == 10 * p;
      ScaleDigit(d, p, x, DigitValue(c));
    }
  }

  lemma ScaleDigit(d: int, p: int, x: int, e: int)
    ensures d * (10 * p) + (10 * x + e) == 10 * (d * p + x) + e
  {
  }

  /** `n` written with exactly `w` decimal digits, zeros in front. */
  function PadDigits(n: nat, w: nat): (s: string)
    requires n < Pow10(w)
    ensures |s| == w && AllDigits(s) && Number(s) == n
  {
    if w == 0 then []
    else
      var rest := PadDigits(n / 10, w - 1);
      var c := DigitChar(n % 10);
      NumberAppend(rest, c);
      rest + [c]
  }

  /** The date string the calendar builds for a day it shows: the year, then
      the month and the day each padded to two digits, joined by dashes. */
  function FormatDate(y: nat, m: nat, d: nat): (s: string)
    requires 1000 <= y <= 9999 && 1 <= m <= 12 && 1 <= d <= DaysInMonth(y, m)
    ensures IsCalendarDate(s)
    ensures Year(s) == y && MonthOf(s) == m && DayOf(s) == d
  {
    var ys, ms, ds := PadDigits(y, 4), PadDigits(m, 2), PadDigits(d, 2);
    var s := ys + "-" + ms + "-" + ds;
    assert s[..4] == ys && s[5..7] == ms && s[8..] == ds;
    s
  }

  /** JavaScript's `<` on strings: lexicographic by character. */
  predicate LexLess(a: string, b: string)
    decreases |a|
  {
    |b| > 0 && (|a| == 0 || a[0] < b[0] || (a[0] == b[0] && LexLess(a[1..], b[1..])))
  }

  lemma {:induction false} LexConcat(a1: string, a2: string, b1: string, b2: string)
    requires |a1| == |b1|
    ensures LexLess(a1 + a2, b1 + b2) <==> LexLess(a1, b1) || (a1 == b1 && LexLess(a2, b2))
    decreases |a1|
  {
    if a1 != [] {
      assert (a1 + a2)[0] == a1[0] && (b1 + b2)[0] == b1[0];
      assert (a1 + a2)[1..] == a1[1..] + a2 && (b1 + b2)[1..] == b1[1..] + b2;
      LexConcat(a1[1..], a2, b1[1..], b2);
      assert a1 == b1 <==> a1[0] == b1[0] && a1[1..] == b1[1..];
    } else {
      assert a1 + a2 == a2 && b1 + b2 == b2;
    }
  }

  lemma {:induction false} LexTotal(a: string, b: string)
    requires |a| == |b| && a != b
    ensures LexLess(a, b) || LexLess(b, a)
    decreases |a|
  {
    if a[0] == b[0] {
      assert a == [a[0]] + a[1..] && b == [b[0]] + b[1..];
      LexTotal(a[1..], b[1..]);
    }
  }

  lemma MulStep(d: nat, e: nat, p: nat)
    requires d < e
    ensures d * p + p <= e * p
  {
    var k: nat := e - d - 1;
    calc {
      e * p;
      (d + 1 + k) * p;
      d * p + p + k * p;
    }
  }

  /** On digit strings of equal length, lexicographic order is numeric order. */
  lemma {:induction false} LexIsNumeric(a: string, b: string)
    requires AllDigits(a) && AllDigits(b) && |a| == |b|
    ensures LexLess(a, b) <==> Number(a) < Number(b)
    decreases |a|
  {
    if a != [] {
      var p := Pow10(|a| - 1);
      var da, db := DigitValue(a[0]), DigitValue(b[0]);
      LexIsNumeric(a[1..], b[1..]);
      if a[0] < b[0] {
        MulStep(da, db, p);
      } else if b[0] < a[0] {
        MulStep(db, da, p);
      }
    }
  }

  /** Equal-length digit strings with the same value are the same string. */
  lemma NumberInjective(a: string, b: string)
    requires AllDigits(a) && AllDigits(b) && |a| == |b|
    ensures Number(a) == Number(b) ==> a == b
  {
    if a != b {
      LexTotal(a, b);
      LexIsNumeric(a, b);
      LexIsNumeric(b, a);
    }
  }

  /** Piece by piece: comparing a dash-separated field and then the rest. */
  lemma FieldStep(a: string, b: string, n: nat)
    requires n <= |a| && |a| == |b|
    requires AllDigits(a[..n]) && AllDigits(b[..n])
    ensures LexLess(a, b) <==>
      Number(a[..n]) < Number(b[..n]) || (Number(a[..n]) == Number(b[..n]) && LexLess(a[n..], b[n..]))
  {
    assert a == a[..n] + a[n..] && b == b[..n] + b[n..];
    LexConcat(a[..n], a[n..], b[..n], b[n..]);
    LexIsNumeric(a[..n], b[..n]);
    NumberInjective(a[..n], b[..n]);
  }

  /** The field of `n` digits at position `i`, then the rest. */
  lemma FieldAt(a: string, b: string, i: nat, n: nat)
    requires i + n <= |a| && |a| == |b|
    requires AllDigits(a[i..i + n]) && AllDigits(b[i..i + n])
    ensures LexLess(a[i..], b[i..]) <==>
      Number(a[i..i + n]) < Number(b[i..i + n])
      || (Number(a[i..i + n]) == Number(b[i..i + n]) && LexLess(a[i + n..], b[i + n..]))
  {
    assert a[i..][..n] == a[i..i + n] && b[i..][..n] == b[i..i + n];
    assert a[i..][n..] == a[i + n..] && b[i..][n..] == b[i + n..];
    FieldStep(a[i..], b[i..], n);
  }

  /** A dash at position `i` in both strings does not decide the order. */
  lemma DashAt(a: string, b: string, i: nat)
    requires i < |a| && |a| == |b| && a[i] == '-' && b[i] == '-'
    ensures LexLess(a[i..], b[i..]) <==> LexLess(a[i + 1..], b[i + 1..])
  {
  }

  /** Sorting well-formed date strings as text orders them by calendar date. */
  lemma LexOrderIsChronological(a: string, b: string)
    requires WellFormedDate(a) && WellFormedDate(b)
    ensures LexLess(a, b) <==> ChronologicallyBefore(a, b)
  {
    assert a[0..] == a && b[0..] == b;
    assert a[0..4] == a[..4] && b[0..4] == b[..4];
    FieldAt(a, b, 0, 4);
    DashAt(a, b, 4);
    FieldAt(a, b, 5, 2);
    DashAt(a, b, 7);
    assert a[8..10] == a[8..] && b[8..10] == b[8..];
    FieldAt(a, b, 8, 2);
    assert a[10..] == [] && b[10..] == [];
  }
}
