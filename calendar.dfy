/**
 * The part of Go's `time` package the bot relies on: the weekday of a
 * proleptic Gregorian calendar date and the "2006-01-02" layout used for the
 * summary's Date field. A `time.Time` is represented by its calendar date in
 * the location it is read in; the clock itself is an input.
 */
module Calendar {

  datatype Date = Date(year: int, month: int, day: int)

  /** Go's `time.Weekday`, in Go's order (Sunday is 0). */
  datatype Weekday = Sunday | Monday | Tuesday | Wednesday | Thursday | Friday | Saturday

  predicate IsLeapYear(y: int) {
    y % 4 == 0 && (y % 100 != 0 || y % 400 == 0)
  }

  function DaysInMonth(y: int, m: int): int
    requires 1 <= m <= 12
  {
    if m == 2 then (if IsLeapYear(y) then 29 else 28)
    else if m == 4 || m == 6 || m == 9 || m == 11 then 30
    else 31
  }

  predicate ValidDate(d: Date) {
    1 <= d.month <= 12 && 1 <= d.day <= DaysInMonth(d.year, d.month)
  }

  /** The calendar date that follows `d`. */
  function NextDay(d: Date): Date
    requires ValidDate(d)
  {
    if d.day < DaysInMonth(d.year, d.month) then Date(d.year, d.month, d.day + 1)
    else if d.month < 12 then Date(d.year, d.month + 1, 1)
    else Date(d.year + 1, 1, 1)
  }

  /** Days from 1 March to the first day of the `mp`-th month counted from March. */
  function MonthOffset(mp: int): int
    requires 0 <= mp < 12
  {
    [0, 31, 61, 92, 122, 153, 184, 214, 245, 275, 306, 337][mp]
  }

  /** Days from 0000-03-01 to 1 March of year `y`, less the epoch's own count. */
  function YearOffset(y: int): int {
    365 * y + y / 4 - y / 100 + y / 400
  }

  /**
   * Days since 1970-01-01. Years are counted from March, so that the leap day
   * is the last day of the counted year; `/` on int is floor division here
   * because every divisor is positive.
   */
  function DaysFromCivil(d: Date): int
    requires 1 <= d.month <= 12
  {
    var y := if d.month <= 2 then d.year - 1 else d.year;
    var mp := if d.month > 2 then d.month - 3 else d.month + 9;
    YearOffset(y) + MonthOffset(mp) + d.day - 1 - 719468
  }

  function WeekdayFromIndex(i: int): Weekday
    requires 0 <= i < 7
  {
    [Sunday, Monday, Tuesday, Wednesday, Thursday, Friday, Saturday][i]
  }

  function WeekdayIndex(w: Weekday): (i: int)
    ensures 0 <= i < 7 && WeekdayFromIndex(i) == w
  {
    match w
    case Sunday => 0
    case Monday => 1
    case Tuesday => 2
    case Wednesday => 3
    case Thursday => 4
    case Friday => 5
    case Saturday => 6
  }

  /** The weekday after `w`. */
  function Succ(w: Weekday): Weekday {
    WeekdayFromIndex((WeekdayIndex(w) + 1) % 7)
  }

  /** `t.Weekday()`: 1970-01-01 was a Thursday. */
  function WeekdayOf(d: Date): Weekday
    requires 1 <= d.month <= 12
  {
    WeekdayOfCount(DaysFromCivil(d))
  }

  /** The weekday of the `n`-th day after 1970-01-01. */
  function WeekdayOfCount(n: int): Weekday {
    WeekdayFromIndex((n + 4) % 7)
  }

  lemma CountWeekdaySucc(n: int)
    ensures WeekdayOfCount(n + 1) == Succ(WeekdayOfCount(n))
  {
    assert WeekdayIndex(WeekdayOfCount(n)) == (n + 4) % 7;
  }

  /** A counted year (March to February) has 366 days exactly when its February has a leap day. */
  lemma YearLength(y: int)
    ensures YearOffset(y) - YearOffset(y - 1) == if IsLeapYear(y) then 366 else 365
  {
    assert y / 4 - (y - 1) / 4 == if y % 4 == 0 then 1 else 0;
    assert y / 100 - (y - 1) / 100 == if y % 100 == 0 then 1 else 0;
    assert y / 400 - (y - 1) / 400 == if y % 400 == 0 then 1 else 0;
  }

  /** The day count advances by exactly one from a date to the next one. */
  lemma NextDayCount(d: Date)
    requires ValidDate(d)
    ensures DaysFromCivil(NextDay(d)) == DaysFromCivil(d) + 1
  {
    if d.day == DaysInMonth(d.year, d.month) && d.month == 2 {
      YearLength(d.year);
    }
  }

  /** The weekday advances by exactly one from a date to the next one. */
  lemma NextDayWeekday(d: Date)
    requires ValidDate(d)
    ensures WeekdayOf(NextDay(d)) == Succ(WeekdayOf(d))
  {
    NextDayCount(d);
    CountWeekdaySucc(DaysFromCivil(d));
  }

  // ---- the "2006-01-02" layout ----

  function DigitChar(k: int): char
    requires 0 <= k < 10
  {
    "0123456789"[k]
  }

  predicate IsDigit(c: char) {
    '0' <= c <= '9'
  }

  /** The decimal digits of `n`, without leading zeros ("0" for zero). */
  function Digits(n: nat): (s: string)
    ensures 1 <= |s|
    ensures forall i :: 0 <= i < |s| ==> IsDigit(s[i])
  {
    if n < 10 then [DigitChar(n)] else Digits(n / 10) + [DigitChar(n % 10)]
  }

  /** The value of a string of decimal digits. */
  function DecimalValue(s: string): nat
    requires forall i :: 0 <= i < |s| ==> IsDigit(s[i])
  {
    if s == [] then 0
    else
      assert IsDigit(s[|s| - 1]);
      10 * DecimalValue(s[..|s| - 1]) + (s[|s| - 1] as int - '0' as int)
  }

  function Zeros(k: nat): (s: string)
    ensures |s| == k && forall i :: 0 <= i < k ==> s[i] == '0'
  {
    if k == 0 then [] else Zeros(k - 1) + ['0']
  }

  /** Go's `appendInt(b, x, width)`: a sign, then the digits padded with zeros to `width`. */
  function PaddedInt(x: int, width: nat): (r: string)
    ensures width <= |r| && 0 < |r|
    ensures r[0] == '-' <==> x < 0
  {
    var n: nat := if x < 0 then -x else x;
    var ds := Digits(n);
    var k := if |ds| < width then width - |ds| else 0;
    (if x < 0 then "-" else "") + Zeros(k) + ds
  }

  /** `t.Format("2006-01-02")`. */
  function FormatDate(d: Date): (r: string)
    ensures 10 <= |r|
  {
    PaddedInt(d.year, 4) + "-" + PaddedInt(d.month, 2) + "-" + PaddedInt(d.day, 2)
  }

  lemma {:induction false} DecimalOfDigits(n: nat)
    ensures DecimalValue(Digits(n)) == n
  {
    if n >= 10 {
      var s := Digits(n);
      assert s[..|s| - 1] == Digits(n / 10);
      DecimalOfDigits(n / 10);
    } else {
      assert DigitChar(n) - '0' == n as char;
    }
  }

  lemma {:induction false} DecimalIgnoresLeadingZeros(k: nat, s: string)
    requires forall i :: 0 <= i < |s| ==> IsDigit(s[i])
    ensures DecimalValue(Zeros(k) + s) == DecimalValue(s)
  {
    if s == [] {
      assert Zeros(k) + s == Zeros(k);
      ZerosValue(k);
    } else {
      var t := Zeros(k) + s;
      assert t[..|t| - 1] == Zeros(k) + s[..|s| - 1];
      DecimalIgnoresLeadingZeros(k, s[..|s| - 1]);
    }
  }

  lemma {:induction false} ZerosValue(k: nat)
    ensures DecimalValue(Zeros(k)) == 0
  {
    if k > 0 {
      assert Zeros(k)[..k - 1] == Zeros(k - 1);
      ZerosValue(k - 1);
    }
  }

  /** A non-negative padded field is all digits and reads back as the number it was made from. */
  lemma PaddedIntRoundTrip(x: nat, width: nat)
    ensures forall i :: 0 <= i < |PaddedInt(x, width)| ==> IsDigit(PaddedInt(x, width)[i])
    ensures DecimalValue(PaddedInt(x, width)) == x
  {
    var ds := Digits(x);
    var k := if |ds| < width then width - |ds| else 0;
    var p := Zeros(k) + ds;
    assert PaddedInt(x, width) == p;
    forall i | 0 <= i < |p|
      ensures IsDigit(p[i])
    {
      if i < k {
        assert p[i] == Zeros(k)[i];
      } else {
        assert p[i] == ds[i - k];
      }
    }
    DecimalOfDigits(x);
    DecimalIgnoresLeadingZeros(k, ds);
  }

  /** A field whose number has at most `width` digits is exactly `width` characters long. */
  lemma PaddedIntWidth(x: nat, width: nat)
    requires 1 <= width && x < Pow10(width)
    ensures |PaddedInt(x, width)| == width
  {
    DigitsLength(x, width);
  }

  lemma {:induction false} DigitsLength(n: nat, k: nat)
    requires n < Pow10(k) && k >= 1
    ensures |Digits(n)| <= k
  {
    if n >= 10 {
      DigitsLength(n / 10, k - 1);
    }
  }

  function Pow10(k: nat): nat {
    if k == 0 then 1 else 10 * Pow10(k - 1)
  }

  /** Where the three fields and the two dashes sit in the layout. */
  lemma LayoutPositions(y: string, m: string, dd: string)
    requires |y| == 4 && |m| == 2 && |dd| == 2
    ensures var s := y + "-" + m + "-" + dd;
      |s| == 10 && s[4] == '-' && s[7] == '-' && s[..4] == y && s[5..7] == m && s[8..] == dd
  {
    var s := y + "-" + m + "-" + dd;
    assert s[..4] == y;
    assert s[5..7] == m;
    assert s[8..] == dd;
  }

  /**
   * For a date with a four-digit year the layout gives ten characters, dashes
   * at positions 4 and 7 and digits elsewhere, and each field reads back as
   * the year, month and day.
   */
  lemma FormatDateLayout(d: Date)
    requires 0 <= d.year <= 9999 && 1 <= d.month <= 12 && 1 <= d.day <= 31
    ensures var s := FormatDate(d);
      |s| == 10 && s[4] == '-' && s[7] == '-' &&
      (forall i :: 0 <= i < 10 && i != 4 && i != 7 ==> IsDigit(s[i])) &&
      DecimalValue(s[..4]) == d.year && DecimalValue(s[5..7]) == d.month && DecimalValue(s[8..]) == d.day
  {
    assert Pow10(4) == 10000 && Pow10(2) == 100;
    PaddedIntWidth(d.year, 4);
    PaddedIntWidth(d.month, 2);
    PaddedIntWidth(d.day, 2);
    PaddedIntRoundTrip(d.year, 4);
    PaddedIntRoundTrip(d.month, 2);
    PaddedIntRoundTrip(d.day, 2);
    var y, m, dd := PaddedInt(d.year, 4), PaddedInt(d.month, 2), PaddedInt(d.day, 2);
    LayoutPositions(y, m, dd);
    var s := FormatDate(d);
    forall i | 0 <= i < 10 && i != 4 && i != 7
      ensures IsDigit(s[i])
    {
      if i < 4 {
        assert s[i] == s[..4][i];
      } else if i < 7 {
        assert s[i] == s[5..7][i - 5];
      } else {
        assert s[i] == s[8..][i - 8];
      }
    }
  }
}
