/**
 Timestamps as text.  Times are UTC, in years 0 to 9999 of the Gregorian calendar, to the nanosecond; the
 database compares them as strings, character by character, as section 5.1 of RFC 3339 allows when the
 fraction has a fixed number of digits.
 */
module Timestamps {

  datatype Time = Time(year: nat, month: nat, day: nat, hour: nat, minute: nat, second: nat, nanos: nat)

  /******* The calendar *******/

  predicate LeapYear(year: nat) {
    year % 4 == 0 && (year % 100 != 0 || year % 400 == 0)
  }

  function DaysIn(year: nat, month: nat): nat {
    if month == 2 then if LeapYear(year) then 29 else 28
    else if month in {4, 6, 9, 11} then 30 else 31
  }

  predicate ValidTime(t: Time) {
    && t.year <= 9999 && 1 <= t.month <= 12 && 1 <= t.day <= DaysIn(t.year, t.month)
    && t.hour <= 23 && t.minute <= 59 && t.second <= 59 && t.nanos <= 999_999_999
  }

  /** Days before the first of the month, counted from the start of year 0. */
  function MonthStart(year: nat, month: nat): nat
    requires 1 <= month <= 12
    decreases year, month
  {
    if month > 1 then MonthStart(year, month - 1) + DaysIn(year, month - 1)
    else if year > 0 then MonthStart(year - 1, 12) + DaysIn(year - 1, 12)
    else 0
  }

  function DayNumber(t: Time): nat
    requires ValidTime(t)
  {
    MonthStart(t.year, t.month) + t.day - 1
  }

  function SecondOfDay(t: Time): nat {
    (t.hour * 60 + t.minute) * 60 + t.second
  }

  /** Nanoseconds since the start of year 0. */
  function Instant(t: Time): nat
    requires ValidTime(t)
  {
    (DayNumber(t) * 86_400 + SecondOfDay(t)) * 1_000_000_000 + t.nanos
  }

  predicate MonthBefore(a: Time, b: Time) {
    a.year < b.year || (a.year == b.year && a.month < b.month)
  }

  /** Everything in an earlier month is over before a later month starts. */
  lemma {:induction false} MonthsInOrder(a: Time, year: nat, month: nat)
    requires ValidTime(a) && 1 <= month <= 12
    requires a.year < year || (a.year == year && a.month < month)
    ensures MonthStart(a.year, a.month) + DaysIn(a.year, a.month) <= MonthStart(year, month)
    decreases year, month
  {
    if month > 1 {
      if a.year != year || a.month != month - 1 {
        MonthsInOrder(a, year, month - 1);
      }
    } else {
      if a.year != year - 1 || a.month != 12 {
        MonthsInOrder(a, year - 1, 12);
      }
    }
  }

  predicate DayBefore(a: Time, b: Time) {
    MonthBefore(a, b) || (a.year == b.year && a.month == b.month && a.day < b.day)
  }

  lemma DaysInOrder(a: Time, b: Time)
    requires ValidTime(a) && ValidTime(b) && DayBefore(a, b)
    ensures DayNumber(a) < DayNumber(b)
  {
    if MonthBefore(a, b) {
      MonthsInOrder(a, b.year, b.month);
    }
  }

  predicate SameDay(a: Time, b: Time) {
    a.year == b.year && a.month == b.month && a.day == b.day
  }

  predicate ClockBefore(a: Time, b: Time) {
    || a.hour < b.hour
    || (a.hour == b.hour &&
        (a.minute < b.minute || (a.minute == b.minute && a.second < b.second)))
  }

  predicate SameSecond(a: Time, b: Time) {
    SameDay(a, b) && a.hour == b.hour && a.minute == b.minute && a.second == b.second
  }

  /** The order of the fields, most significant first. */
  predicate Before(a: Time, b: Time) {
    || DayBefore(a, b)
    || (SameDay(a, b) && ClockBefore(a, b))
    || (SameSecond(a, b) && a.nanos < b.nanos)
  }

  lemma BeforeIsEarlier(a: Time, b: Time)
    requires ValidTime(a) && ValidTime(b) && Before(a, b)
    ensures Instant(a) < Instant(b)
  {
    if DayBefore(a, b) {
      DaysInOrder(a, b);
    }
  }

  /** The fields order times as their instants do. */
  lemma FieldsOrderInstants(a: Time, b: Time)
    requires ValidTime(a) && ValidTime(b)
    ensures Before(a, b) <==> Instant(a) < Instant(b)
    ensures a == b <==> Instant(a) == Instant(b)
  {
    if Before(a, b) {
      BeforeIsEarlier(a, b);
    } else if Before(b, a) {
      BeforeIsEarlier(b, a);
    } else {
      assert a == b;
    }
  }

  /******* Strings *******/

  /** The database's comparison. */
  predicate Less(a: string, b: string)
    decreases |a|
  {
    |b| > 0 && (|a| == 0 || a[0] < b[0] || (a[0] == b[0] && Less(a[1..], b[1..])))
  }

  lemma {:induction false} NeverLessThanItself(a: string)
    ensures !Less(a, a)
  {
    if |a| > 0 {
      NeverLessThanItself(a[1..]);
    }
  }

  /** Strings that start with equally long parts are ordered by those, then by the rest. */
  lemma {:induction false} LessByParts(a: string, b: string, c: string, d: string)
    requires |a| == |b|
    ensures Less(a + c, b + d) <==> Less(a, b) || (a == b && Less(c, d))
    decreases |a|
  {
    if |a| == 0 {
      assert a + c == c && b + d == d;
    } else {
      assert (a + c)[1..] == a[1..] + c && (b + d)[1..] == b[1..] + d;
      LessByParts(a[1..], b[1..], c, d);
      assert a == b <==> a[0] == b[0] && a[1..] == b[1..];
    }
  }

  function Digit(n: nat): char
    requires n < 10
  {
    '0' + n as char
  }

  function Power10(width: nat): (p: nat)
    ensures p > 0
  {
    if width == 0 then 1 else 10 * Power10(width - 1)
  }

  /** Zero-padded decimal. */
  function Digits(n: nat, width: nat): (s: string)
    ensures |s| == width
    ensures forall i :: 0 <= i < |s| ==> '0' <= s[i] <= '9'
  {
    if width == 0 then "" else Digits(n / 10, width - 1) + [Digit(n % 10)]
  }

  /** Of equal width, decimals compare as their numbers. */
  lemma {:induction false} DigitsOrder(n: nat, m: nat, width: nat)
    requires n < Power10(width) && m < Power10(width)
    ensures Less(Digits(n, width), Digits(m, width)) <==> n < m
    ensures Digits(n, width) == Digits(m, width) <==> n == m
  {
    if width > 0 {
      DigitsOrder(n / 10, m / 10, width - 1);
      var a, b := Digits(n / 10, width - 1), Digits(m / 10, width - 1);
      LessByParts(a, b, [Digit(n % 10)], [Digit(m % 10)]);
      assert Digits(n, width)[..width - 1] == a && Digits(m, width)[..width - 1] == b;
      assert Digits(n, width)[width - 1] == Digit(n % 10) && Digits(m, width)[width - 1] == Digit(m % 10);
      assert [Digit(n % 10)][1..] == "" && [Digit(m % 10)][1..] == "";
    }
  }

  /******* The fixed-width format *******/

  /** A field is its decimal and the separator after it. */
  datatype Field = Field(value: nat, width: nat, separator: char)

  predicate FieldOk(f: Field) {
    f.value < Power10(f.width)
  }

  function Written(fields: seq<Field>): string {
    if |fields| == 0 then ""
    else Digits(fields[0].value, fields[0].width) + [fields[0].separator] + Written(fields[1..])
  }

  predicate SameShape(a: seq<Field>, b: seq<Field>) {
    |a| == |b| && forall i :: 0 <= i < |a| ==> a[i].width == b[i].width && a[i].separator == b[i].separator
  }

  /** The order of the values, first field first. */
  predicate FieldsBefore(a: seq<Field>, b: seq<Field>)
    requires |a| == |b|
  {
    |a| > 0 && (a[0].value < b[0].value || (a[0].value == b[0].value && FieldsBefore(a[1..], b[1..])))
  }

  lemma {:induction false} WrittenOrder(a: seq<Field>, b: seq<Field>)
    requires SameShape(a, b)
    requires forall i :: 0 <= i < |a| ==> FieldOk(a[i]) && FieldOk(b[i])
    ensures |Written(a)| == |Written(b)|
    ensures Less(Written(a), Written(b)) <==> FieldsBefore(a, b)
    ensures Written(a) == Written(b) <==> a == b
    decreases |a|
  {
    if |a| > 0 {
      WrittenOrder(a[1..], b[1..]);
      DigitsOrder(a[0].value, b[0].value, a[0].width);
      var p, q := Digits(a[0].value, a[0].width), Digits(b[0].value, b[0].width);
      var sep := [a[0].separator];
      LessByParts(p + sep, q + sep, Written(a[1..]), Written(b[1..]));
      LessByParts(p, q, sep, sep);
      NeverLessThanItself(sep);
      SameParts(p, q, sep, Written(a[1..]), Written(b[1..]));
      assert a == [a[0]] + a[1..] && b == [b[0]] + b[1..];
    }
  }

  lemma SameParts(p: string, q: string, sep: string, x: string, y: string)
    requires |p| == |q|
    ensures p + sep == q + sep <==> p == q
    ensures p + sep + x == q + sep + y <==> p == q && x == y
  {
    assert (p + sep)[..|p|] == p && (q + sep)[..|q|] == q;
    assert (p + sep + x)[..|p|] == p && (q + sep + y)[..|q|] == q;
    assert (p + sep + x)[|p| + |sep|..] == x && (q + sep + y)[|q| + |sep|..] == y;
  }

  function SecondFields(t: Time): seq<Field> {
    [Field(t.year, 4, '-'), Field(t.month, 2, '-'), Field(t.day, 2, 'T'),
     Field(t.hour, 2, ':'), Field(t.minute, 2, ':')]
  }

  function AllFields(t: Time): seq<Field> {
    SecondFields(t) + [Field(t.second, 2, '.'), Field(t.nanos, 9, 'Z')]
  }

  /** The fixed-width format: always nine digits of fraction. */
  function FormatSortable(t: Time): string {
    Written(AllFields(t))
  }

  lemma Powers()
    ensures Power10(2) == 100 && Power10(4) == 10_000 && Power10(9) == 1_000_000_000
  {
    assert Power10(3) == 1_000;
    assert Power10(5) == 100_000;
    assert Power10(7) == 10_000_000;
  }

  lemma {:induction false} FieldsBeforeMeans(a: seq<Field>, b: seq<Field>)
    requires |a| == |b|
    ensures FieldsBefore(a, b) <==>
            exists i :: 0 <= i < |a| && a[i].value < b[i].value && forall k :: 0 <= k < i ==> a[k].value == b[k].value
    decreases |a|
  {
    if |a| > 0 {
      FieldsBeforeMeans(a[1..], b[1..]);
      if FieldsBefore(a, b) {
        if a[0].value == b[0].value {
          var j :| 0 <= j < |a[1..]| && a[1..][j].value < b[1..][j].value
                   && forall k :: 0 <= k < j ==> a[1..][k].value == b[1..][k].value;
          assert a[j + 1] == a[1..][j] && b[j + 1] == b[1..][j];
          forall k | 0 <= k < j + 1 ensures a[k].value == b[k].value {
            if k > 0 {
              assert a[1..][k - 1].value == b[1..][k - 1].value;
            }
          }
        }
      }
      if exists i :: 0 <= i < |a| && a[i].value < b[i].value && forall k :: 0 <= k < i ==> a[k].value == b[k].value {
        var i :| 0 <= i < |a| && a[i].value < b[i].value && forall k :: 0 <= k < i ==> a[k].value == b[k].value;
        if i > 0 {
          assert a[1..][i - 1] == a[i] && b[1..][i - 1] == b[i];
          assert forall k :: 0 <= k < i - 1 ==> a[1..][k] == a[k + 1] && b[1..][k] == b[k + 1];
        }
      }
    }
  }

  /**
   String comparison of fixed-width timestamps is comparison of instants, and distinct times are written
   differently: the format is an order embedding of the four-digit years.
   */
  lemma SortableIsChronological(a: Time, b: Time)
    requires ValidTime(a) && ValidTime(b)
    ensures Less(FormatSortable(a), FormatSortable(b)) <==> Instant(a) < Instant(b)
    ensures FormatSortable(a) == FormatSortable(b) <==> a == b
  {
    Powers();
    var p, q := AllFields(a), AllFields(b);
    WrittenOrder(p, q);
    FieldsOrderInstants(a, b);
    AllFieldsOrder(a, b);
  }

  lemma AllFieldsOrder(a: Time, b: Time)
    ensures FieldsBefore(AllFields(a), AllFields(b)) <==> Before(a, b)
    ensures AllFields(a) == AllFields(b) <==> a == b
  {
    var p, q := AllFields(a), AllFields(b);
    assert p[0].value == a.year && p[1].value == a.month && p[2].value == a.day;
    assert p[3].value == a.hour && p[4].value == a.minute && p[5].value == a.second && p[6].value == a.nanos;
    assert q[0].value == b.year && q[1].value == b.month && q[2].value == b.day;
    assert q[3].value == b.hour && q[4].value == b.minute && q[5].value == b.second && q[6].value == b.nanos;
    FieldsBeforeMeans(p, q);
    if Before(a, b) {
      var i := if a.year != b.year then 0 else if a.month != b.month then 1 else if a.day != b.day then 2
               else if a.hour != b.hour then 3 else if a.minute != b.minute then 4 else if a.second != b.second then 5 else 6;
      assert p[i].value < q[i].value;
    }
  }

  /******* The trimmed format *******/

  function Trimmed(digits: string): (s: string)
    ensures s <= digits && forall i :: |s| <= i < |digits| ==> digits[i] == '0'
  {
    if |digits| == 0 || digits[|digits| - 1] != '0' then digits else Trimmed(digits[..|digits| - 1])
  }

  function Fraction(t: Time): string {
    Trimmed(Digits(t.nanos, 9))
  }

  /** What other columns use: trailing zeros of the fraction are left out, and the point with an empty fraction. */
  function FormatTrimmed(t: Time): string {
    Written(SecondFields(t)) + Digits(t.second, 2) +
    (if t.nanos == 0 then "" else "." + Fraction(t)) + "Z"
  }

  predicate AllDigits(s: string) {
    forall i :: 0 <= i < |s| ==> '0' <= s[i] <= '9'
  }

  predicate AllZeros(s: string) {
    forall i :: 0 <= i < |s| ==> s[i] == '0'
  }

  lemma {:induction false} NothingBelowZeros(a: string, zeros: string)
    requires |a| == |zeros| && AllDigits(a) && AllZeros(zeros)
    ensures !Less(a, zeros)
  {
    if |a| > 0 {
      NothingBelowZeros(a[1..], zeros[1..]);
    }
  }

  /** Among padded digit strings in order, dropping the padding keeps the order unless one is a prefix of the other. */
  lemma {:induction false} TrimmingKeepsOrder(u: string, v: string, p: string, q: string)
    requires AllDigits(u) && AllDigits(v) && AllZeros(p) && AllZeros(q) && |u + p| == |v + q|
    requires Less(u + p, v + q)
    ensures Less(u + "Z", v + "Z") <==> !(u <= v)
    decreases |u|
  {
    if |u| == 0 {
      assert u + "Z" == "Z" && u + p == p;
      if |v| == 0 {
        assert v + q == q && p == q;
        NeverLessThanItself(p);
      }
    } else if |v| == 0 {
      assert v + q == q;
      NothingBelowZeros(u + p, q);
    } else {
      assert (u + p)[1..] == u[1..] + p && (v + q)[1..] == v[1..] + q;
      assert (u + "Z")[1..] == u[1..] + "Z" && (v + "Z")[1..] == v[1..] + "Z";
      assert u <= v <==> u[0] == v[0] && u[1..] <= v[1..] by {
        if u[0] == v[0] && u[1..] <= v[1..] {
          assert forall i :: 0 < i < |u| ==> u[i] == u[1..][i - 1] && v[i] == v[1..][i - 1];
        }
      }
      if u[0] == v[0] {
        TrimmingKeepsOrder(u[1..], v[1..], p, q);
      }
    }
  }

  lemma {:induction false} ZeroDigits(width: nat)
    ensures AllZeros(Digits(0, width))
  {
    if width > 0 {
      ZeroDigits(width - 1);
    }
  }

  lemma FractionPadding(t: Time) returns (zeros: string)
    ensures AllZeros(zeros) && Fraction(t) + zeros == Digits(t.nanos, 9) && AllDigits(Fraction(t))
  {
    zeros := Digits(t.nanos, 9)[|Fraction(t)|..];
  }

  lemma {:induction false} TrimmedZeros(s: string)
    requires AllZeros(s)
    ensures Trimmed(s) == ""
  {
    if |s| > 0 {
      TrimmedZeros(s[..|s| - 1]);
    }
  }

  /** What follows the seconds. */
  function Tail(t: Time): string {
    (if t.nanos == 0 then "" else "." + Fraction(t)) + "Z"
  }

  lemma TailsInOrder(a: Time, b: Time)
    requires a.nanos < b.nanos < 1_000_000_000
    ensures Less(Tail(a), Tail(b)) <==> !(Fraction(a) <= Fraction(b))
  {
    Powers();
    if a.nanos == 0 {
      ZeroDigits(9);
      TrimmedZeros(Digits(0, 9));
      assert Tail(a)[0] == 'Z' && Tail(b)[0] == '.';
    } else {
      DigitsOrder(a.nanos, b.nanos, 9);
      var p := FractionPadding(a);
      var q := FractionPadding(b);
      TrimmingKeepsOrder(Fraction(a), Fraction(b), p, q);
      assert Tail(a) == "." + (Fraction(a) + "Z") && Tail(b) == "." + (Fraction(b) + "Z");
      LessByParts(".", ".", Fraction(a) + "Z", Fraction(b) + "Z");
      NeverLessThanItself(".");
    }
  }

  lemma HeadsInOrder(a: Time, b: Time)
    requires ValidTime(a) && ValidTime(b)
    ensures var p, q := Written(SecondFields(a)) + Digits(a.second, 2), Written(SecondFields(b)) + Digits(b.second, 2);
            && |p| == |q| && (p == q <==> SameSecond(a, b))
            && (Less(p, q) <==> DayBefore(a, b) || (SameDay(a, b) && ClockBefore(a, b)))
  {
    Powers();
    var x, y := SecondFields(a), SecondFields(b);
    WrittenOrder(x, y);
    DigitsOrder(a.second, b.second, 2);
    LessByParts(Written(x), Written(y), Digits(a.second, 2), Digits(b.second, 2));
    SameParts(Written(x), Written(y), "", Digits(a.second, 2), Digits(b.second, 2));
    assert Written(x) + "" == Written(x) && Written(y) + "" == Written(y);
    SecondFieldsOrder(a, b);
  }

  lemma SecondFieldsOrder(a: Time, b: Time)
    ensures var minuteBefore := a.hour < b.hour || (a.hour == b.hour && a.minute < b.minute);
            FieldsBefore(SecondFields(a), SecondFields(b)) <==> DayBefore(a, b) || (SameDay(a, b) && minuteBefore)
    ensures SecondFields(a) == SecondFields(b) <==> SameDay(a, b) && a.hour == b.hour && a.minute == b.minute
  {
    var p, q := SecondFields(a), SecondFields(b);
    assert p[0].value == a.year && p[1].value == a.month && p[2].value == a.day && p[3].value == a.hour && p[4].value == a.minute;
    assert q[0].value == b.year && q[1].value == b.month && q[2].value == b.day && q[3].value == b.hour && q[4].value == b.minute;
    FieldsBeforeMeans(p, q);
    if DayBefore(a, b) || (SameDay(a, b) && (a.hour < b.hour || (a.hour == b.hour && a.minute < b.minute))) {
      var i := if a.year != b.year then 0 else if a.month != b.month then 1 else if a.day != b.day then 2
               else if a.hour != b.hour then 3 else 4;
      assert p[i].value < q[i].value;
    }
  }

  /**
   When the trimmed format misorders two times: exactly when they fall in the same second and the earlier
   one's fraction, as written, is a prefix of the later one's.
   */
  lemma TrimmedMisordersIff(a: Time, b: Time)
    requires ValidTime(a) && ValidTime(b) && Instant(a) < Instant(b)
    ensures !Less(FormatTrimmed(a), FormatTrimmed(b)) <==> SameSecond(a, b) && Fraction(a) <= Fraction(b)
  {
    FieldsOrderInstants(a, b);
    HeadsInOrder(a, b);
    var p, q := Written(SecondFields(a)) + Digits(a.second, 2), Written(SecondFields(b)) + Digits(b.second, 2);
    assert FormatTrimmed(a) == p + Tail(a) && FormatTrimmed(b) == q + Tail(b);
    LessByParts(p, q, Tail(a), Tail(b));
    if SameSecond(a, b) {
      TailsInOrder(a, b);
      NeverLessThanItself(p);
    }
  }

  /** For instance a whole second and the millisecond after it. */
  lemma TrimmedMisorders()
    ensures var a, b := Time(2024, 1, 1, 0, 0, 0, 0), Time(2024, 1, 1, 0, 0, 0, 1_000_000);
            Instant(a) < Instant(b) && !Less(FormatTrimmed(a), FormatTrimmed(b))
  {
    var a, b := Time(2024, 1, 1, 0, 0, 0, 0), Time(2024, 1, 1, 0, 0, 0, 1_000_000);
    ZeroDigits(9);
    TrimmedZeros(Digits(0, 9));
    TrimmedMisordersIff(a, b);
  }
}
