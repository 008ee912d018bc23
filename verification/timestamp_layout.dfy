/** What the calendar and the fixed-width timestamp say, digit by digit. */
module TimestampLayout {
  import opened Timestamps

  lemma DaysUpToAugust(year: nat)
    ensures MonthStart(year, 8) == MonthStart(year, 1) + 31 + DaysIn(year, 2) + 31 + 30 + 31 + 30 + 31
  {
    assert MonthStart(year, 2) == MonthStart(year, 1) + 31;
    assert MonthStart(year, 3) == MonthStart(year, 2) + DaysIn(year, 2);
    assert MonthStart(year, 4) == MonthStart(year, 3) + 31;
    assert MonthStart(year, 5) == MonthStart(year, 4) + 30;
    assert MonthStart(year, 6) == MonthStart(year, 5) + 31;
    assert MonthStart(year, 7) == MonthStart(year, 6) + 30;
  }

  lemma DaysFromAugust(year: nat)
    ensures MonthStart(year + 1, 1) == MonthStart(year, 8) + 31 + 30 + 31 + 30 + 31
  {
    assert MonthStart(year, 9) == MonthStart(year, 8) + 31;
    assert MonthStart(year, 10) == MonthStart(year, 9) + 30;
    assert MonthStart(year, 11) == MonthStart(year, 10) + 31;
    assert MonthStart(year, 12) == MonthStart(year, 11) + 30;
  }

  /** A year has 366 days if it is a leap year, and 365 otherwise. */
  lemma YearLength(year: nat)
    ensures MonthStart(year + 1, 1) - MonthStart(year, 1) == if LeapYear(year) then 366 else 365
  {
    DaysUpToAugust(year);
    DaysFromAugust(year);
  }

  /** What a string of digits says. */
  function Decimal(s: string): nat
    requires forall i :: 0 <= i < |s| ==> '0' <= s[i] <= '9'
  {
    if |s| == 0 then 0 else 10 * Decimal(s[..|s| - 1]) + (s[|s| - 1] as nat - '0' as nat)
  }

  lemma {:induction false} DigitsReadBack(n: nat, width: nat)
    requires n < Power10(width)
    ensures Decimal(Digits(n, width)) == n
  {
    if width > 0 {
      DigitsReadBack(n / 10, width - 1);
      var s := Digits(n, width);
      assert s[..width - 1] == Digits(n / 10, width - 1) && s[width - 1] == Digit(n % 10);
    }
  }

  /** Where the i-th field starts. */
  function Start(fields: seq<Field>, i: nat): nat
    requires i < |fields|
  {
    if i == 0 then 0 else Start(fields, i - 1) + fields[i - 1].width + 1
  }

  lemma {:induction false} StartOfTail(fields: seq<Field>, i: nat)
    requires 0 < i < |fields|
    ensures Start(fields, i) == fields[0].width + 1 + Start(fields[1..], i - 1)
  {
    if i > 1 {
      StartOfTail(fields, i - 1);
    }
  }

  lemma Behind(head: string, rest: string, k: nat, width: nat)
    requires k + width < |rest|
    ensures (head + rest)[|head| + k..|head| + k + width] == rest[k..k + width]
    ensures (head + rest)[|head| + k + width] == rest[k + width]
  {
  }

  /** The number stands at the place, with the separator behind it. */
  ghost predicate StandsAt(text: string, k: nat, f: Field) {
    && k + f.width < |text|
    && text[k..k + f.width] == Digits(f.value, f.width)
    && text[k + f.width] == f.separator
  }

  lemma FirstStandsAt(number: string, f: Field, rest: string)
    requires number == Digits(f.value, f.width)
    ensures StandsAt(number + [f.separator] + rest, 0, f)
  {
    assert (number + [f.separator] + rest)[..|number|] == number;
  }

  lemma StandsBehind(head: string, rest: string, k: nat, f: Field)
    requires StandsAt(rest, k, f)
    ensures StandsAt(head + rest, |head| + k, f)
  {
    Behind(head, rest, k, f.width);
  }

  lemma {:induction false} FieldStandsAt(fields: seq<Field>, i: nat)
    requires i < |fields|
    ensures StandsAt(Written(fields), Start(fields, i), fields[i])
  {
    hide StandsAt;
    var number, rest := Digits(fields[0].value, fields[0].width), Written(fields[1..]);
    if i == 0 {
      FirstStandsAt(number, fields[0], rest);
    } else {
      FieldStandsAt(fields[1..], i - 1);
      StartOfTail(fields, i);
      StandsBehind(number + [fields[0].separator], rest, Start(fields[1..], i - 1), fields[i]);
    }
  }

  lemma {:induction false} WrittenLength(fields: seq<Field>)
    requires |fields| > 0
    ensures |Written(fields)| == Start(fields, |fields| - 1) + fields[|fields| - 1].width + 1
  {
    if |fields| > 1 {
      WrittenLength(fields[1..]);
      StartOfTail(fields, |fields| - 1);
    }
  }

  /** The number read in a stretch of text. */
  ghost predicate Reads(text: string, from: nat, to: nat, value: nat) {
    && from <= to <= |text|
    && (forall i :: from <= i < to ==> '0' <= text[i] <= '9')
    && Decimal(text[from..to]) == value
  }

  lemma FieldReadsBack(fields: seq<Field>, i: nat)
    requires i < |fields| && FieldOk(fields[i])
    ensures var k, f := Start(fields, i), fields[i];
            && Reads(Written(fields), k, k + f.width, f.value)
            && k + f.width < |Written(fields)| && Written(fields)[k + f.width] == f.separator
  {
    hide Decimal, Start, Written, Digits, Power10;
    FieldStandsAt(fields, i);
    var k, f := Start(fields, i), fields[i];
    DigitsReadBack(f.value, f.width);
    forall j | k <= j < k + f.width
      ensures '0' <= Written(fields)[j] <= '9'
    {
      assert Written(fields)[j] == Written(fields)[k..k + f.width][j - k];
    }
  }

  /** The layout 2006-01-02T15:04:05.000000000Z, every field read back where it stands. */
  lemma SortableReadsBack(t: Time)
    requires ValidTime(t)
    ensures var s := FormatSortable(t);
            && |s| == 30
            && Reads(s, 0, 4, t.year) && Reads(s, 5, 7, t.month) && Reads(s, 8, 10, t.day)
            && Reads(s, 11, 13, t.hour) && Reads(s, 14, 16, t.minute) && Reads(s, 17, 19, t.second)
            && Reads(s, 20, 29, t.nanos)
            && s[4] == '-' && s[7] == '-' && s[10] == 'T' && s[13] == ':' && s[16] == ':' && s[19] == '.' && s[29] == 'Z'
  {
    Powers();
    var f := AllFields(t);
    assert Start(f, 1) == 5 && Start(f, 2) == 8 && Start(f, 3) == 11;
    assert Start(f, 4) == 14 && Start(f, 5) == 17 && Start(f, 6) == 20;
    FieldReadsBack(f, 0);
    FieldReadsBack(f, 1);
    FieldReadsBack(f, 2);
    FieldReadsBack(f, 3);
    FieldReadsBack(f, 4);
    FieldReadsBack(f, 5);
    FieldReadsBack(f, 6);
    WrittenLength(f);
  }
}
