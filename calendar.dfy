/** Calendar dates: the Y-m-d text that `validateDate` accepts
    (backend/utils/helpers.php), and the two steps PHP's
    `DateTime::modify` takes when a recurring series is generated
    ('+1 week' and '+1 month'). */
module Calendar {
  import opened Common

  datatype Date = Date(year: nat, month: nat, day: nat)

  /** Gregorian leap years. */
  predicate IsLeap(y: nat)
  {
    (y % 4 == 0 && y % 100 != 0) || y % 400 == 0
  }

  function DaysIn(y: nat, m: nat): (n: nat)
    requires 1 <= m <= 12
    ensures 28 <= n <= 31
  {
    if m == 2 then (if IsLeap(y) then 29 else 28)
    else if m == 4 || m == 6 || m == 9 || m == 11 then 30
    else 31
  }

  /** A real calendar date. */
  predicate Valid(d: Date)
  {
    1 <= d.month <= 12 && 1 <= d.day <= DaysIn(d.year, d.month)
  }

  /** The following day. */
  function NextDay(d: Date): (r: Date)
    requires Valid(d)
    ensures Valid(r)
  {
    if d.day < DaysIn(d.year, d.month) then Date(d.year, d.month, d.day + 1)
    else if d.month < 12 then Date(d.year, d.month + 1, 1)
    else Date(d.year + 1, 1, 1)
  }

  /** The date `n` days later. */
  function AddDays(d: Date, n: nat): (r: Date)
    requires Valid(d)
    ensures Valid(r)
    decreases n
  {
    if n == 0 then d else AddDays(NextDay(d), n - 1)
  }

  /** Adding days in two steps is adding their sum. */
  lemma {:induction false} AddDaysAdditive(d: Date, a: nat, b: nat)
    requires Valid(d)
    ensures AddDays(AddDays(d, a), b) == AddDays(d, a + b)
    decreases a
  {
    if a > 0 {
      AddDaysAdditive(NextDay(d), a - 1, b);
    }
  }

  /** `modify('+1 week')`. */
  function NextWeek(d: Date): (r: Date)
    requires Valid(d)
    ensures Valid(r)
  {
    AddDays(d, 7)
  }

  /** `modify('+1 month')`: the month advances and the day is kept; a day the
      new month does not have overflows into the month after it, so
      2024-01-31 becomes 2024-03-02. */
  function NextMonth(d: Date): (r: Date)
    requires Valid(d)
    ensures Valid(r)
  {
    var y := if d.month == 12 then d.year + 1 else d.year;
    var m := if d.month == 12 then 1 else d.month + 1;
    if d.day <= DaysIn(y, m) then Date(y, m, d.day)
    else
      var y' := if m == 12 then y + 1 else y;
      var m' := if m == 12 then 1 else m + 1;
      Date(y', m', d.day - DaysIn(y, m))
  }

  /** Months since the start of year 0, counting from 0. */
  function MonthIndex(d: Date): int
  {
    d.year * 12 + d.month - 1
  }

  /** From a day that every month has, '+1 month' keeps the day and moves to
      the next month exactly. */
  lemma NextMonthEarlyDay(d: Date)
    requires Valid(d) && d.day <= 28
    ensures NextMonth(d).day == d.day
    ensures MonthIndex(NextMonth(d)) == MonthIndex(d) + 1
  {
  }

  /** The overflow of '+1 month' from the last day of January. */
  lemma NextMonthOverflows()
    ensures NextMonth(Date(2024, 1, 31)) == Date(2024, 3, 2)
    ensures NextMonth(Date(2023, 1, 31)) == Date(2023, 3, 3)
    ensures NextMonth(NextMonth(Date(2024, 1, 31))) == Date(2024, 4, 2)
  {
    assert IsLeap(2024) && !IsLeap(2023);
  }

  // ---------------------------------------------------------------------
  // Y-m-d text

  /** The year as PHP's 'Y' prints it: at least four digits. */
  function YearText(y: nat): (r: string)
    ensures AllDigits(r)
    ensures y <= 9999 ==> |r| == 4
  {
    if y <= 9999 then
      [DigitChar(y / 1000), DigitChar(y / 100 % 10), DigitChar(y / 10 % 10), DigitChar(y % 10)]
    else NatText(y)
  }

  /** `format('Y-m-d')`. */
  function Format(d: Date): string
    requires Valid(d)
  {
    YearText(d.year) + "-" + TwoDigits(d.month) + "-" + TwoDigits(d.day)
  }

  /** Text with digits and dashes where Y-m-d puts them. */
  predicate Shaped(s: string)
  {
    |s| == 10 && AllDigits(s[..4]) && s[4] == '-' && IsDigit(s[5]) && IsDigit(s[6])
    && s[7] == '-' && IsDigit(s[8]) && IsDigit(s[9])
  }

  function Parse(s: string): Date
    requires Shaped(s)
  {
    Date(Num(s[..4]), Pair(s[5], s[6]), Pair(s[8], s[9]))
  }

  /** `validateDate`: the text parses as Y-m-d into a real date that prints
      back identically (so an overflowing day such as 2024-02-30 fails). */
  predicate ValidateDate(s: string)
  {
    Shaped(s) && Valid(Parse(s))
  }

  /** A valid date is plain text, which sanitizing leaves as it is. */
  lemma ValidDateIsPlain(s: string)
    ensures ValidateDate(s) ==> Plain(s)
  {
    if ValidateDate(s) {
      assert forall i :: 0 <= i < 4 ==> s[..4][i] == s[i];
    }
  }

  lemma FourDigits(s: string)
    requires |s| == 4 && AllDigits(s)
    ensures Num(s) == 1000 * DigitValue(s[0]) + 100 * DigitValue(s[1]) + 10 * DigitValue(s[2]) + DigitValue(s[3])
  {
    var s3, s2, s1 := s[..3], s[..2], s[..1];
    assert s3[..2] == s2 && s2[..1] == s1 && s1[..0] == [];
    assert Num(s1) == DigitValue(s[0]);
    assert Num(s2) == 10 * DigitValue(s[0]) + DigitValue(s[1]);
    assert Num(s3) == 100 * DigitValue(s[0]) + 10 * DigitValue(s[1]) + DigitValue(s[2]);
  }

  /** The four digits of a year below 10000. */
  lemma YearDigits(y: nat, a: nat, b: nat, c: nat, e: nat)
    requires a < 10 && b < 10 && c < 10 && e < 10
    requires y == 1000 * a + 100 * b + 10 * c + e
    ensures y / 1000 == a && y / 100 % 10 == b && y / 10 % 10 == c && y % 10 == e
  {
    assert y / 10 == 100 * a + 10 * b + c;
    assert y / 100 == 10 * a + b;
  }

  lemma YearSplit(y: nat)
    requires y <= 9999
    ensures y == 1000 * (y / 1000) + 100 * (y / 100 % 10) + 10 * (y / 10 % 10) + y % 10
  {
    var q1, r0 := y / 10, y % 10;
    var q2, r1 := q1 / 10, q1 % 10;
    var q3, r2 := q2 / 10, q2 % 10;
    assert y == 10 * q1 + r0 && q1 == 10 * q2 + r1 && q2 == 10 * q3 + r2;
    assert y == 1000 * q3 + 100 * r2 + 10 * r1 + r0;
    YearDigits(y, q3, r2, r1, r0);
  }

  /** A date `validateDate` accepts prints back as the same text. */
  lemma ValidatedDateReprints(s: string)
    requires ValidateDate(s)
    ensures Format(Parse(s)) == s
  {
    var p := s[..4];
    FourDigits(p);
    var y := Num(p);
    YearDigits(y, DigitValue(p[0]), DigitValue(p[1]), DigitValue(p[2]), DigitValue(p[3]));
    assert YearText(y) == [p[0], p[1], p[2], p[3]] == p;
    TwoDigitsOfPair(s[5], s[6]);
    TwoDigitsOfPair(s[8], s[9]);
    assert s == p + "-" + [s[5], s[6]] + "-" + [s[8], s[9]];
  }

  /** A real date with a four-digit year prints as text `validateDate`
      accepts, which parses back to the date. */
  lemma FormattedDateValidates(d: Date)
    requires Valid(d) && d.year <= 9999
    ensures ValidateDate(Format(d)) && Parse(Format(d)) == d
  {
    var s := Format(d);
    var p := YearText(d.year);
    assert s[..4] == p;
    FourDigits(p);
    YearSplit(d.year);
    assert s[5..7] == TwoDigits(d.month) && s[8..10] == TwoDigits(d.day);
  }

  /** `validateDate(s)` holds exactly when `s` is the Y-m-d text of a real
      date with a year of at most four digits. */
  lemma ValidateDateIsReprint(s: string)
    ensures ValidateDate(s) <==> exists d :: Valid(d) && d.year <= 9999 && Format(d) == s
  {
    if ValidateDate(s) {
      ValidatedDateReprints(s);
      FourDigits(s[..4]);
      assert Valid(Parse(s)) && Parse(s).year <= 9999 && Format(Parse(s)) == s;
    }
    if exists d :: Valid(d) && d.year <= 9999 && Format(d) == s {
      var d :| Valid(d) && d.year <= 9999 && Format(d) == s;
      FormattedDateValidates(d);
    }
  }

  /** The example of an overflowing day. */
  lemma LeapDayOverflowRefused()
    ensures ValidateDate("2024-02-29")
    ensures !ValidateDate("2024-02-30")
    ensures !ValidateDate("2023-02-29")
  {
    FourDigits("2024");
    FourDigits("2023");
  }
}
