/**
 * `_validate_cli_date`: `datetime.strptime(s, "%Y-%m-%d")`.
 *
 * Python's strptime matches the format as a regular expression: `%Y` is four
 * digits, `%m` is `1[0-2]|0[1-9]|[1-9]` and `%d` is
 * `3[01]|[12]\d|0[1-9]|[1-9]| [1-9]`, tried in that order; text left over
 * after the match is an error, and so is a date the calendar does not have.
 * So besides `2025-01-01` it accepts a one-digit month or day (`2025-1-5`)
 * and a day written as a space and a digit (`2025-01- 5`). Every failure is
 * reported with the same message.
 */
module CliDate {
  import opened Wrappers

  const FORMAT_ERROR := "Невірний формат дати. Очікується YYYY-MM-DD"

  datatype DateTime = DateTime(year: int, month: int, day: int, hour: int, minute: int, second: int)

  predicate IsDigit(c: char)
  {
    '0' <= c <= '9'
  }

  function DigitValue(c: char): (v: int)
    requires IsDigit(c)
    ensures 0 <= v <= 9
  {
    c as int - '0' as int
  }

  /** The value of a string of decimal digits. */
  function Number(digits: string): (n: nat)
    requires forall i :: 0 <= i < |digits| ==> IsDigit(digits[i])
  {
    if digits == [] then 0
    else 10 * Number(digits[..|digits| - 1]) + DigitValue(digits[|digits| - 1])
  }

  predicate IsLeapYear(year: int)
  {
    year % 4 == 0 && (year % 100 != 0 || year % 400 == 0)
  }

  function DaysInMonth(year: int, month: int): (days: int)
    requires 1 <= month <= 12
    ensures 28 <= days <= 31
    ensures month == 2 ==> (days == 29 <==> IsLeapYear(year))
    ensures month != 2 ==> (days == 30 <==> month in {4, 6, 9, 11})
  {
    if month == 2 then (if IsLeapYear(year) then 29 else 28)
    else if month in {4, 6, 9, 11} then 30
    else 31
  }

  /** A day of the proleptic Gregorian calendar that `datetime` can represent. */
  predicate ValidDate(year: int, month: int, day: int)
  {
    1 <= year <= 9999 && 1 <= month <= 12 && 1 <= day <= DaysInMonth(year, month)
  }

  /** The text `%m` accepts when a dash must follow it. */
  predicate MonthText(t: string)
  {
    || (|t| == 1 && '1' <= t[0] <= '9')
    || (|t| == 2 && t[0] == '0' && '1' <= t[1] <= '9')
    || (|t| == 2 && t[0] == '1' && '0' <= t[1] <= '2')
  }

  /**
   * The text `%d` accepts when nothing may follow it: the first alternative
   * that matches must take the whole text (so "32" fails: `[1-9]` takes the
   * "3" and leaves the "2").
   */
  predicate DayText(t: string)
  {
    || (|t| == 1 && '1' <= t[0] <= '9')
    || (|t| == 2 && t[0] == '3' && (t[1] == '0' || t[1] == '1'))
    || (|t| == 2 && (t[0] == '1' || t[0] == '2') && IsDigit(t[1]))
    || (|t| == 2 && t[0] == '0' && '1' <= t[1] <= '9')
    || (|t| == 2 && t[0] == ' ' && '1' <= t[1] <= '9')
  }

  /** The value of an accepted month text. */
  function MonthValue(t: string): (m: int)
    requires MonthText(t)
    ensures 1 <= m <= 12
  {
    if |t| == 1 then DigitValue(t[0]) else 10 * DigitValue(t[0]) + DigitValue(t[1])
  }

  /** The value of an accepted day text; `int(" 5")` ignores the space. */
  function DayValue(t: string): (d: int)
    requires DayText(t)
    ensures 1 <= d <= 31
  {
    if |t| == 1 then DigitValue(t[0])
    else if t[0] == ' ' then DigitValue(t[1])
    else 10 * DigitValue(t[0]) + DigitValue(t[1])
  }

  /** The index of the first dash at or after `from`, or |s| if there is none. */
  function FirstDash(s: string, from: nat): (k: nat)
    requires from <= |s|
    ensures from <= k <= |s|
    ensures k < |s| ==> s[k] == '-'
    ensures forall j :: from <= j < k ==> s[j] != '-'
    decreases |s| - from
  {
    if from == |s| || s[from] == '-' then from else FirstDash(s, from + 1)
  }

  /** `%Y-`: four digits and a dash open the string. */
  predicate YearPrefix(s: string)
  {
    |s| >= 5 && (forall i :: 0 <= i < 4 ==> IsDigit(s[i])) && s[4] == '-'
  }

  /** `_validate_cli_date`: the date at midnight, or the format error. */
  function ValidateCliDate(s: string): (r: Result<DateTime, string>)
    ensures r.Ok? ==> ValidDate(r.value.year, r.value.month, r.value.day)
    ensures r.Ok? ==> r.value.hour == 0 && r.value.minute == 0 && r.value.second == 0
    ensures r.Ok? ==> |s| >= 8 && s[4] == '-'
    ensures r.Ok? ==> (forall i :: 0 <= i < 4 ==> IsDigit(s[i])) && r.value.year == Number(s[..4])
    ensures r.Err? ==> r.error == FORMAT_ERROR
  {
    if !YearPrefix(s) then Err(FORMAT_ERROR)
    else
      var dash := FirstDash(s, 5);
      if dash == |s| || !MonthText(s[5..dash]) || !DayText(s[dash + 1..]) then Err(FORMAT_ERROR)
      else
        var year, month, day := Number(s[..4]), MonthValue(s[5..dash]), DayValue(s[dash + 1..]);
        if ValidDate(year, month, day) then Ok(DateTime(year, month, day, 0, 0, 0))
        else Err(FORMAT_ERROR)
  }

  /** Two digits, with a leading zero below ten. */
  function TwoDigits(n: int): (t: string)
    requires 0 <= n <= 99
    ensures |t| == 2
  {
    ['0' + (n / 10) as char, '0' + (n % 10) as char]
  }

  /** Four digits, with leading zeros. */
  function FourDigits(n: int): (t: string)
    requires 0 <= n <= 9999
    ensures |t| == 4
  {
    TwoDigits(n / 100) + TwoDigits(n % 100)
  }

  /** A date written the way the job's usage line asks: YYYY-MM-DD. */
  function IsoDate(year: int, month: int, day: int): (s: string)
    requires ValidDate(year, month, day)
    ensures |s| == 10
  {
    FourDigits(year) + "-" + TwoDigits(month) + "-" + TwoDigits(day)
  }

  /** One decimal digit. */
  function Digit(n: int): (c: char)
    requires 0 <= n <= 9
    ensures IsDigit(c) && DigitValue(c) == n
  {
    '0' + n as char
  }

  /** The ways `%m` takes a month before a dash: two digits, or one digit below ten. */
  predicate MonthRendering(t: string, month: int)
    requires 0 <= month <= 99
  {
    t == TwoDigits(month) || (month <= 9 && t == [Digit(month)])
  }

  /** The ways `%d` takes a day: two digits, or one digit below ten, alone or after a space. */
  predicate DayRendering(t: string, day: int)
    requires 0 <= day <= 99
  {
    t == TwoDigits(day) || (day <= 9 && (t == [Digit(day)] || t == [' ', Digit(day)]))
  }

  /** `s` is the four-digit year, a dash, the month and a dash and the day, each written in one of those ways. */
  predicate Renders(s: string, year: int, month: int, day: int)
  {
    && 0 <= year <= 9999 && 0 <= month <= 99 && 0 <= day <= 99
    && |s| >= 5 && s[..4] == FourDigits(year) && s[4] == '-'
    && exists k :: 5 <= k < |s| && s[k] == '-' && MonthRendering(s[5..k], month) && DayRendering(s[k + 1..], day)
  }

  lemma TwoDigitsValue(n: int)
    requires 0 <= n <= 99
    ensures forall i :: 0 <= i < 2 ==> IsDigit(TwoDigits(n)[i])
    ensures Number(TwoDigits(n)) == n
  {
    var t := TwoDigits(n);
    assert t[..1][..0] == [];
    assert Number(t[..1]) == DigitValue(t[0]);
  }

  lemma FourDigitsValue(n: int)
    requires 0 <= n <= 9999
    ensures forall i :: 0 <= i < 4 ==> IsDigit(FourDigits(n)[i])
    ensures Number(FourDigits(n)) == n
  {
    var hi, lo := TwoDigits(n / 100), TwoDigits(n % 100);
    TwoDigitsValue(n / 100);
    TwoDigitsValue(n % 100);
    var t := hi + lo;
    assert t[..3] == hi + lo[..1] && t[..2] == hi;
    assert Number(t[..2]) == n / 100;
    assert Number(t[..3]) == 10 * (n / 100) + DigitValue(lo[0]);
    assert Number(t) == 100 * (n / 100) + 10 * DigitValue(lo[0]) + DigitValue(lo[1]);
  }

  /** Every date the job can be asked for, written as YYYY-MM-DD, is accepted as that date at midnight. */
  lemma IsoDateAccepted(year: int, month: int, day: int)
    requires ValidDate(year, month, day)
    ensures ValidateCliDate(IsoDate(year, month, day)) == Ok(DateTime(year, month, day, 0, 0, 0))
  {
    var s := IsoDate(year, month, day);
    assert s[..4] == FourDigits(year) && s[4] == '-' && s[7] == '-';
    assert MonthRendering(s[5..7], month) && DayRendering(s[8..], day);
    RendersAccepted(s, year, month, day);
  }

  /** The cases of the date tests: an ISO date is midnight of that day; day-first and garbage are refused. */
  lemma ValidateCliDateExamples()
    ensures ValidateCliDate("2025-01-01") == Ok(DateTime(2025, 1, 1, 0, 0, 0))
    ensures ValidateCliDate("01-01-2025") == Err(FORMAT_ERROR)
    ensures ValidateCliDate("not-a-date") == Err(FORMAT_ERROR)
  {
    IsoDateAccepted(2025, 1, 1);
    assert IsoDate(2025, 1, 1) == "2025-01-01";
    assert !IsDigit("01-01-2025"[2]);
    assert !IsDigit("not-a-date"[0]);
  }

  lemma YearValues()
    ensures Number("2024") == 2024 && Number("2025") == 2025
  {
    assert "2024"[..3] == "202" && "2025"[..3] == "202";
    assert "202"[..2] == "20" && "20"[..1] == "2" && "2"[..0] == "";
  }

  /** strptime also takes a one-digit month and day, and a space before a one-digit day. */
  lemma ValidateCliDateShortFields()
    ensures ValidateCliDate("2025-1-5") == Ok(DateTime(2025, 1, 5, 0, 0, 0))
    ensures ValidateCliDate("2025-01- 5") == Ok(DateTime(2025, 1, 5, 0, 0, 0))
  {
    YearValues();
    assert FirstDash("2025-1-5", 5) == 6;
    assert "2025-1-5"[..4] == "2025" && "2025-1-5"[5..6] == "1" && "2025-1-5"[7..] == "5";
    assert FirstDash("2025-01- 5", 5) == 7;
    assert "2025-01- 5"[..4] == "2025" && "2025-01- 5"[5..7] == "01" && "2025-01- 5"[8..] == " 5";
  }

  /** February 29 exists only in leap years. */
  lemma ValidateCliDateLeapDay()
    ensures ValidateCliDate("2024-02-29") == Ok(DateTime(2024, 2, 29, 0, 0, 0))
    ensures ValidateCliDate("2025-02-29") == Err(FORMAT_ERROR)
  {
    YearValues();
    assert FirstDash("2024-02-29", 5) == 7;
    assert "2024-02-29"[..4] == "2024" && "2024-02-29"[5..7] == "02" && "2024-02-29"[8..] == "29";
    assert FirstDash("2025-02-29", 5) == 7;
    assert "2025-02-29"[..4] == "2025" && "2025-02-29"[5..7] == "02" && "2025-02-29"[8..] == "29";
  }

  /** A day such as 32 leaves a digit unconverted and is refused. */
  lemma ValidateCliDateDayOverflow()
    ensures ValidateCliDate("2025-01-32") == Err(FORMAT_ERROR)
  {
    assert FirstDash("2025-01-32", 5) == 7;
    assert "2025-01-32"[8..] == "32";
  }

  /** Two digit characters are the two-digit rendering of their value. */
  lemma TwoDigitsOf(t: string)
    requires |t| == 2 && IsDigit(t[0]) && IsDigit(t[1])
    ensures TwoDigits(10 * DigitValue(t[0]) + DigitValue(t[1])) == t
  {
    var n := 10 * DigitValue(t[0]) + DigitValue(t[1]);
    assert n / 10 == DigitValue(t[0]) && n % 10 == DigitValue(t[1]);
  }

  /** The value of four digit characters, as hundreds and a remainder. */
  lemma NumberOfFour(t: string)
    requires |t| == 4 && forall i :: 0 <= i < 4 ==> IsDigit(t[i])
    ensures Number(t) == 100 * (10 * DigitValue(t[0]) + DigitValue(t[1])) + (10 * DigitValue(t[2]) + DigitValue(t[3]))
  {
    assert t[..3][..2] == t[..2] && t[..2][..1] == t[..1] && t[..1][..0] == [];
    assert Number(t[..1]) == DigitValue(t[0]);
    assert Number(t[..2]) == 10 * DigitValue(t[0]) + DigitValue(t[1]);
    assert Number(t[..3]) == 10 * Number(t[..2]) + DigitValue(t[2]);
    assert Number(t) == 10 * Number(t[..3]) + DigitValue(t[3]);
  }

  lemma HundredsSplit(hi: int, lo: int)
    requires 0 <= hi <= 99 && 0 <= lo <= 99
    ensures (100 * hi + lo) / 100 == hi && (100 * hi + lo) % 100 == lo
  {
  }

  /** Four digit characters are the four-digit rendering of their value. */
  lemma FourDigitsOf(t: string)
    requires |t| == 4 && forall i :: 0 <= i < 4 ==> IsDigit(t[i])
    ensures Number(t) <= 9999 && FourDigits(Number(t)) == t
  {
    var hi, lo := t[..2], t[2..];
    NumberOfFour(t);
    HundredsSplit(10 * DigitValue(t[0]) + DigitValue(t[1]), 10 * DigitValue(t[2]) + DigitValue(t[3]));
    TwoDigitsOf(hi);
    TwoDigitsOf(lo);
    assert t == hi + lo;
  }

  /** An accepted string writes the date it is read as. */
  lemma ValidateCliDateRenders(s: string)
    ensures ValidateCliDate(s).Ok? ==>
              var v := ValidateCliDate(s).value; Renders(s, v.year, v.month, v.day)
  {
    if ValidateCliDate(s).Ok? {
      var v := ValidateCliDate(s).value;
      var dash := FirstDash(s, 5);
      assert YearPrefix(s) && dash < |s| && MonthText(s[5..dash]) && DayText(s[dash + 1..]);
      assert v.year == Number(s[..4]) && v.month == MonthValue(s[5..dash]) && v.day == DayValue(s[dash + 1..]);
      FourDigitsOf(s[..4]);
      MonthTextRendering(s[5..dash]);
      DayTextRendering(s[dash + 1..]);
    }
  }

  /** An accepted month text is one of the renderings of its value. */
  lemma MonthTextRendering(t: string)
    requires MonthText(t)
    ensures MonthRendering(t, MonthValue(t))
  {
    if |t| == 2 {
      TwoDigitsOf(t);
    } else {
      assert t == [Digit(MonthValue(t))];
    }
  }

  /** An accepted day text is one of the renderings of its value. */
  lemma DayTextRendering(t: string)
    requires DayText(t)
    ensures DayRendering(t, DayValue(t))
  {
    if |t| == 1 {
      assert t == [Digit(DayValue(t))];
    } else if t[0] == ' ' {
      assert t == [' ', Digit(DayValue(t))];
    } else {
      TwoDigitsOf(t);
    }
  }

  /** Every string that writes a calendar date in one of the accepted ways is read as that date at midnight. */
  lemma RendersAccepted(s: string, year: int, month: int, day: int)
    requires ValidDate(year, month, day) && Renders(s, year, month, day)
    ensures ValidateCliDate(s) == Ok(DateTime(year, month, day, 0, 0, 0))
  {
    var k :| 5 <= k < |s| && s[k] == '-' && MonthRendering(s[5..k], month) && DayRendering(s[k + 1..], day);
    FourDigitsValue(year);
    assert forall i :: 0 <= i < 4 ==> s[i] == s[..4][i];
    MonthRenderingRead(s[5..k], month);
    FirstDashAt(s, 5, k);
    DayRenderingRead(s[k + 1..], day);
    assert YearPrefix(s) && Number(s[..4]) == year;
  }

  /** The first dash after some digits is the dash that follows them. */
  lemma FirstDashAt(s: string, from: nat, k: nat)
    requires from <= k < |s| && s[k] == '-'
    requires forall i :: 0 <= i < k - from ==> IsDigit(s[from..k][i])
    ensures FirstDash(s, from) == k
  {
    assert forall j :: from <= j < k ==> s[j] == s[from..k][j - from];
  }

  /** A month written in an accepted way is read back as that month, and holds no dash. */
  lemma MonthRenderingRead(t: string, month: int)
    requires 1 <= month <= 12 && MonthRendering(t, month)
    ensures MonthText(t) && MonthValue(t) == month
    ensures forall i :: 0 <= i < |t| ==> IsDigit(t[i])
  {
    if t == TwoDigits(month) {
      assert month / 10 == 0 || month / 10 == 1;
    }
  }

  /** A day written in an accepted way is read back as that day. */
  lemma DayRenderingRead(t: string, day: int)
    requires 1 <= day <= 31 && DayRendering(t, day)
    ensures DayText(t) && DayValue(t) == day
  {
    if t == TwoDigits(day) {
      assert 0 <= day / 10 <= 3;
    }
  }

  /** strptime accepts exactly the strings that write a calendar date in one of the accepted ways. */
  lemma ValidateCliDateExact(s: string)
    ensures ValidateCliDate(s).Ok? <==> exists y, m, d :: ValidDate(y, m, d) && Renders(s, y, m, d)
  {
    ValidateCliDateRenders(s);
    if exists y, m, d :: ValidDate(y, m, d) && Renders(s, y, m, d) {
      var y, m, d :| ValidDate(y, m, d) && Renders(s, y, m, d);
      RendersAccepted(s, y, m, d);
    }
  }
}
