/**
 * `validateDate` of the server-backed front end: it builds
 * `new Date(year, month - 1, day)` and accepts the fields only when the date
 * reads back as the same year, month and day. The Date constructor's day
 * arithmetic is modelled by walking whole months of the proleptic Gregorian
 * calendar; the lemmas show that validateDate accepts exactly the real calendar dates
 * of years 100 and later.
 */
module Calendar {
  import opened DateFields

  predicate IsLeapYear(y: int)
  {
    y % 4 == 0 && (y % 100 != 0 || y % 400 == 0)
  }

  /** Days in month `m` (1..12) of year `y`. */
  function DaysInMonth(y: int, m: int): (n: int)
    requires 1 <= m <= 12
    ensures 28 <= n <= 31
    ensures n == 29 <==> m == 2 && IsLeapYear(y)
    ensures n == 28 <==> m == 2 && !IsLeapYear(y)
  {
    if m == 2 then (if IsLeapYear(y) then 29 else 28)
    else if m == 4 || m == 6 || m == 9 || m == 11 then 30
    else 31
  }

  /** The reference definition: a real Gregorian calendar date. */
  predicate IsCalendarDate(y: int, m: int, d: int)
  {
    1 <= m <= 12 && 1 <= d <= DaysInMonth(y, m)
  }

  /**
   * The calendar date that lies `d - 1` days after the first day of month
   * `mi` (0-based, as in JavaScript) of year `y`, as a (year, month index, day)
   * triple: days below 1 borrow from the preceding months, days beyond the
   * month's length carry into the following ones.
   */
  function Roll(y: int, mi: int, d: int): (r: (int, int, int))
    requires 0 <= mi <= 11
    ensures 0 <= r.1 <= 11 && IsCalendarDate(r.0, r.1 + 1, r.2)
    ensures 1 <= d <= DaysInMonth(y, mi + 1) ==> r == (y, mi, d)
    decreases if d < 1 then 1 - d else 0, if d < 1 then 0 else d
  {
    if d < 1 then
      var py, pm := if mi == 0 then y - 1 else y, if mi == 0 then 11 else mi - 1;
      Roll(py, pm, d + DaysInMonth(py, pm + 1))
    else if d > DaysInMonth(y, mi + 1) then
      var ny, nm := if mi == 11 then y + 1 else y, if mi == 11 then 0 else mi + 1;
      Roll(ny, nm, d - DaysInMonth(y, mi + 1))
    else (y, mi, d)
  }

  /** The Date constructor reads a year in 0..99 as 1900 plus that year. */
  function FullYear(year: int): int
  {
    if 0 <= year <= 99 then 1900 + year else year
  }

  /** `new Date(year, monthIndex, day)` read back through getFullYear, getMonth and getDate. */
  function DateParts(year: int, monthIndex: int, day: int): (r: (int, int, int))
    ensures 0 <= r.1 <= 11 && IsCalendarDate(r.0, r.1 + 1, r.2)
  {
    Roll(FullYear(year) + monthIndex / 12, monthIndex % 12, day)
  }

  /** A field value the keystroke handlers can leave behind: at most `width` digits. */
  predicate Masked(s: string, width: nat)
  {
    IsDigits(s) && |s| <= width
  }

  /** `validateDate`: true when a field is still empty, otherwise true exactly when
      the constructed Date reads back as the typed year, month and day. */
  function ValidateDate(month: string, day: string, year: string): (valid: bool)
    requires Masked(month, 2) && Masked(day, 2) && Masked(year, 4)
    ensures month == [] || day == [] || year == [] ==> valid
    ensures valid && month != [] && day != [] && year != [] ==> Value(month) >= 1 && Value(day) >= 1
  {
    if month != [] && day != [] && year != [] then
      var m, d, y := Value(month), Value(day), Value(year);
      DateParts(y, m - 1, d) == (y, m - 1, d)
    else true
  }

  // ---------------------------------------------------------------------
  // validateDate is the calendar-date predicate
  // ---------------------------------------------------------------------

  /** Carrying days forward never moves to an earlier year. */
  lemma {:induction false} RollNeverEarlier(y: int, mi: int, d: int)
    requires 0 <= mi <= 11 && d >= 1
    ensures Roll(y, mi, d).0 >= y
    decreases d
  {
    if d > DaysInMonth(y, mi + 1) {
      var ny, nm := if mi == 11 then y + 1 else y, if mi == 11 then 0 else mi + 1;
      RollNeverEarlier(ny, nm, d - DaysInMonth(y, mi + 1));
    }
  }

  /** Day 0 borrows one month at most, so it lands no earlier than the year before. */
  lemma RollFromDayZero(y: int, mi: int, d: int)
    requires 0 <= mi <= 11 && d >= 0
    ensures Roll(y, mi, d).0 >= y - 1
  {
    if d < 1 {
      var py, pm := if mi == 0 then y - 1 else y, if mi == 0 then 11 else mi - 1;
      RollNeverEarlier(py, pm, d + DaysInMonth(py, pm + 1));
    } else {
      RollNeverEarlier(y, mi, d);
    }
  }

  /** `new Date(y, m - 1, d)` reads back as `y`, `m - 1`, `d` exactly when the
      triple is a Gregorian calendar date of a year 100 or later. */
  lemma DatePartsReadBack(y: int, m: int, d: int)
    requires y >= 0 && m >= 0 && d >= 0
    ensures DateParts(y, m - 1, d) == (y, m - 1, d) <==> y >= 100 && IsCalendarDate(y, m, d)
  {
    var r := DateParts(y, m - 1, d);
    if y < 100 {
      assert FullYear(y) == 1900 + y;
      assert (m - 1) / 12 >= -1;
      RollFromDayZero(FullYear(y) + (m - 1) / 12, (m - 1) % 12, d);
      assert r.0 != y;
    } else if 1 <= m <= 12 {
      assert (m - 1) / 12 == 0 && (m - 1) % 12 == m - 1;
    }
  }

  /** With all three fields filled in, validateDate accepts exactly the Gregorian
      calendar dates whose year is at least 100 (years 0..99 are read as 19xx). */
  lemma ValidateDateIsCalendarCheck(month: string, day: string, year: string)
    requires Masked(month, 2) && Masked(day, 2) && Masked(year, 4)
    requires month != [] && day != [] && year != []
    ensures ValidateDate(month, day, year) <==>
      Value(year) >= 100 && IsCalendarDate(Value(year), Value(month), Value(day))
  {
    var m: int, d: int, y: int := Value(month), Value(day), Value(year);
    DatePartsReadBack(y, m, d);
    assert ValidateDate(month, day, year) == (DateParts(y, m - 1, d) == (y, m - 1, d));
  }

  /** 31 February and month 13 are refused. */
  lemma RefusesFebruary31()
    ensures !ValidateDate("02", "31", "2023")
  {
    ShortValues("02");
    ShortValues("31");
    ValidateDateIsCalendarCheck("02", "31", "2023");
  }

  lemma RefusesMonth13()
    ensures !ValidateDate("13", "01", "2023")
  {
    ShortValues("13");
    ValidateDateIsCalendarCheck("13", "01", "2023");
  }

  /** 28 February 2023 and 29 February 2024 are accepted. */
  lemma AcceptsFebruary28()
    ensures ValidateDate("02", "28", "2023")
  {
    ShortValues("02");
    ShortValues("28");
    YearValue("2023", 2023);
    ValidateDateIsCalendarCheck("02", "28", "2023");
  }

  lemma AcceptsLeapDay()
    ensures ValidateDate("02", "29", "2024")
  {
    ShortValues("02");
    ShortValues("29");
    YearValue("2024", 2024);
    assert IsLeapYear(2024);
    ValidateDateIsCalendarCheck("02", "29", "2024");
  }

  lemma YearValue(s: string, n: nat)
    requires |s| == 4 && IsDigits(s)
    requires n == 1000 * DigitValue(s[0]) + 100 * DigitValue(s[1]) + 10 * DigitValue(s[2]) + DigitValue(s[3])
    ensures Value(s) == n
  {
    assert s[..3][..2] == s[..2];
    assert s[..2][..1] == s[..1];
    assert s[..1][..0] == [];
    assert Value(s[..1]) == DigitValue(s[0]);
    assert Value(s[..2]) == 10 * DigitValue(s[0]) + DigitValue(s[1]);
    assert Value(s[..3]) == 100 * DigitValue(s[0]) + 10 * DigitValue(s[1]) + DigitValue(s[2]);
  }
}
