/**
 * Dates as text: the ten characters `toIsoDate` cuts from the platform's ISO rendering, the pattern
 * `fromIsoDate` accepts, and the two places where the platform bends a year.
 */
module IsoText {
  import opened Basics
  import opened Gregorian

  /** `Date.UTC` reads a year from 0 to 99 as 1900 to 1999 (section 21.4.3.4 of ECMA-262). */
  function UtcDate(y: int, m: int, d: int): int {
    MakeDay(if 0 <= y <= 99 then 1900 + y else y, m - 1, d)
  }

  function Digit(n: int): char
    requires 0 <= n <= 9
  {
    "0123456789"[n]
  }

  function TwoDigits(n: int): (s: string)
    requires 0 <= n <= 99
    ensures |s| == 2
  {
    [Digit(n / 10), Digit(n % 10)]
  }

  function FourDigits(n: int): (s: string)
    requires 0 <= n <= 9999
    ensures |s| == 4
  {
    TwoDigits(n / 100) + TwoDigits(n % 100)
  }

  /** Six digits of a year outside 0 to 9999; the platform's dates stop well inside a million years. */
  function SixDigits(n: int): (s: string)
    requires 0 <= n
    ensures |s| == 6
  {
    TwoDigits(n / 10000 % 100) + FourDigits(n % 10000)
  }

  /** `toISOString`, up to the day (section 21.4.1.32 of ECMA-262). */
  function IsoString(n: int): (s: string) {
    var c := CivilOf(n);
    var year := if c.year < 0 then "-" + SixDigits(-c.year)
                else if c.year <= 9999 then FourDigits(c.year)
                else "+" + SixDigits(c.year);
    year + "-" + TwoDigits(c.month) + "-" + TwoDigits(c.day)
  }

  function ToIsoDate(n: int): (s: string)
    ensures |s| == 10
  {
    IsoString(n)[..10]
  }

  predicate IsDigit(c: char) {
    '0' <= c <= '9'
  }

  function DigitValue(c: char): (n: int)
    requires IsDigit(c)
    ensures 0 <= n <= 9
  {
    c as int - '0' as int
  }

  /** The pattern of four, two and two digits that `fromIsoDate` and the rule editor both require. */
  predicate LooksIso(s: string) {
    |s| == 10 && s[4] == '-' && s[7] == '-'
    && IsDigit(s[0]) && IsDigit(s[1]) && IsDigit(s[2]) && IsDigit(s[3])
    && IsDigit(s[5]) && IsDigit(s[6]) && IsDigit(s[8]) && IsDigit(s[9])
  }

  /** The three numbers written in the text, whether or not they name a real date. */
  function Written(s: string): Civil
    requires LooksIso(s)
  {
    Civil(1000 * DigitValue(s[0]) + 100 * DigitValue(s[1]) + 10 * DigitValue(s[2]) + DigitValue(s[3]),
          10 * DigitValue(s[5]) + DigitValue(s[6]),
          10 * DigitValue(s[8]) + DigitValue(s[9]))
  }

  /** None is the source's "Not an ISO date" error; surrounding blanks are already trimmed. */
  function FromIsoDate(s: string): Option<int> {
    if LooksIso(s) then Some(UtcDate(Written(s).year, Written(s).month, Written(s).day)) else None
  }

  lemma DigitRoundTrip(n: int)
    requires 0 <= n <= 9
    ensures IsDigit(Digit(n)) && DigitValue(Digit(n)) == n
  {
  }

  /** The platform's year remapping is exactly what separates `Date.UTC` from plain calendar arithmetic. */
  lemma UtcDateRemap(y: int, m: int, d: int)
    ensures UtcDate(y, m, d) == MakeDay(y, m - 1, d) <==> !(0 <= y <= 99)
  {
    hide DayFromYear, DaysBeforeMonth;
    if 0 <= y <= 99 {
      MonthLater(y + (m - 1) / 12, (m - 1) % 12 + 1);
      assert 1900 + y + (m - 1) / 12 == y + (m - 1) / 12 + 1900;
    }
  }

  lemma MonthLater(y: int, m: int)
    requires 1 <= m <= 12
    ensures DayFromYear(y) + DaysBeforeMonth(y, m) < DayFromYear(y + 1900) + DaysBeforeMonth(y + 1900, m)
  {
    hide DayFromYear;
    YearsAscend(y, y + 1900);
    MonthTable(y);
  }

  lemma TwoDigitsRead(n: int)
    requires 0 <= n <= 99
    ensures IsDigit(TwoDigits(n)[0]) && IsDigit(TwoDigits(n)[1])
    ensures 10 * DigitValue(TwoDigits(n)[0]) + DigitValue(TwoDigits(n)[1]) == n
  {
    DigitRoundTrip(n / 10);
    DigitRoundTrip(n % 10);
  }

  /** For a four-digit year the text is all ten characters, in the accepted pattern, and reads back as written. */
  lemma TextOfFourDigitYear(n: int)
    requires 0 <= YearOf(n) <= 9999
    ensures LooksIso(ToIsoDate(n)) && Written(ToIsoDate(n)) == CivilOf(n)
  {
    hide SixDigits, CivilOf, YearOf;
    var c := CivilOf(n);
    TwoDigitsRead(c.year / 100);
    TwoDigitsRead(c.year % 100);
    TwoDigitsRead(c.month);
    TwoDigitsRead(c.day);
    var t := ToIsoDate(n);
    assert t == FourDigits(c.year) + "-" + TwoDigits(c.month) + "-" + TwoDigits(c.day);
    assert t[..2] == TwoDigits(c.year / 100) && t[2..4] == TwoDigits(c.year % 100);
    assert t[5..7] == TwoDigits(c.month) && t[8..] == TwoDigits(c.day);
    assert t[0] == t[..2][0] && t[1] == t[..2][1] && t[2] == t[2..4][0] && t[3] == t[2..4][1];
    assert t[5] == t[5..7][0] && t[6] == t[5..7][1] && t[8] == t[8..][0] && t[9] == t[8..][1];
  }

  lemma TextOfOtherYear(n: int)
    requires !(0 <= YearOf(n) <= 9999)
    ensures ToIsoDate(n)[0] == '+' || ToIsoDate(n)[0] == '-'
    ensures !LooksIso(ToIsoDate(n))
  {
    assert ToIsoDate(n)[0] == IsoString(n)[0];
  }

  /** Outside the four-digit years the ten characters stop at the month, so two days of a month collide. */
  lemma TextForgetsDay(n: int) returns (other: int)
    requires !(0 <= YearOf(n) <= 9999)
    ensures other != n && ToIsoDate(other) == ToIsoDate(n)
  {
    hide IsoString, SixDigits, TwoDigits, CivilOf;
    var c := CivilOf(n);
    var e := c.(day := if c.day == 1 then 2 else 1);
    other := DayNumber(e.year, e.month, e.day);
    DayRoundTrip(e);
    TextToTheMonth(n, c);
    TextToTheMonth(other, e);
  }

  lemma TextToTheMonth(n: int, c: Civil)
    requires c == CivilOf(n) && 1 <= c.month <= 12 && !(0 <= c.year <= 9999)
    ensures ToIsoDate(n) == [if c.year < 0 then '-' else '+']
                            + SixDigits(if c.year < 0 then -c.year else c.year) + "-" + TwoDigits(c.month)
  {
    hide SixDigits, CivilOf;
    assert IsoString(n) == [if c.year < 0 then '-' else '+']
                           + SixDigits(if c.year < 0 then -c.year else c.year)
                           + "-" + TwoDigits(c.month) + "-" + TwoDigits(c.day);
  }

  /**
   * Comparing two dates by their ISO text, as `isHoliday` and the roll do, is comparing the dates
   * exactly when the year has four digits.
   */
  lemma TextIdentifiesDay(n: int)
    ensures (forall k :: ToIsoDate(k) == ToIsoDate(n) ==> k == n) <==> 0 <= YearOf(n) <= 9999
  {
    if 0 <= YearOf(n) <= 9999 {
      forall k | ToIsoDate(k) == ToIsoDate(n)
        ensures k == n
      {
        TextOfFourDigitYear(n);
        if !(0 <= YearOf(k) <= 9999) {
          TextOfOtherYear(k);
        } else {
          TextOfFourDigitYear(k);
        }
      }
    } else {
      var other := TextForgetsDay(n);
    }
  }

  /** What `Date.UTC` gives for the numbers of a real date. */
  lemma UtcDateOfReal(n: int, c: Civil)
    requires c == CivilOf(n)
    ensures UtcDate(c.year, c.month, c.day) == n <==> !(0 <= c.year <= 99)
  {
    UtcDateRemap(c.year, c.month, c.day);
    assert c.year + (c.month - 1) / 12 == c.year && (c.month - 1) % 12 + 1 == c.month;
  }

  /** Writing a date and reading it back is the identity exactly on the years 100 to 9999. */
  lemma IsoRoundTrip(n: int)
    ensures FromIsoDate(ToIsoDate(n)) == Some(n) <==> 100 <= YearOf(n) <= 9999
  {
    if 0 <= YearOf(n) <= 9999 {
      TextOfFourDigitYear(n);
      UtcDateOfReal(n, CivilOf(n));
    } else {
      TextOfOtherYear(n);
    }
  }

  /**
   * The rule editor's test for a real date: text in the pattern survives being read and written again
   * exactly when its numbers name a date of the calendar in a year the platform does not remap.
   */
  lemma TextSurvives(s: string)
    requires LooksIso(s)
    ensures ToIsoDate(FromIsoDate(s).value) == s <==> ValidCivil(Written(s)) && 100 <= Written(s).year
  {
    var c := Written(s);
    if ValidCivil(c) && 100 <= c.year {
      RealTextSurvives(s, c);
    }
    var n := FromIsoDate(s).value;
    if ToIsoDate(n) == s {
      if !(0 <= YearOf(n) <= 9999) {
        TextOfOtherYear(n);
      }
      TextOfFourDigitYear(n);
      UtcDateOfReal(n, c);
    }
  }

  lemma RealTextSurvives(s: string, c: Civil)
    requires LooksIso(s) && c == Written(s) && ValidCivil(c) && 100 <= c.year
    ensures ToIsoDate(FromIsoDate(s).value) == s
  {
    var n := DayNumber(c.year, c.month, c.day);
    DayRoundTrip(c);
    UtcDateOfReal(n, c);
    TextOfFourDigitYear(n);
    SameDigits(s, ToIsoDate(n));
  }

  lemma SameDigits(s: string, t: string)
    requires LooksIso(s) && LooksIso(t) && Written(s) == Written(t)
    ensures s == t
  {
    var a, b := Written(s), Written(t);
    FourApart(DigitValue(s[0]), DigitValue(s[1]), DigitValue(s[2]), DigitValue(s[3]),
              DigitValue(t[0]), DigitValue(t[1]), DigitValue(t[2]), DigitValue(t[3]));
    assert s[0] == t[0] && s[1] == t[1] && s[2] == t[2] && s[3] == t[3];
    assert s[5] == t[5] && s[6] == t[6];
    assert s[8] == t[8] && s[9] == t[9];
  }

  /** Four decimal digits are determined by the number they write. */
  lemma FourApart(a: int, b: int, c: int, d: int, a': int, b': int, c': int, d': int)
    requires 0 <= a <= 9 && 0 <= b <= 9 && 0 <= c <= 9 && 0 <= d <= 9
    requires 0 <= a' <= 9 && 0 <= b' <= 9 && 0 <= c' <= 9 && 0 <= d' <= 9
    requires 1000 * a + 100 * b + 10 * c + d == 1000 * a' + 100 * b' + 10 * c' + d'
    ensures a == a' && b == b' && c == c' && d == d'
  {
  }
}
