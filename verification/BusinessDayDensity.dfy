/**
 * How densely business days lie on the calendar. The source steps from day to day with `while` loops
 * that carry no bound; these lemmas are what make those loops end.
 */
module BusinessDayDensity {
  import opened Gregorian
  import opened Holidays

  // ---------------------------------------------------------------- Counting

  /** How many days in [lo, hi) satisfy a predicate. */
  function Count(p: int -> bool, lo: int, hi: int): (c: nat)
    ensures lo <= hi ==> c <= hi - lo
    decreases hi - lo
  {
    if hi <= lo then 0 else Count(p, lo, hi - 1) + (if p(hi - 1) then 1 else 0)
  }

  lemma {:induction false} CountSplits(p: int -> bool, lo: int, mid: int, hi: int)
    requires lo <= mid <= hi
    ensures Count(p, lo, hi) == Count(p, lo, mid) + Count(p, mid, hi)
    decreases hi - mid
  {
    if mid < hi {
      CountSplits(p, lo, mid, hi - 1);
    }
  }

  lemma {:induction false} NoneCounted(p: int -> bool, lo: int, hi: int)
    requires forall k :: lo <= k < hi ==> !p(k)
    ensures Count(p, lo, hi) == 0
    decreases hi - lo
  {
    if lo < hi {
      NoneCounted(p, lo, hi - 1);
    }
  }

  // ---------------------------------------------------------------- A list of eleven holidays

  /** The least distances between neighbours, from one New Year's Day to the next. */
  predicate FarApart(h: seq<int>) {
    && |h| == 11
    && h[0] + 78 <= h[1] && h[1] + 25 <= h[2] && h[2] + 38 <= h[3] && h[3] + 62 <= h[4]
    && h[4] + 23 <= h[5] && h[5] + 8 <= h[6] && h[6] + 28 <= h[7] && h[7] + 44 <= h[8]
    && h[8] + 1 <= h[9] && h[9] + 6 <= h[10]
  }

  function Within(x: int, lo: int, hi: int): nat {
    if lo <= x < hi then 1 else 0
  }

  /** How many entries of a list of eleven lie in [lo, hi). */
  function Listed(h: seq<int>, lo: int, hi: int): nat
    requires |h| == 11
  {
    Within(h[0], lo, hi) + Within(h[1], lo, hi) + Within(h[2], lo, hi) + Within(h[3], lo, hi)
    + Within(h[4], lo, hi) + Within(h[5], lo, hi) + Within(h[6], lo, hi) + Within(h[7], lo, hi)
    + Within(h[8], lo, hi) + Within(h[9], lo, hi) + Within(h[10], lo, hi)
  }

  lemma WithinGrows(x: int, lo: int, hi: int)
    requires lo <= hi
    ensures Within(x, lo, hi + 1) == Within(x, lo, hi) + (if x == hi then 1 else 0)
  {
  }

  /** Lengthening the window by a day adds one for that day if it is listed, and never loses any. */
  lemma ListedGrows(h: seq<int>, lo: int, hi: int)
    requires |h| == 11 && lo <= hi
    ensures Listed(h, lo, hi + 1) >= Listed(h, lo, hi) + (if hi in h then 1 else 0)
  {
    forall i | 0 <= i < 11
      ensures Within(h[i], lo, hi + 1) == Within(h[i], lo, hi) + (if h[i] == hi then 1 else 0)
    {
      WithinGrows(h[i], lo, hi);
    }
    assert hi in h ==> h[0] == hi || h[1] == hi || h[2] == hi || h[3] == hi || h[4] == hi || h[5] == hi
                       || h[6] == hi || h[7] == hi || h[8] == hi || h[9] == hi || h[10] == hi;
  }

  /** Holidays never crowd: at most two in five days, at most three in three weeks. */
  lemma FewListed(h: seq<int>, lo: int)
    requires FarApart(h)
    ensures Listed(h, lo, lo + 5) <= 2
    ensures Listed(h, lo, lo + 21) <= 3
  {
  }

  /** Days of one kind that are all of another kind, except for listed ones. */
  lemma {:induction false} AllButListed(p: int -> bool, q: int -> bool, h: seq<int>, lo: int, hi: int)
    requires |h| == 11 && lo <= hi
    requires forall k :: lo <= k < hi && q(k) && !p(k) ==> k in h
    ensures Count(p, lo, hi) >= Count(q, lo, hi) - Listed(h, lo, hi)
    decreases hi - lo
  {
    if lo < hi {
      AllButListed(p, q, h, lo, hi - 1);
      ListedGrows(h, lo, hi - 1);
    }
  }

  // ---------------------------------------------------------------- The holidays of a year

  /** A year's holidays and the New Year's Day that follows them. */
  function HolidaysFrom(y: int): (h: seq<int>)
    ensures |h| == 11
  {
    FederalHolidays(y) + [DayFromYear(y + 1)]
  }

  lemma HolidaysFromAreFarApart(y: int)
    ensures FarApart(HolidaysFrom(y))
  {
    HolidaysAreSpaced(y);
    YearLength(y);
  }

  lemma HolidayOfYear(y: int, n: int)
    requires DayFromYear(y) <= n < DayFromYear(y + 1) && IsHoliday(n)
    ensures n in FederalHolidays(y)
  {
    YearOfIs(n, y);
  }

  lemma JanuaryOnly(y: int, n: int)
    requires n in FederalHolidays(y) && n < DayFromYear(y) + 21
    ensures n == DayFromYear(y)
  {
    HolidaysAreSpaced(y);
  }

  lemma Appended(h: seq<int>, last: int, n: int)
    requires n in h || n == last
    ensures n in h + [last]
  {
    assert (h + [last])[|h|] == last;
  }

  lemma ThreeWeeksReach(y: int, lo: int)
    requires lo < DayFromYear(y + 1)
    ensures lo + 21 < DayFromYear(y + 2)
  {
    YearLength(y + 1);
  }

  /** A holiday within three weeks is on the list of the year it is counted from, extended by one New Year. */
  lemma NearHolidayIsListed(y: int, lo: int, n: int)
    requires DayFromYear(y) <= lo < DayFromYear(y + 1) && lo <= n < lo + 21
    requires IsHoliday(n)
    ensures n in HolidaysFrom(y)
  {
    if n < DayFromYear(y + 1) {
      ListedThisYear(y, n);
    } else {
      ThreeWeeksReach(y, lo);
      ListedNextYear(y, n);
    }
  }

  lemma ListedThisYear(y: int, n: int)
    requires DayFromYear(y) <= n < DayFromYear(y + 1) && IsHoliday(n)
    ensures n in HolidaysFrom(y)
  {
    HolidayOfYear(y, n);
    Appended(FederalHolidays(y), DayFromYear(y + 1), n);
  }

  lemma ListedNextYear(y: int, n: int)
    requires DayFromYear(y + 1) <= n < DayFromYear(y + 2) && n < DayFromYear(y + 1) + 21 && IsHoliday(n)
    ensures n in HolidaysFrom(y)
  {
    NextYearsDay(y + 1, n);
    Appended(FederalHolidays(y), DayFromYear(y + 1), n);
  }

  lemma NextYearsDay(y: int, n: int)
    requires DayFromYear(y) <= n < DayFromYear(y + 1) && n < DayFromYear(y) + 21 && IsHoliday(n)
    ensures n == DayFromYear(y)
  {
    HolidayOfYear(y, n);
    JanuaryOnly(y, n);
  }

  predicate IsWeekday(n: int) {
    !IsWeekend(n)
  }

  /** Whether the weekday k days after a Sunday is one of Monday to Friday, within a fortnight. */
  predicate WorkingWeekday(k: int) {
    k != 0 && k != 6 && k != 7 && k != 13
  }

  lemma WeekdayAhead(n: int, i: int)
    requires 0 <= i <= 6
    ensures IsWeekday(n + i) == WorkingWeekday(Weekday(n) + i)
  {
    assert Weekday(n + i) == if Weekday(n) + i < 7 then Weekday(n) + i else Weekday(n) + i - 7;
  }

  lemma PatternCounts(p: int -> bool, lo: int, w: int)
    requires 0 <= w <= 6
    requires forall n {:trigger p(n)} :: lo <= n < lo + 7 ==> p(n) == WorkingWeekday(w + (n - lo))
    ensures Count(p, lo, lo + 5) >= 3
    ensures Count(p, lo, lo + 7) == 5
  {
    CountOne(p, lo, lo + 0);
    CountOne(p, lo, lo + 1);
    CountOne(p, lo, lo + 2);
    CountOne(p, lo, lo + 3);
    CountOne(p, lo, lo + 4);
    CountOne(p, lo, lo + 5);
    CountOne(p, lo, lo + 6);
  }

  lemma WeekdayCounts(lo: int)
    ensures Count(IsWeekday, lo, lo + 5) >= 3
    ensures Count(IsWeekday, lo, lo + 7) == 5
  {
    forall n | lo <= n < lo + 7
      ensures IsWeekday(n) == WorkingWeekday(Weekday(lo) + (n - lo))
    {
      WeekdayAhead(lo, n - lo);
    }
    PatternCounts(IsWeekday, lo, Weekday(lo));
  }

  lemma CountOne(p: int -> bool, lo: int, n: int)
    requires lo <= n
    ensures Count(p, lo, n + 1) == Count(p, lo, n) + (if p(n) then 1 else 0)
  {
  }

  /** The two halves of a count. */
  lemma {:induction false} CountParts(p: int -> bool, q: int -> bool, r: int -> bool, lo: int, hi: int)
    requires lo <= hi
    requires forall k | lo <= k < hi :: (q(k) <==> p(k) || r(k)) && !(p(k) && r(k))
    ensures Count(p, lo, hi) == Count(q, lo, hi) - Count(r, lo, hi)
    decreases hi - lo
  {
    if lo < hi {
      CountParts(p, q, r, lo, hi - 1);
    }
  }

  /** Every day on the extended list is a holiday. */
  lemma ListedIsHoliday(y: int, n: int)
    requires n in HolidaysFrom(y)
    ensures IsHoliday(n)
  {
    hide FederalHolidays, IsHoliday, DayFromYear, YearOf;
    if n in FederalHolidays(y) {
      HolidaysStayInTheirYear(y);
    } else {
      HolidaysStayInTheirYear(y + 1);
      NewYearIsListed(y + 1);
    }
  }

  lemma NewYearIsListed(y: int)
    ensures DayFromYear(y) in FederalHolidays(y)
  {
    hide FederalHolidays;
    HolidaysAreSpaced(y);
    assert FederalHolidays(y)[0] in FederalHolidays(y);
  }

  /** Of the days of a window, the weekdays that are on a list. */
  function WeekdaysListed(h: seq<int>, lo: int, hi: int): nat {
    Count((n: int) => IsWeekday(n) && n in h, lo, hi)
  }

  /**
   * Business days in a window of up to three weeks are exactly its weekdays less those on the holiday list of the
   * year it starts in, extended by the New Year's Day that follows.
   */
  lemma WeekdaysMinusHolidays(lo: int, hi: int) returns (h: seq<int>)
    requires lo <= hi <= lo + 21
    ensures h == HolidaysFrom(YearOf(lo)) && FarApart(h)
    ensures Count(IsBusinessDay, lo, hi) == Count(IsWeekday, lo, hi) - WeekdaysListed(h, lo, hi)
    ensures Count(IsBusinessDay, lo, hi) >= Count(IsWeekday, lo, hi) - Listed(h, lo, hi)
  {
    hide FarApart, Listed, FederalHolidays, HolidaysFrom, IsWeekday;
    var y := YearOf(lo);
    YearOfIs(lo, y);
    h := HolidaysFrom(y);
    HolidaysFromAreFarApart(y);
    var listed := (n: int) => IsWeekday(n) && n in h;
    forall k | lo <= k < hi
      ensures (IsWeekday(k) <==> IsBusinessDay(k) || listed(k)) && !(IsBusinessDay(k) && listed(k))
    {
      BusinessOrListed(y, lo, k);
    }
    CountParts(IsBusinessDay, IsWeekday, listed, lo, hi);
    AllButListed(IsBusinessDay, IsWeekday, h, lo, hi);
  }

  lemma BusinessOrListed(y: int, lo: int, n: int)
    requires DayFromYear(y) <= lo < DayFromYear(y + 1) && lo <= n < lo + 21
    ensures IsBusinessDay(n) <==> IsWeekday(n) && n !in HolidaysFrom(y)
  {
    hide IsHoliday, HolidaysFrom;
    if IsHoliday(n) {
      NearHolidayIsListed(y, lo, n);
    }
    if n in HolidaysFrom(y) {
      ListedIsHoliday(y, n);
    }
  }

  /** Any five consecutive days contain a business day, across every year boundary. */
  lemma FiveDaysHoldOne(lo: int)
    ensures Count(IsBusinessDay, lo, lo + 5) >= 1
    ensures exists k :: lo <= k < lo + 5 && IsBusinessDay(k)
  {
    hide IsBusinessDay, IsWeekday, Listed, FarApart;
    var h := WeekdaysMinusHolidays(lo, lo + 5);
    FewListed(h, lo);
    WeekdayCounts(lo);
    if forall k :: lo <= k < lo + 5 ==> !IsBusinessDay(k) {
      NoneCounted(IsBusinessDay, lo, lo + 5);
    }
  }

  /** Any three weeks contain at least twelve business days. */
  lemma ThreeWeeksHoldTwelve(lo: int)
    ensures Count(IsBusinessDay, lo, lo + 21) >= 12
  {
    hide IsBusinessDay, IsWeekday, Listed, FarApart;
    var h := WeekdaysMinusHolidays(lo, lo + 21);
    FewListed(h, lo);
    WeekdayCounts(lo);
    WeekdayCounts(lo + 7);
    WeekdayCounts(lo + 14);
    CountSplits(IsWeekday, lo, lo + 7, lo + 14);
    CountSplits(IsWeekday, lo, lo + 14, lo + 21);
  }
}
