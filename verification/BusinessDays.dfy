/**
 * Stepping by days of one kind, for any kind that recurs at least every five days. Nothing here looks
 * at what makes a day a business day; `BusinessDays` supplies that.
 */
module Stepping {
  import opened BusinessDayDensity

  predicate SoonAfter(p: int -> bool, lo: int) {
    p(lo) || p(lo + 1) || p(lo + 2) || p(lo + 3) || p(lo + 4)
  }

  ghost predicate Dense(p: int -> bool) {
    forall lo :: SoonAfter(p, lo)
  }

  /** The first day of the kind on or after d. */
  function Next(p: int -> bool, d: int): (r: int)
    requires Dense(p)
    ensures d <= r <= d + 4 && p(r)
    ensures forall k :: d <= k < r ==> !p(k)
  {
    assert SoonAfter(p, d);
    if p(d) then d else if p(d + 1) then d + 1 else if p(d + 2) then d + 2 else if p(d + 3) then d + 3 else d + 4
  }

  /** The last day of the kind on or before d. */
  function Previous(p: int -> bool, d: int): (r: int)
    requires Dense(p)
    ensures d - 4 <= r <= d && p(r)
    ensures forall k :: r < k <= d ==> !p(k)
  {
    assert SoonAfter(p, d - 4);
    if p(d) then d else if p(d - 1) then d - 1 else if p(d - 2) then d - 2 else if p(d - 3) then d - 3 else d - 4
  }

  /** n days of the kind strictly after d, or before d when n is negative. */
  function Step(p: int -> bool, d: int, n: int): int
    requires Dense(p)
    decreases if n < 0 then -n else n
  {
    if n == 0 then d
    else if n > 0 then Step(p, Next(p, d + 1), n - 1)
    else Step(p, Previous(p, d - 1), n + 1)
  }

  /** The nth day of the kind after d: it is one, and the half-open interval up to it holds n of them. */
  ghost predicate IsNthAfter(p: int -> bool, d: int, n: int, r: int) {
    d < r && p(r) && Count(p, d + 1, r + 1) == n
  }

  ghost predicate IsNthBefore(p: int -> bool, d: int, n: int, r: int) {
    r < d && p(r) && Count(p, r, d) == n
  }

  lemma OneUpTo(p: int -> bool, lo: int, r: int)
    requires lo <= r && p(r)
    requires forall k :: lo <= k < r ==> !p(k)
    ensures Count(p, lo, r + 1) == 1
  {
    NoneCounted(p, lo, r);
  }

  lemma OneFrom(p: int -> bool, r: int, hi: int)
    requires r < hi && p(r)
    requires forall k :: r < k < hi ==> !p(k)
    ensures Count(p, r, hi) == 1
  {
    CountSplits(p, r, r + 1, hi);
    NoneCounted(p, r + 1, hi);
    assert Count(p, r, r + 1) == Count(p, r, r) + 1;
  }

  lemma {:induction false} StepForwardCounts(p: int -> bool, d: int, n: int)
    requires Dense(p) && n > 0
    ensures IsNthAfter(p, d, n, Step(p, d, n))
    decreases n
  {
    var first := Next(p, d + 1);
    OneUpTo(p, d + 1, first);
    if n > 1 {
      StepForwardCounts(p, first, n - 1);
      CountSplits(p, d + 1, first + 1, Step(p, d, n) + 1);
    }
  }

  lemma {:induction false} StepBackwardCounts(p: int -> bool, d: int, n: int)
    requires Dense(p) && n > 0
    ensures IsNthBefore(p, d, n, Step(p, d, -n))
    decreases n
  {
    var first := Previous(p, d - 1);
    OneFrom(p, first, d);
    if n > 1 {
      StepBackwardCounts(p, first, n - 1);
      CountSplits(p, Step(p, d, -n), first, d);
    }
  }

  lemma NthAfterUnique(p: int -> bool, d: int, n: int, r: int, s: int)
    requires IsNthAfter(p, d, n, r) && IsNthAfter(p, d, n, s)
    ensures r == s
  {
    if r < s {
      CountSplits(p, d + 1, r + 1, s);
    } else if s < r {
      CountSplits(p, d + 1, s + 1, r);
    }
  }

  lemma CountsItsFirst(p: int -> bool, lo: int, hi: int)
    requires lo < hi && p(lo)
    ensures Count(p, lo, hi) == Count(p, lo + 1, hi) + 1
  {
    CountSplits(p, lo, lo + 1, hi);
    assert Count(p, lo, lo + 1) == Count(p, lo, lo) + 1;
  }

  lemma NthBeforeUnique(p: int -> bool, d: int, n: int, r: int, s: int)
    requires IsNthBefore(p, d, n, r) && IsNthBefore(p, d, n, s)
    ensures r == s
  {
    CountsItsFirst(p, r, d);
    CountsItsFirst(p, s, d);
    if r < s {
      CountSplits(p, r + 1, s, d);
    } else if s < r {
      CountSplits(p, s + 1, r, d);
    }
  }

  /** Steps in the same direction compose by addition. */
  lemma {:induction false} StepsAdd(p: int -> bool, d: int, m: int, n: int)
    requires Dense(p)
    requires (m >= 0 && n >= 0) || (m <= 0 && n <= 0)
    ensures Step(p, Step(p, d, m), n) == Step(p, d, m + n)
    decreases if m < 0 then -m else m
  {
    hide Next, Previous, Dense;
    if m > 0 {
      StepsAdd(p, Next(p, d + 1), m - 1, n);
      assert m - 1 + n == m + n - 1;
    } else if m < 0 {
      StepsAdd(p, Previous(p, d - 1), m + 1, n);
      assert m + 1 + n == m + n + 1;
    }
  }

  lemma {:induction false} StepLands(p: int -> bool, d: int, n: int)
    requires Dense(p) && n != 0
    ensures p(Step(p, d, n))
    decreases if n < 0 then -n else n
  {
    if n > 1 {
      StepLands(p, Next(p, d + 1), n - 1);
    } else if n < -1 {
      StepLands(p, Previous(p, d - 1), n + 1);
    }
  }

  lemma AfterAndBefore(p: int -> bool, d: int)
    requires Dense(p) && p(d)
    ensures Previous(p, Next(p, d + 1) - 1) == d
    ensures Next(p, Previous(p, d - 1) + 1) == d
  {
  }

  lemma {:induction false} ForwardAndBack(p: int -> bool, d: int, n: int)
    requires Dense(p) && p(d) && n >= 0
    ensures Step(p, Step(p, d, n), -n) == d
    decreases n
  {
    hide Next, Previous, Dense;
    if n > 0 {
      var e := Next(p, d + 1);
      var far := Step(p, e, n - 1);
      ForwardAndBack(p, e, n - 1);
      StepsAdd(p, far, -(n - 1), -1);
      SingleStep(p, e);
      AfterAndBefore(p, d);
    }
  }

  lemma {:induction false} BackAndForward(p: int -> bool, d: int, n: int)
    requires Dense(p) && p(d) && n >= 0
    ensures Step(p, Step(p, d, -n), n) == d
    decreases n
  {
    hide Next, Previous, Dense;
    if n > 0 {
      var e := Previous(p, d - 1);
      var far := Step(p, e, -(n - 1));
      BackAndForward(p, e, n - 1);
      StepsAdd(p, far, n - 1, 1);
      SingleStep(p, e);
      AfterAndBefore(p, d);
    }
  }

  lemma SingleStep(p: int -> bool, d: int)
    requires Dense(p)
    ensures Step(p, d, 1) == Next(p, d + 1)
    ensures Step(p, d, -1) == Previous(p, d - 1)
  {
    assert Step(p, Next(p, d + 1), 0) == Next(p, d + 1);
    assert Step(p, Previous(p, d - 1), 0) == Previous(p, d - 1);
  }

  /** Stepping away and back returns exactly the days of the kind (and everything, for no steps). */
  lemma StepInverse(p: int -> bool, d: int, n: int)
    requires Dense(p)
    ensures Step(p, Step(p, d, n), -n) == d <==> n == 0 || p(d)
  {
    if p(d) {
      if n >= 0 {
        ForwardAndBack(p, d, n);
      } else {
        BackAndForward(p, d, -n);
      }
    } else if n != 0 {
      StepLands(p, Step(p, d, n), -n);
    }
  }

  lemma {:induction false} StepMonotone(p: int -> bool, d: int, e: int, n: int)
    requires Dense(p) && d <= e
    ensures Step(p, d, n) <= Step(p, e, n)
    decreases if n < 0 then -n else n
  {
    if n > 0 {
      StepMonotone(p, Next(p, d + 1), Next(p, e + 1), n - 1);
    } else if n < 0 {
      StepMonotone(p, Previous(p, d - 1), Previous(p, e - 1), n + 1);
    }
  }

  /** How far the next day of the kind is, in the direction of travel. */
  function Gap(p: int -> bool, d: int, forward: bool): nat
    requires Dense(p)
  {
    if forward then Next(p, d + 1) - d else d - Previous(p, d - 1)
  }

  /** One turn of the stepping loop: it either spends a step, or comes a day nearer to spending one. */
  lemma LoopTurn(p: int -> bool, d: int, n: int, e: int, left: int)
    requires Dense(p) && n != 0
    requires e == if n > 0 then d + 1 else d - 1
    requires left == if !p(e) then n else if n > 0 then n - 1 else n + 1
    ensures Step(p, d, n) == Step(p, e, left)
    ensures p(e) || Gap(p, e, n > 0) < Gap(p, d, n > 0)
  {
  }

  /** If enough days of the kind lie in [lo, d), stepping back by n stays there. */
  lemma StepBackWithin(p: int -> bool, d: int, n: int, lo: int)
    requires Dense(p) && n > 0 && lo <= d && Count(p, lo, d) >= n
    ensures lo <= Step(p, d, -n) < d
  {
    StepBackwardCounts(p, d, n);
    var r := Step(p, d, -n);
    if r < lo {
      CountsItsFirst(p, r, d);
      CountSplits(p, r + 1, lo, d);
    }
  }
}

/** The two business-day loops of the calendar, proved against `Stepping`. */
module BusinessDays {
  import opened Gregorian
  import opened Holidays
  import opened BusinessDayDensity
  import opened Stepping

  lemma BusinessDaysAreDense()
    ensures Dense(IsBusinessDay)
  {
    hide IsBusinessDay;
    forall lo
      ensures SoonAfter(IsBusinessDay, lo)
    {
      FiveDaysHoldOne(lo);
      var k :| lo <= k < lo + 5 && IsBusinessDay(k);
      assert k == lo || k == lo + 1 || k == lo + 2 || k == lo + 3 || k == lo + 4;
    }
  }

  function BusinessDaysFrom(d: int, n: int): int {
    BusinessDaysAreDense();
    Step(IsBusinessDay, d, n)
  }

  function RollForward(d: int): (r: int)
    ensures d <= r <= d + 4
  {
    BusinessDaysAreDense();
    Next(IsBusinessDay, d)
  }

  /** `addBusinessDays`: the loop ends, on the |count|th business day strictly after or before the date. */
  method AddBusinessDays(date: int, count: int) returns (current: int)
    ensures current == BusinessDaysFrom(date, count)
    ensures count > 0 ==> IsNthAfter(IsBusinessDay, date, count, current)
    ensures count < 0 ==> IsNthBefore(IsBusinessDay, date, -count, current)
    ensures count == 0 ==> current == date
  {
    hide IsBusinessDay;
    BusinessDaysAreDense();
    current := date;
    var remaining := if count < 0 then -count else count;
    var step := if count >= 0 then 1 else -1;
    ghost var left := count;
    while remaining > 0
      invariant remaining == if count >= 0 then left else -left
      invariant remaining >= 0
      invariant Step(IsBusinessDay, current, left) == Step(IsBusinessDay, date, count)
      decreases remaining, Gap(IsBusinessDay, current, count >= 0)
    {
      ghost var was, wasLeft := current, left;
      current := current + step;
      if IsBusinessDay(current) {
        remaining := remaining - 1;
        left := left - step;
      }
      LoopTurn(IsBusinessDay, was, wasLeft, current, left);
    }
    assert left == 0;
    if count != 0 {
      BusinessDaysFromIsExact(date, count, current);
    }
  }

  /** `nextBusinessDay`: the first business day on or after the date, at most four days on. */
  method NextBusinessDay(date: int) returns (current: int)
    ensures current == RollForward(date)
    ensures date <= current <= date + 4 && IsBusinessDay(current)
    ensures forall k :: date <= k < current ==> !IsBusinessDay(k)
  {
    hide IsBusinessDay;
    BusinessDaysAreDense();
    current := date;
    while !IsBusinessDay(current)
      invariant date <= current <= Next(IsBusinessDay, date)
      invariant forall k :: date <= k < current ==> !IsBusinessDay(k)
      decreases Next(IsBusinessDay, date) - current
    {
      current := current + 1;
    }
  }

  /** The engine's way of rolling, one business day on from the day before, is the same roll. */
  lemma RollIsOneFromTheDayBefore(r: int)
    ensures BusinessDaysFrom(r - 1, 1) == RollForward(r)
    ensures RollForward(r) == r <==> IsBusinessDay(r)
  {
    hide IsBusinessDay;
    BusinessDaysAreDense();
    assert Step(IsBusinessDay, r - 1, 1) == Step(IsBusinessDay, Next(IsBusinessDay, r), 0);
  }

  lemma RollMonotone(d: int, e: int)
    requires d <= e
    ensures RollForward(d) <= RollForward(e)
  {
    BusinessDaysAreDense();
  }

  /** The result is the only day with the defining property, in either direction. */
  lemma BusinessDaysFromIsExact(d: int, n: int, r: int)
    requires n != 0
    ensures r == BusinessDaysFrom(d, n) <==>
            if n > 0 then IsNthAfter(IsBusinessDay, d, n, r) else IsNthBefore(IsBusinessDay, d, -n, r)
  {
    hide IsBusinessDay;
    BusinessDaysAreDense();
    if n > 0 {
      StepForwardCounts(IsBusinessDay, d, n);
      if IsNthAfter(IsBusinessDay, d, n, r) {
        NthAfterUnique(IsBusinessDay, d, n, r, BusinessDaysFrom(d, n));
      }
    } else {
      StepBackwardCounts(IsBusinessDay, d, -n);
      if IsNthBefore(IsBusinessDay, d, -n, r) {
        NthBeforeUnique(IsBusinessDay, d, -n, r, BusinessDaysFrom(d, n));
      }
    }
  }

  lemma BusinessDaysCompose(d: int, m: int, n: int)
    requires (m >= 0 && n >= 0) || (m <= 0 && n <= 0)
    ensures BusinessDaysFrom(BusinessDaysFrom(d, m), n) == BusinessDaysFrom(d, m + n)
  {
    BusinessDaysAreDense();
    StepsAdd(IsBusinessDay, d, m, n);
  }

  lemma BusinessDaysReturn(d: int, n: int)
    ensures BusinessDaysFrom(BusinessDaysFrom(d, n), -n) == d <==> n == 0 || IsBusinessDay(d)
  {
    hide IsBusinessDay;
    BusinessDaysAreDense();
    StepInverse(IsBusinessDay, d, n);
  }

  lemma BusinessDaysMonotone(d: int, e: int, n: int)
    requires d <= e
    ensures BusinessDaysFrom(d, n) <= BusinessDaysFrom(e, n)
  {
    BusinessDaysAreDense();
    StepMonotone(IsBusinessDay, d, e, n);
  }

  /** Up to twelve business days back is never more than three weeks back. */
  lemma TwelveBackIsThreeWeeks(d: int, n: int)
    requires 1 <= n <= 12
    ensures d - 21 <= BusinessDaysFrom(d, -n) < d
  {
    hide IsBusinessDay;
    BusinessDaysAreDense();
    ThreeWeeksHoldTwelve(d - 21);
    StepBackWithin(IsBusinessDay, d, n, d - 21);
  }
}
