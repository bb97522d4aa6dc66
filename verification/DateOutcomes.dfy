/** What an evaluated rule and a stored date say besides the date itself. */
module DateOutcomes {
  import opened Basics
  import opened Gregorian
  import IsoText
  import opened Months
  import opened BusinessDays
  import opened Holidays
  import opened DateRules
  import opened SeededRules
  import opened DatePlanning

  /** Adding years keeps the month, and the day but for 29 February. */
  lemma YearsLater(d: int, n: int)
    ensures var c, r := CivilOf(d), CivilOf(ApplyStep(d, PlusYears(n)));
            && r.year == c.year + n && r.month == c.month
            && r.day == (if c.day <= MonthLength(c.year + n, c.month) then c.day else MonthLength(c.year + n, c.month))
  {
    hide CivilOf, AddMonths, MonthLength;
    AddMonthsIsClamped(d, 12 * n);
    YearsAreMonths(CivilOf(d).year, CivilOf(d).month, n);
  }

  lemma YearsAreMonths(y: int, m: int, n: int)
    requires 1 <= m <= 12
    ensures (12 * y + m - 1 + 12 * n) / 12 == y + n
    ensures (12 * y + m - 1 + 12 * n) % 12 == m - 1
  {
  }

  // ---------------------------------------------------------------- Why there is a date, or none

  lemma {:induction false} MissingHas(required: seq<string>, facts: map<string, bool>)
    ensures forall f :: f in Missing(required, facts) <==> f in required && f !in facts
  {
    if required != [] {
      assert forall f :: f in required <==> f == required[0] || f in required[1..];
      MissingHas(required[1..], facts);
    }
  }

  /** A date is blocked by an unknown base first, and otherwise by exactly the required facts nobody has answered. */
  lemma BlockedBy(rule: DateRule, inputs: Inputs)
    ensures var o, base := Evaluate(rule, inputs), ResolveBase(rule.base, inputs);
            && o.inputDate == base
            && (o.blocker == Some(BaseUnknown(rule.base)) <==> base.None?)
            && (base.Some? ==>
                 (o.blocker.Some? <==> exists f :: f in rule.requiredFacts && f !in inputs.facts))
            && (o.blocker.Some? && o.blocker.value.FactsMissing? ==> o.blocker.value.missing == o.missingFacts)
            && (o.blocker.Some? ==>
                 forall f :: f in o.missingFacts <==> f in rule.requiredFacts && f !in inputs.facts)
            && (o.blocker.None? ==> o.missingFacts == [])
  {
    hide ResolveBase, FinalDate, FinalAssumptions, BaseAssumptions, Missing;
    MissingHas(rule.requiredFacts, inputs.facts);
    NoneMissing(rule.requiredFacts, inputs.facts);
    var missing := Missing(rule.requiredFacts, inputs.facts);
    if missing != [] {
      FirstIsIn(missing);
    }
  }

  /** The branch a rule takes: the first whose fact has the answer it asks for. */
  predicate Takes(rule: DateRule, facts: map<string, bool>, i: nat) {
    && i <= |rule.branches|
    && (i < |rule.branches| ==> Matches(rule.branches[i], facts))
    && forall j | 0 <= j < i :: !Matches(rule.branches[j], facts)
  }

  function Noted(note: string, given: bool): seq<string> {
    if given then [note] else []
  }

  /**
   * What a date rests on, in this order: the rule's own assumption if it states one, that of the branch taken, and
   * that it was rolled, exactly when the rule rolls and the day it came to is not a business day.
   */
  lemma AssumptionsAre(rule: DateRule, inputs: Inputs, i: nat)
    requires Takes(rule, inputs.facts, i)
    ensures var o := Evaluate(rule, inputs);
            var own := Noted(rule.assumption, rule.assumption != "");
            o.assumptions ==
              if o.result.None? then own
              else
                var taken := i < |rule.branches|;
                var day := ApplySteps(o.inputDate.value, if taken then rule.branches[i].steps else rule.steps);
                own + (if taken then [rule.branches[i].assumption] else [])
                + Noted("Rolled forward to the next business day.", rule.rollToBusinessDay && !IsBusinessDay(day))
  {
    hide ResolveBase, ApplySteps, Missing, RollForward, IsBusinessDay, Matched;
    MatchedIs(rule.branches, inputs.facts, i);
    if ResolveBase(rule.base, inputs).Some? {
      var taken := i < |rule.branches|;
      var start := ResolveBase(rule.base, inputs).value;
      RollIsOneFromTheDayBefore(ApplySteps(start, if taken then rule.branches[i].steps else rule.steps));
    }
  }

  // ---------------------------------------------------------------- What is stored

  /** A date nobody has decided is stored as it was evaluated, unconfirmed, and says why if it is blocked. */
  lemma StoredRowSays(rows: Rows, today: int, run: seq<Evaluated>, k: nat)
    requires k < |run| && run[k].entry.token != Sent && !Decided(rows, run[k].entry.token)
    requires forall i | 0 <= i < |run| && i != k :: run[i].entry.token != run[k].entry.token
    ensures var after, e := AfterRun(rows, today, run), run[k];
            && e.entry.token in after
            && var row := after[e.entry.token];
               && row.ruleCode == Some(e.entry.code) && row.result == e.outcome.result
               && row.inputDate == e.outcome.inputDate && row.requiresConfirmation == e.requiresConfirmation
               && !row.confirmed && row.manualOverride.None?
               && (e.outcome.blocker.Some? ==> row.notes == BlockedBecause(e.outcome.blocker.value))
               && (e.outcome.blocker.None? ==> row.notes == Assumed(e.outcome.assumptions))
  {
    LastForOnly(run, k);
    StoredAfter(Put(rows, Sent, SentRow(today)), run, run[k].entry.token);
  }

  /** The date of issue is proposed as today for a person to confirm, until somebody has decided it. */
  lemma IssueIsProposed(rows: Rows, today: int, run: seq<Evaluated>)
    requires forall e | e in run :: e.entry.token != Sent
    ensures var after := AfterRun(rows, today, run);
            && Sent in after
            && if Decided(rows, Sent) then after[Sent] == rows[Sent]
               else after[Sent].result == Some(today) && after[Sent].ruleCode.None? && after[Sent].requiresConfirmation
                    && !after[Sent].confirmed && after[Sent].manualOverride.None?
  {
    StoredAfter(Put(rows, Sent, SentRow(today)), run, Sent);
    NoneFor(run, Sent);
  }

  /** What an engagement's plan starts from: its own year-end and tax year, today as the date sent, and the answers. */
  lemma PlanStartsFrom(taxYear: int, yearEnd: Option<int>, today: int, facts: map<string, bool>)
    ensures var i := PlanInputs(taxYear, yearEnd, today, facts);
            && ResolveBase(YearEnd, i) == yearEnd && ResolveBase(DateSent, i) == Some(today) && i.facts == facts
            && ResolveBase(CalendarYearEnd, i) == (if taxYear == 0 then None else Some(IsoText.UtcDate(taxYear, 12, 31)))
            && ResolveBase(FilingDeadline, i) == ResolveBase(PaymentDeadline, i) == ResolveBase(CustomInput, i) == None
  {
    hide IsoText.UtcDate;
  }
}
