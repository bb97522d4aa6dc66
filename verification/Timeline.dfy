/** What the seeded rules guarantee about the order of an engagement's dates, for every year-end. */
module Timeline {
  import opened Basics
  import opened IsoText
  import opened Gregorian
  import opened Months
  import opened BusinessDays
  import opened DateRules
  import opened SeededRules
  import opened DatePlanning

  /** The administrator has left these rules as seeded. */
  predicate HoldsSeeded(plan: seq<PlanEntry>, rules: RuleBook) {
    forall e | e in plan :: e.code in rules && rules[e.code].definition == SeededRule(e.code)
  }

  lemma OneStep(d: int, step: DateStep)
    ensures ApplySteps(d, [step]) == ApplyStep(d, step)
  {
    assert [step][1..] == [];
    assert ApplySteps(ApplyStep(d, step), []) == ApplyStep(d, step);
  }

  /** A rule with one step and no branch. */
  lemma PlainDate(rule: DateRule, step: DateStep, inputs: Inputs, d: int)
    requires rule.steps == [step] && rule.branches == [] && rule.requiredFacts == []
    requires ResolveBase(rule.base, inputs) == Some(d)
    ensures Evaluate(rule, inputs).result
         == Some(if rule.rollToBusinessDay then RollForward(ApplyStep(d, step)) else ApplyStep(d, step))
  {
    hide ApplyStep, ResolveBase, RollForward, FinalAssumptions;
    OneStep(d, step);
  }

  /** A rule with one step, one one-step branch on a fact, and that fact required. */
  lemma ForkedDate(rule: DateRule, b: Branch, plain: DateStep, taken: DateStep, inputs: Inputs, d: int)
    requires rule.steps == [plain] && rule.branches == [b] && b.steps == [taken] && b.whenValue
    requires rule.requiredFacts == [b.whenFact] && !rule.rollToBusinessDay
    requires ResolveBase(rule.base, inputs) == Some(d)
    ensures var o := Evaluate(rule, inputs);
            if b.whenFact !in inputs.facts then o.result == None
            else o.result == Some(if inputs.facts[b.whenFact] then ApplyStep(d, taken) else ApplyStep(d, plain))
  {
    hide ApplyStep, ResolveBase, RollForward, FinalAssumptions;
    OneStep(d, plain);
    OneStep(d, taken);
    NoneMissing(rule.requiredFacts, inputs.facts);
    assert b.whenFact in rule.requiredFacts;
    assert rule.branches[1..] == [];
    if b.whenFact in inputs.facts {
      assert Matched(rule.branches, inputs.facts) == if inputs.facts[b.whenFact] then Some(b) else None;
    }
  }

  /** The inputs a seeded plan has fed forward by its kth entry. */
  function InputsAt(plan: seq<PlanEntry>, inputs: Inputs, k: nat): Inputs
    requires k <= |plan|
  {
    if k == 0 then inputs
    else
      var i := InputsAt(plan, inputs, k - 1);
      FeedForward(plan[k - 1].token, Evaluate(SeededRule(plan[k - 1].code), i).result, i)
  }

  function OutcomeAt(plan: seq<PlanEntry>, inputs: Inputs, k: nat): Outcome
    requires k < |plan|
  {
    Evaluate(SeededRule(plan[k].code), InputsAt(plan, inputs, k))
  }

  lemma InputsStep(plan: seq<PlanEntry>, inputs: Inputs, k: nat)
    requires k < |plan|
    ensures InputsAt(plan, inputs, 0) == inputs
    ensures InputsAt(plan, inputs, k + 1)
         == FeedForward(plan[k].token, OutcomeAt(plan, inputs, k).result, InputsAt(plan, inputs, k))
  {
    hide Evaluate, SeededRule, FeedForward;
  }

  lemma {:induction false} InputsShift(plan: seq<PlanEntry>, inputs: Inputs, k: nat)
    requires 1 <= k <= |plan|
    ensures InputsAt(plan, inputs, k)
         == InputsAt(plan[1..], FeedForward(plan[0].token, OutcomeAt(plan, inputs, 0).result, inputs), k - 1)
  {
    hide Evaluate, SeededRule, FeedForward;
    if k > 1 {
      InputsShift(plan, inputs, k - 1);
    }
  }

  lemma OutcomeShift(plan: seq<PlanEntry>, inputs: Inputs, k: nat)
    requires 1 <= k < |plan|
    ensures OutcomeAt(plan, inputs, k)
         == OutcomeAt(plan[1..], FeedForward(plan[0].token, OutcomeAt(plan, inputs, 0).result, inputs), k - 1)
  {
    hide Evaluate, SeededRule, FeedForward, InputsAt;
    InputsShift(plan, inputs, k);
  }

  /** One more entry of a seeded plan, at its front. */
  lemma RunUnfolds(plan: seq<PlanEntry>, rules: RuleBook, inputs: Inputs)
    requires plan != [] && HoldsSeeded(plan, rules)
    ensures HoldsSeeded(plan[1..], rules)
    ensures var first := OutcomeAt(plan, inputs, 0);
            var rest := RunPlan(plan[1..], rules, FeedForward(plan[0].token, first.result, inputs));
            exists e: Evaluated :: e.entry == plan[0] && e.outcome == first && RunPlan(plan, rules, inputs) == [e] + rest
  {
    hide Evaluate, SeededRule, FeedForward;
    FirstIsIn(plan);
    assert forall e :: e in plan[1..] ==> e in plan;
    assert InputsAt(plan, inputs, 0) == inputs;
    var e := Evaluated(plan[0], OutcomeAt(plan, inputs, 0), rules[plan[0].code].requiresConfirmation);
    assert e.entry == plan[0] && e.outcome == OutcomeAt(plan, inputs, 0);
  }

  /** A plan whose rules are as seeded runs every entry, each on the inputs fed forward to it. */
  lemma {:induction false} RunIs(plan: seq<PlanEntry>, rules: RuleBook, inputs: Inputs)
    requires HoldsSeeded(plan, rules)
    ensures var run := RunPlan(plan, rules, inputs);
            && |run| == |plan|
            && forall k | 0 <= k < |plan| :: run[k].entry == plan[k] && run[k].outcome == OutcomeAt(plan, inputs, k)
    decreases |plan|
  {
    if plan == [] {
      assert RunPlan(plan, rules, inputs) == [];
    } else {
      hide *;
      var fed := FeedForward(plan[0].token, OutcomeAt(plan, inputs, 0).result, inputs);
      RunUnfolds(plan, rules, inputs);
      RunIs(plan[1..], rules, fed);
      forall k | 0 <= k < |plan|
        ensures var run := RunPlan(plan, rules, inputs);
                run[k].entry == plan[k] && run[k].outcome == OutcomeAt(plan, inputs, k)
      {
        if k > 0 {
          OutcomeShift(plan, inputs, k);
        }
      }
    }
  }

  // ---------------------------------------------------------------- T2

  /** The T2 dates by themselves. */
  lemma T2DatesInOrder(y: int)
    ensures var filing := AddMonths(y, 6);
            && AddMonths(y, 2) < AddMonths(y, 3) <= RollForward(AddMonths(y, 3))
            && RollForward(AddMonths(y, 3)) < RollForward(AddDays(filing, -30))
            && RollForward(AddDays(filing, -30)) < BusinessDaysFrom(filing, -10) < filing
  {
    hide AddMonths, AddDays, RollForward, BusinessDaysFrom;
    var filing := AddMonths(y, 6);
    AddDaysIsAddition(filing, -30);
    AddMonthsStrict(y, 2, 3);
    ThreeMonthsApart(y, 3);
    TwelveBackIsThreeWeeks(filing, 10);
  }

  lemma T2Filed(i: Inputs, y: int)
    requires i.yearEnd == Some(y)
    ensures Evaluate(SeededRule(T2Filing), i).result == Some(AddMonths(y, 6))
  {
    hide AddMonths, AddDays, RollForward, BusinessDaysFrom, Evaluate;
    PlainDate(SeededRule(T2Filing), PlusMonths(6), i, y);
  }

  lemma T2Balance(i: Inputs, y: int)
    requires i.yearEnd == Some(y)
    ensures var balance := Evaluate(SeededRule(T2BalanceDue), i).result;
            if THREE_MONTH !in i.facts then balance == None
            else balance == Some(AddMonths(y, if i.facts[THREE_MONTH] then 3 else 2))
  {
    hide AddMonths, AddDays, RollForward, BusinessDaysFrom, Evaluate;
    var balance := SeededRule(T2BalanceDue);
    ForkedDate(balance, balance.branches[0], PlusMonths(2), PlusMonths(3), i, y);
  }

  lemma T2Informed(i: Inputs, y: int)
    requires i.yearEnd == Some(y)
    ensures Evaluate(SeededRule(T2Information), i).result == Some(RollForward(AddMonths(y, 3)))
  {
    hide AddMonths, AddDays, RollForward, BusinessDaysFrom, Evaluate;
    PlainDate(SeededRule(T2Information), PlusMonths(3), i, y);
  }

  lemma T2Derived(i: Inputs, filing: int)
    requires i.filingDeadline == Some(filing)
    ensures Evaluate(SeededRule(T2TargetCompletion), i).result == Some(RollForward(AddDays(filing, -30)))
    ensures Evaluate(SeededRule(T2Authorization), i).result == Some(BusinessDaysFrom(filing, -10))
  {
    hide AddMonths, AddDays, RollForward, BusinessDaysFrom, Evaluate;
    PlainDate(SeededRule(T2TargetCompletion), PlusDays(-30), i, filing);
    PlainDate(SeededRule(T2Authorization), PlusBusinessDays(-10), i, filing);
  }

  /** The T2 plan feeds its filing date forward, and leaves the year-end and the facts alone. */
  lemma T2Inputs(inputs: Inputs, y: int, filing: int, k: nat)
    requires inputs.yearEnd == Some(y) && filing == AddMonths(y, 6) && k <= 5
    ensures var i := InputsAt(T2_PLAN, inputs, k);
            i.yearEnd == Some(y) && i.facts == inputs.facts && (k > 0 ==> i.filingDeadline == Some(filing))
  {
    hide AddMonths, Evaluate, InputsAt, SeededRule;
    InputsStep(T2_PLAN, inputs, 0);
    if k > 0 {
      T2Inputs(inputs, y, filing, k - 1);
      InputsStep(T2_PLAN, inputs, k - 1);
      T2Filed(inputs, y);
    }
  }

  /** Each entry of the T2 plan, from its year-end. */
  lemma T2Outcomes(inputs: Inputs, y: int, filing: int, k: nat)
    requires inputs.yearEnd == Some(y) && filing == AddMonths(y, 6) && k < 5
    ensures OutcomeAt(T2_PLAN, inputs, k).result == T2Date(k, y, filing, inputs.facts)
  {
    hide AddMonths, AddDays, RollForward, BusinessDaysFrom, Evaluate, InputsAt, SeededRule;
    T2Inputs(inputs, y, filing, k);
    var i := InputsAt(T2_PLAN, inputs, k);
    T2Filed(i, y);
    T2Balance(i, y);
    T2Informed(i, y);
    if k > 0 {
      T2Derived(i, filing);
    }
  }

  /** The date of each entry of the T2 plan, from the year-end, the filing date and the facts. */
  function T2Date(k: nat, y: int, filing: int, facts: map<string, bool>): Option<int> {
    match k
    case 0 => Some(filing)
    case 1 => if THREE_MONTH in facts then Some(AddMonths(y, if facts[THREE_MONTH] then 3 else 2)) else None
    case 2 => Some(RollForward(AddMonths(y, 3)))
    case 3 => Some(RollForward(AddDays(filing, -30)))
    case _ => Some(BusinessDaysFrom(filing, -10))
  }

  /**
   * For every T2 year-end and whichever way the facts are answered: client information is due before the
   * target completion, that before the signed authorizations, those before filing; and the balance is
   * due no later than the information, or blocked exactly while its fact is unanswered.
   */
  lemma T2Timeline(rules: RuleBook, inputs: Inputs, y: int)
    requires HoldsSeeded(DatePlan(T2), rules) && inputs.yearEnd == Some(y)
    ensures var run := RunPlan(DatePlan(T2), rules, inputs);
            && |run| == 5 && (forall k | 0 <= k < 5 :: run[k].entry == DatePlan(T2)[k])
            && run[0].outcome.result == Some(AddMonths(y, 6))
            && run[2].outcome.result.Some? && run[3].outcome.result.Some? && run[4].outcome.result.Some?
            && run[2].outcome.result.value < run[3].outcome.result.value
            && run[3].outcome.result.value < run[4].outcome.result.value
            && run[4].outcome.result.value < run[0].outcome.result.value
            && (run[1].outcome.result.Some? <==> THREE_MONTH in inputs.facts)
            && (run[1].outcome.result.Some? ==> run[1].outcome.result.value <= run[2].outcome.result.value)
  {
    hide AddMonths, AddDays, RollForward, BusinessDaysFrom, Evaluate, RunPlan, HoldsSeeded, InputsAt, OutcomeAt, SeededRule;
    var filing := AddMonths(y, 6);
    T2DatesInOrder(y);
    RunIs(T2_PLAN, rules, inputs);
    T2Outcomes(inputs, y, filing, 0);
    T2Outcomes(inputs, y, filing, 1);
    T2Outcomes(inputs, y, filing, 2);
    T2Outcomes(inputs, y, filing, 3);
    T2Outcomes(inputs, y, filing, 4);
  }

  // ---------------------------------------------------------------- T1

  lemma T1DatesInOrder(filing: int)
    ensures RollForward(AddDays(filing, -45)) < BusinessDaysFrom(filing, -5) < filing
  {
    hide AddDays, RollForward, BusinessDaysFrom;
    AddDaysIsAddition(filing, -45);
    TwelveBackIsThreeWeeks(filing, 5);
  }

  /** 30 April comes before 15 June of the same year, remapped or not. */
  lemma AprilBeforeJune(y: int)
    ensures UtcDate(y, 6, 15) == UtcDate(y, 4, 30) + 46
  {
    var z := if 0 <= y <= 99 then 1900 + y else y;
    MonthTable(z);
    assert z + 3 / 12 == z && z + 5 / 12 == z;
  }

  /** 15 June of the next year for the self-employed, and 30 April for everybody else. */
  function T1FilingDate(taxYear: int, selfEmployed: bool): int {
    var next := CivilOf(UtcDate(taxYear, 12, 31)).year + 1;
    if selfEmployed then UtcDate(next, 6, 15) else UtcDate(next, 4, 30)
  }

  lemma AnswerMovesFiling(taxYear: int)
    ensures T1FilingDate(taxYear, true) == T1FilingDate(taxYear, false) + 46
  {
    hide UtcDate, CivilOf;
    AprilBeforeJune(CivilOf(UtcDate(taxYear, 12, 31)).year + 1);
  }

  /** The filing date is unknown until the fact says which it is. */
  lemma T1Filed(inputs: Inputs)
    requires inputs.taxYear.Some? && inputs.taxYear.value != 0
    ensures Evaluate(SeededRule(T1Filing), inputs).result
            == if SELF_EMPLOYED !in inputs.facts then None
               else Some(T1FilingDate(inputs.taxYear.value, inputs.facts[SELF_EMPLOYED]))
  {
    hide AddMonths, AddDays, RollForward, BusinessDaysFrom, Evaluate, UtcDate, CivilOf;
    var filing, start := SeededRule(T1Filing), UtcDate(inputs.taxYear.value, 12, 31);
    ForkedDate(filing, filing.branches[0], FixedMonthDay(4, 30, 1), FixedMonthDay(6, 15, 1), inputs, start);
  }

  lemma T1Paid(inputs: Inputs)
    requires inputs.taxYear.Some? && inputs.taxYear.value != 0
    ensures Evaluate(SeededRule(T1Payment), inputs).result == Some(T1FilingDate(inputs.taxYear.value, false))
  {
    hide AddMonths, AddDays, RollForward, BusinessDaysFrom, Evaluate, UtcDate, CivilOf;
    PlainDate(SeededRule(T1Payment), FixedMonthDay(4, 30, 1), inputs, UtcDate(inputs.taxYear.value, 12, 31));
  }

  /** What each of the first three dates feeds forward. */
  lemma T1Feeds(result: Option<int>, i: Inputs)
    ensures FeedForward(T1_PLAN[0].token, result, i) == if result.None? then i else i.(filingDeadline := result)
    ensures FeedForward(T1_PLAN[1].token, result, i) == if result.None? then i else i.(paymentDeadline := result)
    ensures FeedForward(T1_PLAN[2].token, result, i) == i
    ensures T1_PLAN[0].code == T1Filing && T1_PLAN[1].code == T1Payment
  {
  }

  /** The filing and payment dates, and what they feed forward. */
  lemma T1Deadlines(inputs: Inputs)
    requires inputs.taxYear.Some? && inputs.taxYear.value != 0 && inputs.filingDeadline == None
    ensures var filed, paid := OutcomeAt(T1_PLAN, inputs, 0).result, OutcomeAt(T1_PLAN, inputs, 1).result;
            && paid.Some?
            && (filed.Some? <==> SELF_EMPLOYED in inputs.facts)
            && (filed.Some? ==> paid.value <= filed.value)
            && (filed.Some? ==> filed == Some(T1FilingDate(inputs.taxYear.value, inputs.facts[SELF_EMPLOYED])))
            && InputsAt(T1_PLAN, inputs, 2).filingDeadline == filed
            && InputsAt(T1_PLAN, inputs, 3) == InputsAt(T1_PLAN, inputs, 2)
  {
    hide Evaluate, T1FilingDate, InputsAt, SeededRule, FeedForward;
    AnswerMovesFiling(inputs.taxYear.value);
    T1Filed(inputs);
    InputsStep(T1_PLAN, inputs, 0);
    var first, second := InputsAt(T1_PLAN, inputs, 1), InputsAt(T1_PLAN, inputs, 2);
    T1Feeds(OutcomeAt(T1_PLAN, inputs, 0).result, inputs);
    T1Paid(first);
    InputsStep(T1_PLAN, inputs, 1);
    T1Feeds(OutcomeAt(T1_PLAN, inputs, 1).result, first);
    InputsStep(T1_PLAN, inputs, 2);
    T1Feeds(OutcomeAt(T1_PLAN, inputs, 2).result, second);
  }

  /** The two dates derived from a filing date. */
  lemma T1Derived(i: Inputs)
    ensures var information, t183 := Evaluate(SeededRule(T1Information), i).result, Evaluate(SeededRule(T1T183), i).result;
            if i.filingDeadline.None? then information == None && t183 == None
            else
              var filing := i.filingDeadline.value;
              && information == Some(RollForward(AddDays(filing, -45))) && t183 == Some(BusinessDaysFrom(filing, -5))
              && information.value < t183.value < filing
  {
    hide AddMonths, AddDays, RollForward, BusinessDaysFrom, Evaluate;
    if i.filingDeadline.Some? {
      T1DatesInOrder(i.filingDeadline.value);
      PlainDate(SeededRule(T1Information), PlusDays(-45), i, i.filingDeadline.value);
      PlainDate(SeededRule(T1T183), PlusBusinessDays(-5), i, i.filingDeadline.value);
    } else {
      BaseMissing(SeededRule(T1Information), i);
      BaseMissing(SeededRule(T1T183), i);
    }
  }

  /**
   * For every known T1 tax year: once the self-employment fact is answered, information is due before
   * the T183 is requested, that before filing, and payment is due no later than filing. Until then the
   * filing date and both dates derived from it are blocked, and the payment date is not.
   */
  lemma T1Timeline(kind: EngagementType, rules: RuleBook, inputs: Inputs)
    requires kind == T1Joint || kind == T1Single
    requires HoldsSeeded(DatePlan(kind), rules)
    requires inputs.taxYear.Some? && inputs.taxYear.value != 0 && inputs.filingDeadline == None
    ensures var run := RunPlan(DatePlan(kind), rules, inputs);
            && |run| == 4 && (forall k | 0 <= k < 4 :: run[k].entry == DatePlan(kind)[k])
            && run[1].outcome.result.Some?
            && (run[0].outcome.result.Some? <==> SELF_EMPLOYED in inputs.facts)
            && (run[2].outcome.result.Some? <==> SELF_EMPLOYED in inputs.facts)
            && (run[3].outcome.result.Some? <==> SELF_EMPLOYED in inputs.facts)
            && (SELF_EMPLOYED in inputs.facts ==>
                 && run[2].outcome.result.value < run[3].outcome.result.value
                 && run[3].outcome.result.value < run[0].outcome.result.value
                 && run[1].outcome.result.value <= run[0].outcome.result.value)
  {
    hide Evaluate, RunPlan, HoldsSeeded, SeededRule, InputsAt;
    assert DatePlan(kind) == T1_PLAN;
    RunIs(T1_PLAN, rules, inputs);
    T1Deadlines(inputs);
    T1Derived(InputsAt(T1_PLAN, inputs, 2));
    T1Derived(InputsAt(T1_PLAN, inputs, 3));
  }

  lemma BaseMissing(rule: DateRule, inputs: Inputs)
    requires ResolveBase(rule.base, inputs) == None
    ensures Evaluate(rule, inputs).result == None
  {
  }

  // ---------------------------------------------------------------- T3

  /** For every trust year-end, filing and payment fall on the same day and information is due before it. */
  lemma T3Timeline(rules: RuleBook, inputs: Inputs, y: int)
    requires HoldsSeeded(DatePlan(T3), rules) && inputs.yearEnd == Some(y)
    ensures var run := RunPlan(DatePlan(T3), rules, inputs);
            && |run| == 3 && (forall k | 0 <= k < 3 :: run[k].entry == DatePlan(T3)[k])
            && run[0].outcome.result == run[1].outcome.result == Some(y + 90)
            && run[2].outcome.result == Some(RollForward(y + 45)) && run[2].outcome.result.value < y + 90
  {
    hide AddMonths, AddDays, RollForward, BusinessDaysFrom, Evaluate, RunPlan, HoldsSeeded, InputsAt;
    var plan := DatePlan(T3);
    AddDaysIsAddition(y, 90);
    AddDaysIsAddition(y + 90, -45);
    RunIs(plan, rules, inputs);
    PlainDate(SeededRule(T3Filing), PlusDays(90), inputs, y);
    InputsStep(plan, inputs, 0);
    var i1 := inputs.(filingDeadline := Some(y + 90));
    PlainDate(SeededRule(T3Payment), PlusDays(90), i1, y);
    InputsStep(plan, inputs, 1);
    var i2 := i1.(paymentDeadline := Some(y + 90));
    PlainDate(SeededRule(T3Information), PlusDays(-45), i2, y + 90);
  }

  // ---------------------------------------------------------------- Signing

  /** A signature request lapses thirty days after it is sent, and is first chased on the third business day after. */
  lemma SigningDates(inputs: Inputs, sent: int)
    requires inputs.dateSent == Some(sent)
    ensures Evaluate(SeededRule(SigningExpiration), inputs).result == Some(sent + 30)
    ensures Evaluate(SeededRule(SigningFirstReminder), inputs).result == Some(BusinessDaysFrom(sent, 3))
  {
    hide AddMonths, AddDays, RollForward, BusinessDaysFrom, Evaluate;
    AddDaysIsAddition(sent, 30);
    PlainDate(SeededRule(SigningExpiration), PlusDays(30), inputs, sent);
    PlainDate(SeededRule(SigningFirstReminder), PlusBusinessDays(3), inputs, sent);
  }

  // ---------------------------------------------------------------- The stored dates

  /** The tokens of the dates that lead up to filing, in the order they should fall. */
  function Chain(kind: EngagementType): (c: seq<DateToken>)
    ensures |c| >= 2 && Sent !in c
  {
    match kind
    case T2 => [ClientInformationDue, TargetCompletion, AuthorizationDue, FilingDue]
    case T3 => [ClientInformationDue, FilingDeadlineDate]
    case _ => [ClientInformationDue, T183RequestedBy, FilingDeadlineDate]
  }

  function FilingToken(kind: EngagementType): DateToken {
    Chain(kind)[|Chain(kind)| - 1]
  }

  /** Enough is known for the chain to be computed. */
  predicate Known(kind: EngagementType, inputs: Inputs) {
    match kind
    case T2 => inputs.yearEnd.Some?
    case T3 => inputs.yearEnd.Some?
    case _ =>
      && inputs.taxYear.Some? && inputs.taxYear.value != 0 && inputs.filingDeadline == None
      && SELF_EMPLOYED in inputs.facts
  }

  predicate Earlier(a: Option<int>, b: Option<int>) {
    a.Some? && b.Some? && a.value < b.value
  }

  /** The dates of a chain fall in its order. */
  ghost predicate InOrder(rows: Rows, chain: seq<DateToken>) {
    forall i, j | 0 <= i < j < |chain| :: Earlier(StoredDate(rows, chain[i]), StoredDate(rows, chain[j]))
  }

  /** The date a run computes for the kth entry of a plan, all of whose rules are as seeded. */
  lemma ComputedAt(kind: EngagementType, rules: RuleBook, inputs: Inputs, k: nat)
    requires HoldsSeeded(DatePlan(kind), rules) && k < |DatePlan(kind)|
    ensures var run := RunPlan(DatePlan(kind), rules, inputs);
            && |run| == |DatePlan(kind)| && run[k].entry == DatePlan(kind)[k]
            && RunDate(run, DatePlan(kind)[k].token) == run[k].outcome.result
  {
    hide RunPlan, HoldsSeeded, RunDate, OutcomeAt, LastFor;
    RunIs(DatePlan(kind), rules, inputs);
    LastForOnly(RunPlan(DatePlan(kind), rules, inputs), k);
  }

  /** A run computes the dates of the chain in its order. */
  lemma ChainComputed(kind: EngagementType, rules: RuleBook, inputs: Inputs)
    requires HoldsSeeded(DatePlan(kind), rules) && Known(kind, inputs)
    ensures var run, c := RunPlan(DatePlan(kind), rules, inputs), Chain(kind);
            forall i, j | 0 <= i < j < |c| :: Earlier(RunDate(run, c[i]), RunDate(run, c[j]))
  {
    hide RunPlan, HoldsSeeded, RunDate, AddMonths;
    forall k: nat | k < |DatePlan(kind)|
      ensures var run := RunPlan(DatePlan(kind), rules, inputs);
              && |run| == |DatePlan(kind)|
              && RunDate(run, DatePlan(kind)[k].token) == run[k].outcome.result
    {
      ComputedAt(kind, rules, inputs, k);
    }
    match kind
    case T2 => T2Timeline(rules, inputs, inputs.yearEnd.value);
    case T3 => T3Timeline(rules, inputs, inputs.yearEnd.value);
    case _ => T1Timeline(kind, rules, inputs);
  }

  /**
   * The stored dates of a chain fall in its order wherever nobody has decided one of them; a date somebody has
   * decided stays as it is.
   */
  lemma StoredTimeline(kind: EngagementType, rules: RuleBook, inputs: Inputs, rows: Rows, today: int)
    requires HoldsSeeded(DatePlan(kind), rules) && Known(kind, inputs)
    ensures var after, c := AfterRun(rows, today, RunPlan(DatePlan(kind), rules, inputs)), Chain(kind);
            && (forall i, j | 0 <= i < j < |c| && !Decided(rows, c[i]) && !Decided(rows, c[j]) ::
                  Earlier(StoredDate(after, c[i]), StoredDate(after, c[j])))
            && (forall i | 0 <= i < |c| && Decided(rows, c[i]) :: StoredDate(after, c[i]) == StoredDate(rows, c[i]))
  {
    hide RunPlan, HoldsSeeded, RunDate, AfterRun, StoredDate, Decided, Chain;
    var run, c := RunPlan(DatePlan(kind), rules, inputs), Chain(kind);
    ChainComputed(kind, rules, inputs);
    ChainStored(kind, rules, inputs, rows, today);
  }

  lemma ChainStored(kind: EngagementType, rules: RuleBook, inputs: Inputs, rows: Rows, today: int)
    requires HoldsSeeded(DatePlan(kind), rules) && Known(kind, inputs)
    ensures var run, c := RunPlan(DatePlan(kind), rules, inputs), Chain(kind);
            forall i | 0 <= i < |c| ::
              RunDate(run, c[i]).Some?
              && StoredDate(AfterRun(rows, today, run), c[i])
                 == if Decided(rows, c[i]) then StoredDate(rows, c[i]) else RunDate(run, c[i])
  {
    hide RunPlan, HoldsSeeded, RunDate, AfterRun, StoredDate, Decided, Chain, DatePlan;
    var run, c := RunPlan(DatePlan(kind), rules, inputs), Chain(kind);
    ChainComputed(kind, rules, inputs);
    forall i | 0 <= i < |c|
      ensures RunDate(run, c[i]).Some?
      ensures StoredDate(AfterRun(rows, today, run), c[i])
              == if Decided(rows, c[i]) then StoredDate(rows, c[i]) else RunDate(run, c[i])
    {
      if i == 0 {
        assert Earlier(RunDate(run, c[0]), RunDate(run, c[1]));
      } else {
        assert Earlier(RunDate(run, c[0]), RunDate(run, c[i]));
      }
      assert c[i] in c;
      StoredDates(rows, today, run, c[i]);
    }
  }

  /**
   * A decided filing date is not fed forward: with it alone decided the stored dates fall in order exactly when it
   * is after the last of the dates that were computed back from the computed one.
   */
  lemma FilingDecidedExactly(kind: EngagementType, rules: RuleBook, inputs: Inputs, rows: Rows, today: int)
    requires HoldsSeeded(DatePlan(kind), rules) && Known(kind, inputs)
    requires forall t | t in Chain(kind) :: Decided(rows, t) <==> t == FilingToken(kind)
    ensures var run, c := RunPlan(DatePlan(kind), rules, inputs), Chain(kind);
            InOrder(AfterRun(rows, today, run), c)
            <==> Earlier(RunDate(run, c[|c| - 2]), StoredDate(rows, FilingToken(kind)))
  {
    hide RunPlan, HoldsSeeded, RunDate, AfterRun, StoredDate, Decided, DatePlan, Known;
    ChainIsDistinct(kind);
    hide Chain;
    var run, c := RunPlan(DatePlan(kind), rules, inputs), Chain(kind);
    var n := |c|;
    ChainComputed(kind, rules, inputs);
    ChainStored(kind, rules, inputs, rows, today);
    forall i | 0 <= i < n
      ensures Decided(rows, c[i]) <==> i == n - 1
    {
      assert c[i] in c;
    }
    if Earlier(RunDate(run, c[n - 2]), StoredDate(rows, c[n - 1])) {
      forall i, j | 0 <= i < j < n
        ensures Earlier(StoredDate(AfterRun(rows, today, run), c[i]), StoredDate(AfterRun(rows, today, run), c[j]))
      {
        if i < n - 2 {
          assert Earlier(RunDate(run, c[i]), RunDate(run, c[n - 2]));
        }
      }
    } else {
      assert !Earlier(StoredDate(AfterRun(rows, today, run), c[n - 2]), StoredDate(AfterRun(rows, today, run), c[n - 1]));
    }
  }

  lemma ChainIsDistinct(kind: EngagementType)
    ensures Distinct(Chain(kind))
  {
  }

  /** The dates of the T1 chain that a run computes. */
  lemma T1Computed(kind: EngagementType, rules: RuleBook, inputs: Inputs)
    requires (kind == T1Joint || kind == T1Single) && HoldsSeeded(DatePlan(kind), rules) && Known(kind, inputs)
    ensures var run := RunPlan(DatePlan(kind), rules, inputs);
            var filing := T1FilingDate(inputs.taxYear.value, inputs.facts[SELF_EMPLOYED]);
            && RunDate(run, FilingDeadlineDate) == Some(filing)
            && RunDate(run, ClientInformationDue) == Some(RollForward(AddDays(filing, -45)))
            && RunDate(run, T183RequestedBy) == Some(BusinessDaysFrom(filing, -5))
  {
    hide RunPlan, HoldsSeeded, RunDate, Evaluate, SeededRule, InputsAt, AddDays, RollForward, BusinessDaysFrom, T1FilingDate;
    assert DatePlan(kind) == T1_PLAN;
    RunIs(T1_PLAN, rules, inputs);
    T1Deadlines(inputs);
    T1Derived(InputsAt(T1_PLAN, inputs, 2));
    T1Derived(InputsAt(T1_PLAN, inputs, 3));
    ComputedAt(kind, rules, inputs, 0);
    ComputedAt(kind, rules, inputs, 2);
    ComputedAt(kind, rules, inputs, 3);
  }

  function Confirm(rows: Rows, token: DateToken): Rows
    requires token in rows
  {
    rows[token := rows[token].(confirmed := true)]
  }

  function Answered(inputs: Inputs, selfEmployed: bool): Inputs {
    inputs.(facts := inputs.facts[SELF_EMPLOYED := selfEmployed])
  }

  /** The three dates of the chain under either answer. */
  lemma AnswersApart(kind: EngagementType, rules: RuleBook, inputs: Inputs)
    requires (kind == T1Joint || kind == T1Single) && HoldsSeeded(DatePlan(kind), rules) && Known(kind, inputs)
    ensures Known(kind, Answered(inputs, true)) && Known(kind, Answered(inputs, false))
    ensures var no := RunPlan(DatePlan(kind), rules, Answered(inputs, false));
            var yes := RunPlan(DatePlan(kind), rules, Answered(inputs, true));
            && Earlier(RunDate(no, FilingDeadlineDate), RunDate(yes, ClientInformationDue))
            && Earlier(RunDate(no, FilingDeadlineDate), RunDate(yes, T183RequestedBy))
  {
    hide RunPlan, HoldsSeeded, RunDate, AddDays, RollForward, BusinessDaysFrom, UtcDate, T1FilingDate, DatePlan;
    var no, yes := Answered(inputs, false), Answered(inputs, true);
    T1Computed(kind, rules, no);
    T1Computed(kind, rules, yes);
    var year := inputs.taxYear.value;
    AnswerMovesFiling(year);
    AddDaysIsAddition(T1FilingDate(year, true), -45);
    TwelveBackIsThreeWeeks(T1FilingDate(year, true), 5);
  }

  /**
   * For every tax year: a filing date confirmed while the answer was that nobody is self-employed is overtaken by
   * both dates that lead up to it once the answer is changed.
   */
  lemma ConfirmedFilingIsOvertaken(kind: EngagementType, rules: RuleBook, inputs: Inputs, rows: Rows,
                                   today: int, later: int)
    requires (kind == T1Joint || kind == T1Single) && HoldsSeeded(DatePlan(kind), rules)
    requires Known(kind, inputs) && forall t | t in Chain(kind) :: !Decided(rows, t)
    ensures var first := AfterRun(rows, today, RunPlan(DatePlan(kind), rules, Answered(inputs, false)));
            && InOrder(first, Chain(kind)) && FilingDeadlineDate in first
            && var second := AfterRun(Confirm(first, FilingDeadlineDate), later,
                                      RunPlan(DatePlan(kind), rules, Answered(inputs, true)));
               && StoredDate(second, FilingDeadlineDate) == StoredDate(first, FilingDeadlineDate)
               && Earlier(StoredDate(second, FilingDeadlineDate), StoredDate(second, ClientInformationDue))
               && Earlier(StoredDate(second, FilingDeadlineDate), StoredDate(second, T183RequestedBy))
  {
    hide RunPlan, HoldsSeeded, RunDate, AfterRun, Known, DatePlan, Answered;
    AnswersApart(kind, rules, inputs);
    var no := RunPlan(DatePlan(kind), rules, Answered(inputs, false));
    var first, c := AfterRun(rows, today, no), Chain(kind);
    assert c[0] == ClientInformationDue && c[1] == T183RequestedBy && c[2] == FilingDeadlineDate;
    StoredTimeline(kind, rules, Answered(inputs, false), rows, today);
    ChainStored(kind, rules, Answered(inputs, false), rows, today);
    assert StoredDate(first, c[2]).Some?;
    RunDecidesNothing(rows, today, no, c[0]);
    RunDecidesNothing(rows, today, no, c[1]);
    ChainStored(kind, rules, Answered(inputs, true), Confirm(first, c[2]), later);
  }

  /** The token of the date a balance is due, and of the date it should not come after. */
  function PaymentTokens(kind: EngagementType): (DateToken, DateToken) {
    match kind
    case T2 => (BalanceDue, ClientInformationDue)
    case _ => (PaymentDeadlineDate, FilingDeadlineDate)
  }

  /** The stored balance date, when it is known and neither date is decided, does not come after the other. */
  lemma StoredPayment(kind: EngagementType, rules: RuleBook, inputs: Inputs, rows: Rows, today: int)
    requires HoldsSeeded(DatePlan(kind), rules) && Known(kind, inputs)
    ensures var after := AfterRun(rows, today, RunPlan(DatePlan(kind), rules, inputs));
            var (payment, bound) := PaymentTokens(kind);
            !Decided(rows, payment) && !Decided(rows, bound) && (kind == T2 ==> THREE_MONTH in inputs.facts) ==>
              && StoredDate(after, payment).Some? && StoredDate(after, bound).Some?
              && StoredDate(after, payment).value <= StoredDate(after, bound).value
  {
    hide RunPlan, HoldsSeeded, RunDate, AddMonths, AfterRun, StoredDate, Decided;
    var run := RunPlan(DatePlan(kind), rules, inputs);
    var (payment, bound) := PaymentTokens(kind);
    var k := if kind == T2 then 2 else 0;
    ComputedAt(kind, rules, inputs, 1);
    ComputedAt(kind, rules, inputs, k);
    match kind {
      case T2 => T2Timeline(rules, inputs, inputs.yearEnd.value);
      case T3 => T3Timeline(rules, inputs, inputs.yearEnd.value);
      case _ => T1Timeline(kind, rules, inputs);
    }
    if RunDate(run, payment).Some? && RunDate(run, bound).Some? {
      StoredDates(rows, today, run, payment);
      StoredDates(rows, today, run, bound);
    }
  }
}
