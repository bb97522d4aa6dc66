/** The seeded rule table and the plan that says which rule fills which date, in dependency order. */
module SeededRules {
  import opened Basics
  import opened DateRules

  datatype RuleCode =
    | T1Filing | T1Payment | T1Information | T1T183
    | T2Filing | T2BalanceDue | T2Information | T2TargetCompletion | T2Authorization
    | T3Filing | T3Payment | T3Information
    | SigningExpiration | SigningFirstReminder

  const SELF_EMPLOYED := "isSelfEmployedOrSpouseOfSelfEmployed"
  const THREE_MONTH := "qualifiesForThreeMonthBalanceDueDay"

  function Plain(base: DateBase, step: DateStep, roll: bool, note: string): DateRule {
    DateRule(base, [step], [], [], note, roll, true)
  }

  /** Each rule's base, steps, branch and roll as seeded; the wording of assumptions is abbreviated. */
  function SeededRule(code: RuleCode): DateRule {
    match code
    case T1Filing =>
      DateRule(CalendarYearEnd, [FixedMonthDay(4, 30, 1)],
               [Branch(SELF_EMPLOYED, true, [FixedMonthDay(6, 15, 1)], "Self-employment filing date applied.")],
               [SELF_EMPLOYED], "General individual filing date.", false, true)
    case T1Payment => Plain(CalendarYearEnd, FixedMonthDay(4, 30, 1), false, "Balance due whatever the filing date.")
    case T1Information => Plain(FilingDeadline, PlusDays(-45), true, "45 days before filing.")
    case T1T183 => Plain(FilingDeadline, PlusBusinessDays(-5), false, "Five business days before filing.")
    case T2Filing => Plain(YearEnd, PlusMonths(6), false, "Six months after year-end.")
    case T2BalanceDue =>
      DateRule(YearEnd, [PlusMonths(2)],
               [Branch(THREE_MONTH, true, [PlusMonths(3)], "Three-month balance-due day applied.")],
               [THREE_MONTH], "Two months after year-end.", false, true)
    case T2Information => Plain(YearEnd, PlusMonths(3), true, "Three months after year-end.")
    case T2TargetCompletion => Plain(FilingDeadline, PlusDays(-30), true, "30 days before filing.")
    case T2Authorization => Plain(FilingDeadline, PlusBusinessDays(-10), false, "Ten business days before filing.")
    case T3Filing => Plain(YearEnd, PlusDays(90), false, "90 days after year-end.")
    case T3Payment => Plain(YearEnd, PlusDays(90), false, "90 days after year-end.")
    case T3Information => Plain(FilingDeadline, PlusDays(-45), true, "45 days before filing.")
    case SigningExpiration => Plain(DateSent, PlusDays(30), false, "30 days after sending.").(requiresConfirmation := false)
    case SigningFirstReminder =>
      Plain(DateSent, PlusBusinessDays(3), false, "Three business days after sending.").(requiresConfirmation := false)
  }

  datatype DateToken =
    | Sent | FilingDue | BalanceDue | ClientInformationDue | TargetCompletion | AuthorizationDue
    | FilingDeadlineDate | PaymentDeadlineDate | T183RequestedBy

  datatype PlanEntry = PlanEntry(code: RuleCode, token: DateToken)

  const T1_PLAN := [
    PlanEntry(T1Filing, FilingDeadlineDate), PlanEntry(T1Payment, PaymentDeadlineDate),
    PlanEntry(T1Information, ClientInformationDue), PlanEntry(T1T183, T183RequestedBy)]

  const T2_PLAN := [
    PlanEntry(T2Filing, FilingDue), PlanEntry(T2BalanceDue, BalanceDue), PlanEntry(T2Information, ClientInformationDue),
    PlanEntry(T2TargetCompletion, TargetCompletion), PlanEntry(T2Authorization, AuthorizationDue)]

  const T3_PLAN := [
    PlanEntry(T3Filing, FilingDeadlineDate), PlanEntry(T3Payment, PaymentDeadlineDate),
    PlanEntry(T3Information, ClientInformationDue)]

  function DatePlan(kind: EngagementType): seq<PlanEntry> {
    match kind
    case T2 => T2_PLAN
    case T1Joint => T1_PLAN
    case T1Single => T1_PLAN
    case T3 => T3_PLAN
  }

  /** Every seeded rule that branches on a fact requires it, so none of them can guess. */
  lemma SeededRulesRequireTheirFacts(code: RuleCode)
    ensures BranchFactsRequired(SeededRule(code))
  {
    var rule := SeededRule(code);
    if code == T1Filing || code == T2BalanceDue {
      assert rule.requiredFacts[0] == rule.branches[0].whenFact;
    } else {
      assert rule.branches == [];
    }
  }

  lemma OutcomeAsks(rule: DateRule, inputs: Inputs)
    ensures Evaluate(rule, inputs).requiresConfirmation == rule.requiresConfirmation
  {
    hide ResolveBase, FinalDate, FinalAssumptions, Missing;
  }

  predicate OfSigning(code: RuleCode) {
    code == SigningExpiration || code == SigningFirstReminder
  }

  lemma AsksUnlessSigning(code: RuleCode)
    ensures SeededRule(code).requiresConfirmation <==> !OfSigning(code)
  {
  }

  lemma PlannedUnlessSigning(code: RuleCode)
    ensures (exists kind, token :: PlanEntry(code, token) in DatePlan(kind)) <==> !OfSigning(code)
  {
    if !OfSigning(code) {
      var k := if code.T1Filing? || code.T2Filing? || code.T3Filing? then 0
               else if code.T1Payment? || code.T2BalanceDue? || code.T3Payment? then 1
               else if code.T1T183? || code.T2TargetCompletion? then 3
               else if code.T2Authorization? then 4 else 2;
      var kind := if code.T1Filing? || code.T1Payment? || code.T1Information? || code.T1T183? then T1Joint
                  else if code.T3Filing? || code.T3Payment? || code.T3Information? then T3 else T2;
      var entry := DatePlan(kind)[k];
      assert entry == PlanEntry(code, entry.token) && entry in DatePlan(kind);
    }
  }

  /** Every date of a plan is proposed for a person to confirm; the two dates of signing are not. */
  lemma OnlyPlannedDatesAreConfirmed(code: RuleCode, inputs: Inputs)
    ensures Evaluate(SeededRule(code), inputs).requiresConfirmation
            <==> exists kind, token :: PlanEntry(code, token) in DatePlan(kind)
  {
    hide Evaluate, SeededRule, DatePlan;
    OutcomeAsks(SeededRule(code), inputs);
    AsksUnlessSigning(code);
    PlannedUnlessSigning(code);
  }
}
