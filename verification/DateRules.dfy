/**
 * The declarative date-rule engine: a base date, steps applied in order, a branch chosen by a fact,
 * and an optional roll to a business day. A rule whose base or facts are unknown is blocked.
 */
module DateRules {
  import opened Basics
  import opened IsoText
  import opened Gregorian
  import opened Months
  import opened Holidays
  import opened BusinessDays

  datatype DateBase = YearEnd | CalendarYearEnd | DateSent | FilingDeadline | PaymentDeadline | CustomInput

  datatype DateStep =
    | PlusDays(days: int)
    | PlusBusinessDays(days: int)
    | PlusMonths(months: int)
    | PlusYears(years: int)
    | ToEndOfMonth
    | FixedMonthDay(month: int, day: int, yearOffset: int)

  datatype Branch = Branch(whenFact: string, whenValue: bool, steps: seq<DateStep>, assumption: string)

  datatype DateRule = DateRule(
    base: DateBase,
    steps: seq<DateStep>,
    branches: seq<Branch>,
    requiredFacts: seq<string>,
    assumption: string,
    rollToBusinessDay: bool,
    requiresConfirmation: bool)

  /** What is known about an engagement. A fact nobody has answered is absent from the map. */
  datatype Inputs = Inputs(
    yearEnd: Option<int>,
    taxYear: Option<int>,
    dateSent: Option<int>,
    filingDeadline: Option<int>,
    paymentDeadline: Option<int>,
    customInput: Option<int>,
    facts: map<string, bool>)

  datatype Blocker = BaseUnknown(base: DateBase) | FactsMissing(missing: seq<string>)

  datatype Outcome = Outcome(
    inputDate: Option<int>,
    result: Option<int>,
    assumptions: seq<string>,
    requiresConfirmation: bool,
    missingFacts: seq<string>,
    blocker: Option<Blocker>)

  const ROLLED := "Rolled forward to the next business day."

  /** The source tests the tax year for truth, so a year of zero counts as unknown. */
  function ResolveBase(base: DateBase, inputs: Inputs): Option<int> {
    match base
    case YearEnd => inputs.yearEnd
    case CalendarYearEnd =>
      if inputs.taxYear.Some? && inputs.taxYear.value != 0 then Some(UtcDate(inputs.taxYear.value, 12, 31)) else None
    case DateSent => inputs.dateSent
    case FilingDeadline => inputs.filingDeadline
    case PaymentDeadline => inputs.paymentDeadline
    case CustomInput => inputs.customInput
  }

  function ApplyStep(d: int, step: DateStep): int {
    match step
    case PlusDays(n) => AddDays(d, n)
    case PlusBusinessDays(n) => BusinessDaysFrom(d, n)
    case PlusMonths(n) => AddMonths(d, n)
    case PlusYears(n) => AddMonths(d, 12 * n)
    case ToEndOfMonth => EndOfMonth(d)
    case FixedMonthDay(m, day, offset) => UtcDate(CivilOf(d).year + offset, m, day)
  }

  function ApplySteps(d: int, steps: seq<DateStep>): int
    decreases |steps|
  {
    if steps == [] then d else ApplySteps(ApplyStep(d, steps[0]), steps[1..])
  }

  /** The required facts nobody has answered, in the rule's order. */
  function Missing(required: seq<string>, facts: map<string, bool>): seq<string> {
    if required == [] then []
    else (if required[0] in facts then [] else [required[0]]) + Missing(required[1..], facts)
  }

  /** The first branch whose fact has the value it asks for. */
  function Matched(branches: seq<Branch>, facts: map<string, bool>): Option<Branch> {
    if branches == [] then None
    else if branches[0].whenFact in facts && facts[branches[0].whenFact] == branches[0].whenValue then Some(branches[0])
    else Matched(branches[1..], facts)
  }

  function StepsFor(rule: DateRule, facts: map<string, bool>): seq<DateStep> {
    var matched := Matched(rule.branches, facts);
    if matched.Some? then matched.value.steps else rule.steps
  }

  /** The date a rule gives from a known base and known facts. */
  function FinalDate(rule: DateRule, start: int, facts: map<string, bool>): int {
    var stepped := ApplySteps(start, StepsFor(rule, facts));
    if rule.rollToBusinessDay then RollForward(stepped) else stepped
  }

  function BaseAssumptions(rule: DateRule): seq<string> {
    if rule.assumption != "" then [rule.assumption] else []
  }

  function FinalAssumptions(rule: DateRule, start: int, facts: map<string, bool>): seq<string> {
    var matched := Matched(rule.branches, facts);
    var stepped := ApplySteps(start, StepsFor(rule, facts));
    BaseAssumptions(rule)
    + (if matched.Some? then [matched.value.assumption] else [])
    + (if rule.rollToBusinessDay && RollForward(stepped) != stepped then [ROLLED] else [])
  }

  /** What evaluating a rule says: unblocked exactly when the base and every required fact are known. */
  function Evaluate(rule: DateRule, inputs: Inputs): (o: Outcome)
    ensures o.result.Some? <==> ResolveBase(rule.base, inputs).Some? && Missing(rule.requiredFacts, inputs.facts) == []
    ensures o.result.Some? <==> o.blocker.None?
  {
    var missing := Missing(rule.requiredFacts, inputs.facts);
    match ResolveBase(rule.base, inputs)
    case None =>
      Outcome(None, None, BaseAssumptions(rule), rule.requiresConfirmation, missing, Some(BaseUnknown(rule.base)))
    case Some(start) =>
      if missing != [] then
        Outcome(Some(start), None, BaseAssumptions(rule), rule.requiresConfirmation, missing, Some(FactsMissing(missing)))
      else
        Outcome(Some(start), Some(FinalDate(rule, start, inputs.facts)), FinalAssumptions(rule, start, inputs.facts),
                rule.requiresConfirmation, [], None)
  }

  /** `evaluateDateRule`: assumptions are pushed as they are made, and the roll replaces the result. */
  method EvaluateDateRule(rule: DateRule, inputs: Inputs) returns (o: Outcome)
    ensures o == Evaluate(rule, inputs)
  {
    hide AddDays, BusinessDaysFrom, RollForward, IsBusinessDay, ResolveBase;
    var assumptions: seq<string> := [];
    if rule.assumption != "" {
      assumptions := assumptions + [rule.assumption];
    }
    var missing := Missing(rule.requiredFacts, inputs.facts);
    var inputDate := ResolveBase(rule.base, inputs);
    if inputDate.None? {
      return Outcome(None, None, assumptions, rule.requiresConfirmation, missing, Some(BaseUnknown(rule.base)));
    }
    if missing != [] {
      return Outcome(inputDate, None, assumptions, rule.requiresConfirmation, missing, Some(FactsMissing(missing)));
    }
    var matched := Matched(rule.branches, inputs.facts);
    var steps := rule.steps;
    if matched.Some? {
      steps := matched.value.steps;
      assumptions := assumptions + [matched.value.assumption];
    }
    var result := ApplySteps(inputDate.value, steps);
    if rule.rollToBusinessDay {
      AddDaysIsAddition(result, -1);
      RollIsOneFromTheDayBefore(result);
      var rolled := BusinessDaysFrom(AddDays(result, -1), 1);
      if rolled != result {
        assumptions := assumptions + [ROLLED];
        result := rolled;
      }
    }
    o := Outcome(inputDate, Some(result), assumptions, rule.requiresConfirmation, [], None);
  }

  // ---------------------------------------------------------------- Never guessing

  predicate Keeps(before: Option<int>, after: Option<int>) {
    before.Some? ==> after == before
  }

  /** The later inputs say everything the earlier ones said, and perhaps more. */
  ghost predicate Informs(earlier: Inputs, later: Inputs) {
    && Keeps(earlier.yearEnd, later.yearEnd)
    && Keeps(earlier.taxYear, later.taxYear)
    && Keeps(earlier.dateSent, later.dateSent)
    && Keeps(earlier.filingDeadline, later.filingDeadline)
    && Keeps(earlier.paymentDeadline, later.paymentDeadline)
    && Keeps(earlier.customInput, later.customInput)
    && forall f | f in earlier.facts :: f in later.facts && later.facts[f] == earlier.facts[f]
  }

  predicate BranchFactsRequired(rule: DateRule) {
    forall b | b in rule.branches :: b.whenFact in rule.requiredFacts
  }

  lemma {:induction false} NoneMissing(required: seq<string>, facts: map<string, bool>)
    ensures Missing(required, facts) == [] <==> forall f | f in required :: f in facts
  {
    if required != [] {
      NoneMissing(required[1..], facts);
      assert forall f :: f in required <==> f == required[0] || f in required[1..];
    }
  }

  lemma {:induction false} MatchedSettled(branches: seq<Branch>, earlier: map<string, bool>, later: map<string, bool>)
    requires forall b | b in branches :: b.whenFact in earlier
    requires forall f | f in earlier :: f in later && later[f] == earlier[f]
    ensures Matched(branches, earlier) == Matched(branches, later)
  {
    if branches != [] {
      assert branches[0] in branches;
      MatchedSettled(branches[1..], earlier, later);
    }
  }

  /** More information never changes a date a rule has already produced. */
  lemma NeverGuesses(rule: DateRule, earlier: Inputs, later: Inputs)
    requires BranchFactsRequired(rule) && Informs(earlier, later)
    requires Evaluate(rule, earlier).result.Some?
    ensures Evaluate(rule, later) == Evaluate(rule, earlier)
  {
    hide UtcDate, FinalDate, FinalAssumptions;
    NoneMissing(rule.requiredFacts, earlier.facts);
    NoneMissing(rule.requiredFacts, later.facts);
    MatchedSettled(rule.branches, earlier.facts, later.facts);
    var start := ResolveBase(rule.base, earlier).value;
    SameFinal(rule, start, earlier.facts, later.facts);
  }

  lemma SameFinal(rule: DateRule, start: int, f: map<string, bool>, g: map<string, bool>)
    requires Matched(rule.branches, f) == Matched(rule.branches, g)
    ensures FinalDate(rule, start, f) == FinalDate(rule, start, g)
    ensures FinalAssumptions(rule, start, f) == FinalAssumptions(rule, start, g)
  {
    hide ApplySteps, RollForward, Matched;
  }

  /** A rule whose produced dates more information never changes. */
  ghost predicate NeverChanges(rule: DateRule) {
    forall earlier, later | Informs(earlier, later) && Evaluate(rule, earlier).result.Some? ::
      Evaluate(rule, later).result == Evaluate(rule, earlier).result
  }

  /** The base dates a rule can meet: any day, but for a calendar year-end only the last of December. */
  ghost predicate BaseCanBe(base: DateBase, d: int) {
    base == CalendarYearEnd ==> exists year :: year != 0 && d == UtcDate(year, 12, 31)
  }

  /** Inputs that say no more than a base date, or the year of one that ends in December, and some facts. */
  function KnowingOnly(base: DateBase, d: int, year: int, facts: map<string, bool>): (i: Inputs)
    requires base == CalendarYearEnd ==> year != 0 && d == UtcDate(year, 12, 31)
    ensures ResolveBase(base, i) == Some(d) && i.facts == facts
  {
    Inputs(if base == YearEnd then Some(d) else None,
           if base == CalendarYearEnd then Some(year) else None,
           if base == DateSent then Some(d) else None,
           if base == FilingDeadline then Some(d) else None,
           if base == PaymentDeadline then Some(d) else None,
           if base == CustomInput then Some(d) else None,
           facts)
  }

  lemma ResolvedCanBe(base: DateBase, inputs: Inputs)
    requires ResolveBase(base, inputs).Some?
    ensures BaseCanBe(base, ResolveBase(base, inputs).value)
  {
    hide UtcDate;
  }

  /** The date some steps lead to under a rule. */
  function DateBy(rule: DateRule, steps: seq<DateStep>, d: int): int {
    var stepped := ApplySteps(d, steps);
    if rule.rollToBusinessDay then RollForward(stepped) else stepped
  }

  predicate Matches(b: Branch, facts: map<string, bool>) {
    b.whenFact in facts && facts[b.whenFact] == b.whenValue
  }

  /** A branch whose fact is still open, and which its answer would make the rule's choice. */
  predicate Open(branches: seq<Branch>, facts: map<string, bool>, i: nat) {
    && i < |branches| && branches[i].whenFact !in facts
    && forall j | 0 <= j < i :: !Matches(branches[j], facts[branches[i].whenFact := branches[i].whenValue])
  }

  /** Whatever is known, an open branch gives the date the rule gives without it. */
  ghost predicate OpenBranchesAgree(rule: DateRule) {
    forall facts, i: nat, d |
      (forall f | f in rule.requiredFacts :: f in facts) && Open(rule.branches, facts, i) && BaseCanBe(rule.base, d) ::
      DateBy(rule, rule.branches[i].steps, d) == DateBy(rule, StepsFor(rule, facts), d)
  }

  /** What the first matching branch is. */
  lemma {:induction false} MatchedIs(branches: seq<Branch>, facts: map<string, bool>, i: nat)
    requires i <= |branches| && forall j | 0 <= j < i :: !Matches(branches[j], facts)
    requires i < |branches| ==> Matches(branches[i], facts)
    ensures Matched(branches, facts) == if i < |branches| then Some(branches[i]) else None
  {
    if i > 0 {
      MatchedIs(branches[1..], facts, i - 1);
    }
  }

  lemma {:induction false} FirstMatching(branches: seq<Branch>, facts: map<string, bool>) returns (i: nat)
    ensures i <= |branches| && forall j | 0 <= j < i :: !Matches(branches[j], facts)
    ensures i < |branches| ==> Matches(branches[i], facts)
  {
    if branches == [] || Matches(branches[0], facts) {
      i := 0;
    } else {
      var k := FirstMatching(branches[1..], facts);
      i := k + 1;
      forall j | 0 <= j < i
        ensures !Matches(branches[j], facts)
      {
        if j > 0 {
          assert branches[j] == branches[1..][j - 1];
        }
      }
    }
  }

  lemma FinalDateIs(rule: DateRule, d: int, facts: map<string, bool>)
    ensures FinalDate(rule, d, facts) == DateBy(rule, StepsFor(rule, facts), d)
  {
  }

  /** More facts lead to the date fewer gave, or through a branch that was open. */
  lemma MoreFacts(rule: DateRule, fewer: map<string, bool>, more: map<string, bool>) returns (i: nat)
    requires forall f | f in fewer :: f in more && more[f] == fewer[f]
    ensures StepsFor(rule, more) == StepsFor(rule, fewer)
            || (Open(rule.branches, fewer, i) && StepsFor(rule, more) == rule.branches[i].steps)
  {
    i := FirstMatching(rule.branches, more);
    MatchedIs(rule.branches, more, i);
    if i == |rule.branches| {
      MatchedIs(rule.branches, fewer, i);
    } else if rule.branches[i].whenFact in fewer {
      MatchedIs(rule.branches, fewer, i);
    }
  }

  /**
   * A rule never changes a produced date exactly when every branch that could still come to be chosen gives the
   * date the rule already gives. Requiring a branch's fact is the usual way: the branch is then never open.
   */
  lemma GuessesExactly(rule: DateRule)
    ensures NeverChanges(rule) <==> OpenBranchesAgree(rule)
  {
    hide Evaluate, StepsFor, DateBy, BaseCanBe;
    if OpenBranchesAgree(rule) {
      forall earlier, later | Informs(earlier, later) && Evaluate(rule, earlier).result.Some?
        ensures Evaluate(rule, later).result == Evaluate(rule, earlier).result
      {
        AgreeingNeverChanges(rule, earlier, later);
      }
    } else {
      var facts, i: nat, d :| (forall f | f in rule.requiredFacts :: f in facts) && Open(rule.branches, facts, i)
        && BaseCanBe(rule.base, d)
        && DateBy(rule, rule.branches[i].steps, d) != DateBy(rule, StepsFor(rule, facts), d);
      OpenBranchChanges(rule, facts, i, d);
    }
  }

  lemma AgreeingNeverChanges(rule: DateRule, earlier: Inputs, later: Inputs)
    requires OpenBranchesAgree(rule) && Informs(earlier, later) && Evaluate(rule, earlier).result.Some?
    ensures Evaluate(rule, later).result == Evaluate(rule, earlier).result
  {
    hide FinalDate, FinalAssumptions, UtcDate, StepsFor, DateBy, Open;
    NoneMissing(rule.requiredFacts, earlier.facts);
    NoneMissing(rule.requiredFacts, later.facts);
    var d := ResolveBase(rule.base, earlier).value;
    ResolvedCanBe(rule.base, earlier);
    FinalDateIs(rule, d, earlier.facts);
    FinalDateIs(rule, d, later.facts);
    var i := MoreFacts(rule, earlier.facts, later.facts);
  }

  lemma OpenBranchChanges(rule: DateRule, facts: map<string, bool>, i: nat, d: int)
    requires (forall f | f in rule.requiredFacts :: f in facts) && Open(rule.branches, facts, i) && BaseCanBe(rule.base, d)
    requires DateBy(rule, rule.branches[i].steps, d) != DateBy(rule, StepsFor(rule, facts), d)
    ensures !NeverChanges(rule)
  {
    hide FinalDate, FinalAssumptions, UtcDate, DateBy, KnowingOnly;
    var more := facts[rule.branches[i].whenFact := rule.branches[i].whenValue];
    var year := 0;
    if rule.base == CalendarYearEnd {
      year :| year != 0 && d == UtcDate(year, 12, 31);
    }
    var earlier := KnowingOnly(rule.base, d, year, facts);
    var later := earlier.(facts := more);
    NoneMissing(rule.requiredFacts, facts);
    NoneMissing(rule.requiredFacts, more);
    MatchedIs(rule.branches, more, i);
    FinalDateIs(rule, d, facts);
    FinalDateIs(rule, d, more);
    assert ResolveBase(rule.base, later) == Some(d);
    assert Informs(earlier, later);
    assert Evaluate(rule, earlier).result != Evaluate(rule, later).result;
  }

  /** With one branch: its fact is required, or it makes no difference. */
  lemma OneBranchGuessesExactly(rule: DateRule)
    requires |rule.branches| == 1
    ensures NeverChanges(rule) <==>
            rule.branches[0].whenFact in rule.requiredFacts
            || forall d | BaseCanBe(rule.base, d) :: DateBy(rule, rule.branches[0].steps, d) == DateBy(rule, rule.steps, d)
  {
    hide DateBy, BaseCanBe, NeverChanges;
    GuessesExactly(rule);
    var b := rule.branches[0];
    if b.whenFact !in rule.requiredFacts {
      var answered := map f | f in rule.requiredFacts :: true;
      assert Open(rule.branches, answered, 0);
      MatchedIs(rule.branches, answered, 1);
    }
    forall facts, i: nat | Open(rule.branches, facts, i)
      ensures i == 0 && StepsFor(rule, facts) == rule.steps
    {
      MatchedIs(rule.branches, facts, 1);
    }
  }
}
