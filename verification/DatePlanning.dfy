/**
 * The feed-forward plan: rules are evaluated in order, a filing or payment date found on the way
 * becomes an input of the rules after it, and each outcome is stored unless a person has decided the date.
 */
module DatePlanning {
  import opened Basics
  import opened DateRules
  import opened SeededRules

  datatype StoredRule = StoredRule(definition: DateRule, requiresConfirmation: bool)

  /** The active rules, by code. */
  type RuleBook = map<RuleCode, StoredRule>

  datatype Evaluated = Evaluated(entry: PlanEntry, outcome: Outcome, requiresConfirmation: bool)

  predicate SetsFiling(token: DateToken) {
    token == FilingDue || token == FilingDeadlineDate
  }

  predicate SetsPayment(token: DateToken) {
    token == PaymentDeadlineDate || token == BalanceDue
  }

  function FeedForward(token: DateToken, result: Option<int>, inputs: Inputs): Inputs {
    if result.None? then inputs
    else if SetsFiling(token) then inputs.(filingDeadline := result)
    else if SetsPayment(token) then inputs.(paymentDeadline := result)
    else inputs
  }

  /** The outcomes of a plan, in order; an entry whose rule is missing or inactive is passed over. */
  function RunPlan(plan: seq<PlanEntry>, rules: RuleBook, inputs: Inputs): seq<Evaluated> {
    if plan == [] then []
    else if plan[0].code !in rules then RunPlan(plan[1..], rules, inputs)
    else
      var rule := rules[plan[0].code];
      var outcome := Evaluate(rule.definition, inputs);
      [Evaluated(plan[0], outcome, rule.requiresConfirmation)]
      + RunPlan(plan[1..], rules, FeedForward(plan[0].token, outcome.result, inputs))
  }

  // ---------------------------------------------------------------- The stored dates

  datatype Notes = Assumed(assumptions: seq<string>) | BlockedBecause(blocker: Blocker)

  datatype DateRow = DateRow(
    ruleCode: Option<RuleCode>,
    inputDate: Option<int>,
    result: Option<int>,
    notes: Notes,
    requiresConfirmation: bool,
    confirmed: bool,
    manualOverride: Option<int>)

  type Rows = map<DateToken, DateRow>

  /** A confirmed or overridden date is a person's decision. */
  predicate Decided(rows: Rows, token: DateToken) {
    token in rows && (rows[token].confirmed || rows[token].manualOverride.Some?)
  }

  function Put(rows: Rows, token: DateToken, row: DateRow): Rows {
    if Decided(rows, token) then rows else rows[token := row]
  }

  function RowFor(e: Evaluated): DateRow {
    DateRow(Some(e.entry.code), e.outcome.inputDate, e.outcome.result,
            if e.outcome.blocker.Some? then BlockedBecause(e.outcome.blocker.value) else Assumed(e.outcome.assumptions),
            e.requiresConfirmation, false, None)
  }

  function PutAll(rows: Rows, run: seq<Evaluated>): Rows
    decreases |run|
  {
    if run == [] then rows else PutAll(Put(rows, run[0].entry.token, RowFor(run[0])), run[1..])
  }

  function SentRow(today: int): DateRow {
    DateRow(None, None, Some(today), Assumed(["Proposed as today; confirm the date of issue."]), true, false, None)
  }

  /** The rows after a run: the date of issue is proposed first. */
  function AfterRun(rows: Rows, today: int, run: seq<Evaluated>): Rows {
    PutAll(Put(rows, Sent, SentRow(today)), run)
  }

  function BlockedTokens(run: seq<Evaluated>): seq<DateToken> {
    if run == [] then []
    else (if run[0].outcome.blocker.Some? then [run[0].entry.token] else []) + BlockedTokens(run[1..])
  }

  function PlanInputs(taxYear: int, yearEnd: Option<int>, today: int, facts: map<string, bool>): Inputs {
    Inputs(yearEnd, Some(taxYear), Some(today), None, None, None, facts)
  }

  /** What one evaluated entry contributes to the rest of a run. */
  lemma RunTurn(run: seq<Evaluated>, e: Evaluated)
    requires run != [] && run[0] == e
    ensures forall rows :: PutAll(rows, run) == PutAll(Put(rows, e.entry.token, RowFor(e)), run[1..])
    ensures BlockedTokens(run) == (if e.outcome.blocker.Some? then [e.entry.token] else []) + BlockedTokens(run[1..])
  {
  }

  class EngagementDates {
    var rows: Rows

    constructor ()
      ensures rows == map[]
    {
      rows := map[];
    }

    /** `putDate`: writes the row unless a person has decided this date. */
    method PutDate(token: DateToken, row: DateRow)
      modifies this
      ensures rows == Put(old(rows), token, row)
    {
      if token in rows && (rows[token].confirmed || rows[token].manualOverride.Some?) {
        return;
      }
      rows := rows[token := row];
    }

    /** `calculateDates`: proposes the date of issue, then runs the plan, storing and feeding forward. */
    method CalculateDates(kind: EngagementType, taxYear: int, yearEnd: Option<int>, today: int,
                          facts: map<string, bool>, rules: RuleBook)
      returns (calculated: nat, blocked: seq<DateToken>)
      modifies this
      ensures var run := RunPlan(DatePlan(kind), rules, PlanInputs(taxYear, yearEnd, today, facts));
              && rows == AfterRun(old(rows), today, run)
              && blocked == BlockedTokens(run)
              && calculated + |blocked| == 1 + |run|
    {
      hide Evaluate, DatePlan, RowFor, Put, FeedForward, PlanInputs, SentRow;
      var inputs := PlanInputs(taxYear, yearEnd, today, facts);
      var plan := DatePlan(kind);
      ghost var run := RunPlan(plan, rules, inputs);
      calculated, blocked := 0, [];
      PutDate(Sent, SentRow(today));
      calculated := calculated + 1;
      ghost var start := rows;
      var i := 0;
      ghost var seen := 0;
      while i < |plan|
        invariant 0 <= i <= |plan| && 0 <= seen <= |run|
        invariant run[seen..] == RunPlan(plan[i..], rules, inputs)
        invariant PutAll(rows, run[seen..]) == PutAll(start, run)
        invariant blocked + BlockedTokens(run[seen..]) == BlockedTokens(run)
        invariant calculated + |blocked| == 1 + seen
      {
        var entry := plan[i];
        assert plan[i..][0] == entry && plan[i..][1..] == plan[i + 1..];
        i := i + 1;
        if entry.code in rules {
          var rule := rules[entry.code];
          var outcome := EvaluateDateRule(rule.definition, inputs);
          var e := Evaluated(entry, outcome, rule.requiresConfirmation);
          RunTurn(run[seen..], e);
          assert run[seen..][1..] == run[seen + 1..];
          PutDate(entry.token, RowFor(e));
          if outcome.blocker.Some? {
            blocked := blocked + [entry.token];
          } else {
            calculated := calculated + 1;
          }
          inputs := FeedForward(entry.token, outcome.result, inputs);
          seen := seen + 1;
        }
      }
      assert run[seen..] == [];
      assert blocked + [] == blocked;
    }
  }

  // ---------------------------------------------------------------- Decisions and re-running

  /** The outcome a run leaves for a token: the last one, if any. */
  function LastFor(run: seq<Evaluated>, token: DateToken): Option<DateRow>
  {
    if run == [] then None
    else
      var rest := LastFor(run[1..], token);
      if rest.Some? then rest else if run[0].entry.token == token then Some(RowFor(run[0])) else None
  }

  /** What the store holds after a run, token by token: decisions stand, everything else is the run's. */
  lemma {:induction false} StoredAfter(rows: Rows, run: seq<Evaluated>, token: DateToken)
    ensures var after := PutAll(rows, run);
            if Decided(rows, token) then token in after && after[token] == rows[token]
            else if LastFor(run, token).Some? then token in after && after[token] == LastFor(run, token).value
            else (token in after <==> token in rows) && (token in rows ==> after[token] == rows[token])
    decreases |run|
  {
    if run != [] {
      StoredAfter(Put(rows, run[0].entry.token, RowFor(run[0])), run[1..], token);
    }
  }

  /** Re-running an unchanged plan changes nothing. */
  lemma RerunIsIdempotent(rows: Rows, run: seq<Evaluated>)
    ensures PutAll(PutAll(rows, run), run) == PutAll(rows, run)
  {
    var once := PutAll(rows, run);
    forall token: DateToken
      ensures token in PutAll(once, run) <==> token in once
      ensures token in once ==> PutAll(once, run)[token] == once[token]
    {
      StoredAfter(rows, run, token);
      StoredAfter(once, run, token);
    }
  }

  /** The date a stored row settles on: a person's own, or else the result. */
  function StoredDate(rows: Rows, token: DateToken): Option<int> {
    if token !in rows then None
    else if rows[token].manualOverride.Some? then rows[token].manualOverride
    else rows[token].result
  }

  /** The date a run computes for a token. */
  function RunDate(run: seq<Evaluated>, token: DateToken): Option<int> {
    if LastFor(run, token).Some? then LastFor(run, token).value.result else None
  }

  lemma {:induction false} LastForOnly(run: seq<Evaluated>, k: nat)
    requires k < |run|
    requires forall i | 0 <= i < |run| && i != k :: run[i].entry.token != run[k].entry.token
    ensures LastFor(run, run[k].entry.token) == Some(RowFor(run[k]))
    ensures RunDate(run, run[k].entry.token) == run[k].outcome.result
  {
    if k > 0 {
      LastForOnly(run[1..], k - 1);
    } else {
      NoneFor(run[1..], run[0].entry.token);
    }
  }

  lemma {:induction false} NoneFor(run: seq<Evaluated>, token: DateToken)
    requires forall i | 0 <= i < |run| :: run[i].entry.token != token
    ensures LastFor(run, token) == None
  {
    if run != [] {
      NoneFor(run[1..], token);
    }
  }

  /** Decided dates stay what they were; every other date the run computes is stored. */
  lemma StoredDates(rows: Rows, today: int, run: seq<Evaluated>, token: DateToken)
    requires token != Sent && RunDate(run, token).Some?
    ensures StoredDate(AfterRun(rows, today, run), token)
            == if Decided(rows, token) then StoredDate(rows, token) else RunDate(run, token)
  {
    StoredAfter(Put(rows, Sent, SentRow(today)), run, token);
    LastForHasNoOverride(run, token);
  }

  lemma {:induction false} LastForHasNoOverride(run: seq<Evaluated>, token: DateToken)
    ensures var last := LastFor(run, token);
            last.Some? ==> last.value.manualOverride.None? && !last.value.confirmed
  {
    if run != [] {
      LastForHasNoOverride(run[1..], token);
    }
  }

  /** A run decides nothing. */
  lemma RunDecidesNothing(rows: Rows, today: int, run: seq<Evaluated>, token: DateToken)
    requires token != Sent
    ensures Decided(AfterRun(rows, today, run), token) == Decided(rows, token)
  {
    StoredAfter(Put(rows, Sent, SentRow(today)), run, token);
    LastForHasNoOverride(run, token);
  }

  // ---------------------------------------------------------------- Never guessing, through the plan

  /** No input is written that is already known, and none is written twice. */
  predicate SlotsFree(plan: seq<PlanEntry>, inputs: Inputs) {
    plan == []
    || (&& (SetsFiling(plan[0].token) ==> inputs.filingDeadline.None?)
        && (SetsFiling(plan[0].token) ==> forall e | e in plan[1..] :: !SetsFiling(e.token))
        && (SetsPayment(plan[0].token) ==> inputs.paymentDeadline.None?)
        && (SetsPayment(plan[0].token) ==> forall e | e in plan[1..] :: !SetsPayment(e.token))
        && SlotsFree(plan[1..], inputs))
  }

  lemma {:induction false} SlotsStayFree(plan: seq<PlanEntry>, inputs: Inputs, token: DateToken, result: Option<int>)
    requires SlotsFree(plan, inputs)
    requires SetsFiling(token) ==> forall e | e in plan :: !SetsFiling(e.token)
    requires SetsPayment(token) ==> forall e | e in plan :: !SetsPayment(e.token)
    ensures SlotsFree(plan, FeedForward(token, result, inputs))
  {
    if plan != [] {
      assert plan[0] in plan;
      assert forall e :: e in plan[1..] ==> e in plan;
      SlotsStayFree(plan[1..], inputs, token, result);
    }
  }

  lemma PlansLeaveSlotsFree(kind: EngagementType, taxYear: int, yearEnd: Option<int>, today: int, facts: map<string, bool>)
    ensures SlotsFree(DatePlan(kind), PlanInputs(taxYear, yearEnd, today, facts))
  {
    var inputs := PlanInputs(taxYear, yearEnd, today, facts);
    SlotsFreeByIndex(DatePlan(kind), inputs);
  }

  lemma {:induction false} SlotsFreeByIndex(plan: seq<PlanEntry>, inputs: Inputs)
    requires inputs.filingDeadline.None? && inputs.paymentDeadline.None?
    requires forall i, j | 0 <= i < j < |plan| :: SetsFiling(plan[i].token) ==> !SetsFiling(plan[j].token)
    requires forall i, j | 0 <= i < j < |plan| :: SetsPayment(plan[i].token) ==> !SetsPayment(plan[j].token)
    ensures SlotsFree(plan, inputs)
  {
    if plan != [] {
      SlotsFreeByIndex(plan[1..], inputs);
    }
  }

  /**
   * More information never changes a date the plan has produced: the same entries run, every date
   * unblocked before is unblocked after, and its whole outcome is the same.
   */
  lemma {:induction false} PlanNeverGuesses(plan: seq<PlanEntry>, rules: RuleBook, earlier: Inputs, later: Inputs)
    requires forall code | code in rules :: BranchFactsRequired(rules[code].definition)
    requires Informs(earlier, later) && SlotsFree(plan, earlier)
    ensures var before, after := RunPlan(plan, rules, earlier), RunPlan(plan, rules, later);
            && |before| == |after|
            && (forall k | 0 <= k < |before| ::
                 && before[k].entry == after[k].entry
                 && (before[k].outcome.result.Some? ==> after[k] == before[k]))
    decreases |plan|
  {
    hide Evaluate;
    if plan == [] {
    } else if plan[0].code !in rules {
      PlanNeverGuesses(plan[1..], rules, earlier, later);
    } else {
      var rule, token := rules[plan[0].code].definition, plan[0].token;
      var first, second := Evaluate(rule, earlier), Evaluate(rule, later);
      if first.result.Some? {
        NeverGuesses(rule, earlier, later);
      }
      SlotsStayFree(plan[1..], earlier, token, first.result);
      PlanNeverGuesses(plan[1..], rules,
                       FeedForward(token, first.result, earlier), FeedForward(token, second.result, later));
    }
  }
}
