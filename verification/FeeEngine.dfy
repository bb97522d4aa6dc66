/** The fee calculation: method, two-stage rounding, and the approval a change of fee demands. */
module FeeEngine {
  import opened Basics
  import opened Money

  datatype FeeMethod = NoIncrease | Percentage | FixedAmount | ExactTarget

  datatype PriceRule = PriceRule(
    method_: FeeMethod,
    percentage: Option<real>,
    fixedAmount: Option<real>,
    exactTarget: Option<real>,
    skipRounding: bool)

  datatype Override = Override(amount: real, reason: string)

  datatype Compilation = Compilation(priorYearSelected: Option<bool>, currentSelected: Option<bool>)

  datatype FeeInput = FeeInput(
    rule: PriceRule,
    previousFee: Option<real>,
    threshold: Option<real>,
    manualOverride: Option<Override>,
    conflictingPreviousFee: Option<real>,
    compilation: Option<Compilation>)

  datatype Approval = NoApproval | FeeDecrease | FeeHighIncrease

  datatype Warning =
    | CompilationDropped | CompilationAdded | PriorFeeConflict | PriorFeeMissing
    | FeeDecreased | FeeUnchanged | FeeAboveThreshold | DecreaseNeedsReason

  datatype BlockedReason = TargetMissing | PriorFeeUnknown | PercentageMissing | AmountMissing | NegativeFee

  datatype Quote =
    | Priced(unrounded: real, fee: real, increase: Option<real>, effective: Option<real>, approval: Approval)
    | Blocked(reason: BlockedReason)
    | Refused

  const DEFAULT_THRESHOLD := 10.0

  /** The fee before any rounding, or why there is none. */
  datatype Raw = Amount(value: real) | NoAmount(reason: BlockedReason)

  function RawFee(input: FeeInput): Raw {
    if input.manualOverride.Some? then Amount(input.manualOverride.value.amount)
    else
      match input.rule.method_
      case ExactTarget =>
        if input.rule.exactTarget.None? then NoAmount(TargetMissing) else Amount(input.rule.exactTarget.value)
      case NoIncrease =>
        if input.previousFee.None? then NoAmount(PriorFeeUnknown) else Amount(input.previousFee.value)
      case Percentage =>
        if input.previousFee.None? then NoAmount(PriorFeeUnknown)
        else if input.rule.percentage.None? then NoAmount(PercentageMissing)
        else Amount(input.previousFee.value * (input.rule.percentage.value / 100.0 + 1.0))
      case FixedAmount =>
        if input.previousFee.None? then NoAmount(PriorFeeUnknown)
        else if input.rule.fixedAmount.None? then NoAmount(AmountMissing)
        else Amount(input.previousFee.value + input.rule.fixedAmount.value)
  }

  function Threshold(input: FeeInput): real {
    if input.threshold.Some? then input.threshold.value else DEFAULT_THRESHOLD
  }

  /** What a final fee demands of the firm, given last year's. */
  function ApprovalFor(previous: Option<real>, fee: real, threshold: real): Approval {
    if previous.None? then NoApproval
    else if fee < previous.value then FeeDecrease
    else if fee == previous.value then NoApproval
    else
      var effective := PercentageChange(previous.value, fee);
      if effective.Some? && effective.value > threshold then FeeHighIncrease else NoApproval
  }

  /** A raw fee below zero stays negative when rounded, a negative zero included, so it is blocked. */
  function Calculate(input: FeeInput): Quote {
    if input.manualOverride.Some? && Blank(input.manualOverride.value.reason) then Refused
    else
      match RawFee(input)
      case NoAmount(reason) => Blocked(reason)
      case Amount(raw) =>
        if raw < 0.0 then Blocked(NegativeFee)
        else
          var unrounded := ToCents(raw);
          var fee := if input.rule.skipRounding then unrounded else RoundUpToNearest5(unrounded);
          Priced(unrounded, fee,
                 if input.previousFee.Some? then Some(fee - input.previousFee.value) else None,
                 if input.previousFee.Some? then PercentageChange(input.previousFee.value, fee) else None,
                 ApprovalFor(input.previousFee, fee, Threshold(input)))
  }

  /** When each warning is raised. */
  predicate Warns(input: FeeInput, w: Warning) {
    match w
    case CompilationDropped =>
      input.compilation.Some? && input.compilation.value == Compilation(Some(true), Some(false))
    case CompilationAdded =>
      input.compilation.Some? && input.compilation.value == Compilation(Some(false), Some(true))
    case PriorFeeConflict =>
      input.previousFee.Some? && input.conflictingPreviousFee.Some? && input.previousFee != input.conflictingPreviousFee
    case PriorFeeMissing => Calculate(input) == Blocked(PriorFeeUnknown)
    case FeeDecreased => Calculate(input).Priced? && Calculate(input).approval == FeeDecrease
    case DecreaseNeedsReason =>
      Calculate(input).Priced? && Calculate(input).approval == FeeDecrease && input.manualOverride.None?
    case FeeUnchanged => Calculate(input).Priced? && input.previousFee == Some(Calculate(input).fee)
    case FeeAboveThreshold => Calculate(input).Priced? && Calculate(input).approval == FeeHighIncrease
  }

  /** Warnings about the inputs, pushed before anything is calculated. */
  function InputWarnings(input: FeeInput): seq<Warning> {
    (if Warns(input, CompilationDropped) then [CompilationDropped] else [])
    + (if Warns(input, CompilationAdded) then [CompilationAdded] else [])
    + (if Warns(input, PriorFeeConflict) then [PriorFeeConflict] else [])
  }

  /** Warnings about the fee. */
  function FeeWarnings(input: FeeInput): seq<Warning> {
    (if Warns(input, PriorFeeMissing) then [PriorFeeMissing] else [])
    + (if Warns(input, FeeDecreased) then [FeeDecreased] else [])
    + (if Warns(input, FeeUnchanged) then [FeeUnchanged] else [])
    + (if Warns(input, FeeAboveThreshold) then [FeeAboveThreshold] else [])
    + (if Warns(input, DecreaseNeedsReason) then [DecreaseNeedsReason] else [])
  }

  function Position(w: Warning): nat {
    match w
    case CompilationDropped => 0
    case CompilationAdded => 1
    case PriorFeeConflict => 2
    case PriorFeeMissing => 3
    case FeeDecreased => 4
    case FeeUnchanged => 5
    case FeeAboveThreshold => 6
    case DecreaseNeedsReason => 7
  }

  lemma InputWarningsExact(input: FeeInput, w: Warning)
    ensures w in InputWarnings(input) <==> Position(w) <= 2 && Warns(input, w)
    ensures forall i, j | 0 <= i < j < |InputWarnings(input)| :: Position(InputWarnings(input)[i]) < Position(InputWarnings(input)[j])
  {
    hide Warns;
    assert Position(w) <= 2 <==> w in [CompilationDropped, CompilationAdded, PriorFeeConflict];
  }

  lemma FeeWarningsExact(input: FeeInput, w: Warning)
    ensures w in FeeWarnings(input) <==> Position(w) >= 3 && Warns(input, w)
  {
    hide Warns;
    assert Position(w) >= 3 <==> w in [PriorFeeMissing, FeeDecreased, FeeUnchanged, FeeAboveThreshold, DecreaseNeedsReason];
  }

  lemma FeeWarningsInOrder(input: FeeInput)
    ensures forall i, j | 0 <= i < j < |FeeWarnings(input)| :: Position(FeeWarnings(input)[i]) < Position(FeeWarnings(input)[j])
  {
    hide Warns;
  }

  /** Exactly the due warnings are given, and none twice: the final de-duplication never drops one. */
  lemma WarningsAreExact(input: FeeInput)
    ensures var warnings := InputWarnings(input) + FeeWarnings(input);
            && (forall w: Warning :: w in warnings <==> Warns(input, w))
            && (forall i, j | 0 <= i < j < |warnings| :: warnings[i] != warnings[j])
  {
    hide Warns, InputWarnings, FeeWarnings;
    var a, b := InputWarnings(input), FeeWarnings(input);
    forall w: Warning
      ensures w in a + b <==> Warns(input, w)
      ensures w in a ==> Position(w) <= 2
      ensures w in b ==> Position(w) >= 3
    {
      InputWarningsExact(input, w);
      FeeWarningsExact(input, w);
    }
    InputWarningsExact(input, FeeDecreased);
    FeeWarningsInOrder(input);
    forall i, j | 0 <= i < j < |a + b|
      ensures (a + b)[i] != (a + b)[j]
    {
      if i < |a| <= j {
        assert (a + b)[i] in a && (a + b)[j] in b;
      }
    }
  }

  /** What is said before anything is calculated. */
  method CollectInputWarnings(input: FeeInput) returns (warnings: seq<Warning>)
    ensures warnings == InputWarnings(input)
  {
    warnings := [];
    if input.compilation.Some? {
      var c := input.compilation.value;
      if c.priorYearSelected == Some(true) && c.currentSelected == Some(false) {
        warnings := warnings + [CompilationDropped];
      }
      if c.priorYearSelected == Some(false) && c.currentSelected == Some(true) {
        warnings := warnings + [CompilationAdded];
      }
    }
    if input.previousFee.Some? && input.conflictingPreviousFee.Some?
       && input.previousFee.value != input.conflictingPreviousFee.value {
      warnings := warnings + [PriorFeeConflict];
    }
  }

  /** `calculateFee`: warnings are pushed as the calculation goes. */
  method CalculateFee(input: FeeInput) returns (q: Quote, warnings: seq<Warning>)
    ensures q == Calculate(input)
    ensures !q.Refused? ==> warnings == InputWarnings(input) + FeeWarnings(input)
  {
    hide InputWarnings, RoundUpToNearest5, ToCents, PercentageChange, Blank, RawFee, Threshold;
    warnings := CollectInputWarnings(input);
    if input.manualOverride.Some? && Blank(input.manualOverride.value.reason) {
      return Refused, warnings;
    }
    var raw := RawFee(input);
    if raw.NoAmount? {
      if raw.reason == PriorFeeUnknown {
        warnings := warnings + [PriorFeeMissing];
      }
      return Blocked(raw.reason), warnings;
    }
    if raw.value < 0.0 {
      return Blocked(NegativeFee), warnings;
    }
    var unrounded := ToCents(raw.value);
    var fee := if input.rule.skipRounding then unrounded else RoundUpToNearest5(unrounded);
    var increase: Option<real>, effective: Option<real>, approval := None, None, NoApproval;
    if input.previousFee.Some? {
      var previous := input.previousFee.value;
      increase, effective := Some(fee - previous), PercentageChange(previous, fee);
      if fee < previous {
        approval := FeeDecrease;
        warnings := warnings + [FeeDecreased];
      } else if fee == previous {
        warnings := warnings + [FeeUnchanged];
      } else if effective.Some? && effective.value > Threshold(input) {
        approval := FeeHighIncrease;
        warnings := warnings + [FeeAboveThreshold];
      }
    }
    if approval == FeeDecrease && input.manualOverride.None? {
      warnings := warnings + [DecreaseNeedsReason];
    }
    q := Priced(unrounded, fee, increase, effective, approval);
  }

  // ---------------------------------------------------------------- One year

  function PercentageInput(previous: real, percent: real): FeeInput {
    FeeInput(PriceRule(Percentage, Some(percent), None, None, false), Some(previous), None, None, None, None)
  }

  function Factor(percent: real): real {
    percent / 100.0 + 1.0
  }

  lemma RaisesProduct(f: real, q: real)
    requires f >= 0.0 && q >= 1.0
    ensures f * q >= f
  {
    assert f * q == f + f * (q - 1.0);
  }

  /**
   * One year of a non-negative percentage increase on a cent-precise fee: a multiple of five dollars, no
   * lower than last year's, never a decrease to approve, and less than half a cent below or five dollars
   * above the exact product.
   */
  lemma PercentageYear(previous: real, percent: real)
    requires previous >= 0.0 && WholeCents(previous) && percent >= 0.0
    ensures var q := Calculate(PercentageInput(previous, percent));
            && q.Priced? && q.approval != FeeDecrease
            && WholeFives(q.fee) && previous <= q.fee
            && previous * Factor(percent) - 0.005 < q.fee < previous * Factor(percent) + 5.0
  {
    hide ToCents, RoundUpToNearest5, WholeCents, WholeFives, PercentageChange;
    var input := PercentageInput(previous, percent);
    var raw := previous * Factor(percent);
    RaisesProduct(previous, Factor(percent));
    CentsAreClose(raw);
    CentsKeepFloor(raw, previous);
    var unrounded := ToCents(raw);
    var fee := RoundUpToNearest5(unrounded);
    FivesAreNext(unrounded);
    CentsAndFives(raw, unrounded, fee);
    assert RawFee(input) == Amount(raw);
    assert fee >= previous;
    assert Calculate(input).fee == fee && Calculate(input).approval == ApprovalFor(Some(previous), fee, DEFAULT_THRESHOLD);
  }

  /** Half a cent up and then up to the next five dollars is still less than five dollars in all. */
  lemma CentsAndFives(raw: real, unrounded: real, fee: real)
    requires raw >= 0.0 && unrounded == ToCents(raw) && fee == RoundUpToNearest5(unrounded)
    ensures fee < raw + 5.0
  {
    CentsAreClose(raw);
    FivesAreNext(unrounded);
    var n, k := (unrounded * 100.0).Floor, Ceiling(unrounded / 5.0);
    assert unrounded == n as real / 100.0 && fee == 5.0 * k as real;
    assert 500 * k < n + 500;
    assert 500 * k <= n + 499;
    assert fee <= unrounded + 4.99;
  }

  // ---------------------------------------------------------------- Compounding

  /** The fee after a number of years of percentage increases, each on the year before. */
  function FeeAfter(start: real, percents: seq<real>): real {
    if percents == [] then start
    else
      var before := FeeAfter(start, percents[..|percents| - 1]);
      var q := Calculate(PercentageInput(before, percents[|percents| - 1]));
      if q.Priced? then q.fee else before
  }

  /** The most a year's rounding adds to the exact product, and the least: both bounds are strict. */
  const MOST := 5.0
  const LEAST := -0.005

  /** A year's exact product and an amount. */
  function Grown(fee: real, percent: real, amount: real): real {
    fee * Factor(percent) + amount
  }

  /** The exact compounded fee, with an amount added every year and compounded in turn. */
  function Compounded(start: real, percents: seq<real>, amount: real): real {
    if percents == [] then start
    else Grown(Compounded(start, percents[..|percents| - 1], amount), percents[|percents| - 1], amount)
  }

  lemma TimesOrder(a: real, b: real, q: real)
    requires a <= b && q >= 0.0
    ensures a * q <= b * q
  {
  }

  /** Over any years of non-negative increases the fee never falls and stays between the compounded bounds. */
  lemma {:induction false} CompoundingBound(start: real, percents: seq<real>)
    requires start >= 0.0 && WholeCents(start)
    requires forall p | p in percents :: p >= 0.0
    ensures var fee := FeeAfter(start, percents);
            && WholeCents(fee) && fee >= start
            && (percents != [] ==> WholeFives(fee))
            && (if percents == [] then fee == start
                else Compounded(start, percents, LEAST) < fee < Compounded(start, percents, MOST))
  {
    hide WholeCents, WholeFives, Calculate, FeeAfter, Compounded, Factor, Grown;
    LastYear(start, percents, MOST);
    LastYear(start, percents, LEAST);
    if percents != [] {
      var rest, p := percents[..|percents| - 1], percents[|percents| - 1];
      assert forall x :: x in rest ==> x in percents;
      assert p in percents;
      CompoundingBound(start, rest);
      LastYear(start, rest, MOST);
      LastYear(start, rest, LEAST);
      var before := FeeAfter(start, rest);
      PercentageYear(before, p);
      FivesAreCents(FeeAfter(start, percents));
      BoundGrows(FeeAfter(start, percents), before, Compounded(start, rest, MOST), p);
      FloorGrows(FeeAfter(start, percents), before, Compounded(start, rest, LEAST), p);
    }
  }

  lemma BoundGrows(fee: real, before: real, bound: real, p: real)
    requires fee < before * Factor(p) + 5.0 && before <= bound && p >= 0.0
    ensures fee < Grown(bound, p, MOST)
  {
    TimesOrder(before, bound, Factor(p));
  }

  lemma FloorGrows(fee: real, before: real, bound: real, p: real)
    requires fee > before * Factor(p) - 0.005 && before >= bound && p >= 0.0
    ensures fee > Grown(bound, p, LEAST)
  {
    TimesOrder(bound, before, Factor(p));
  }

  lemma LastYear(start: real, percents: seq<real>, amount: real)
    ensures percents == [] ==> FeeAfter(start, percents) == start == Compounded(start, percents, amount)
    ensures percents != [] ==>
              var rest, p := percents[..|percents| - 1], percents[|percents| - 1];
              var q := Calculate(PercentageInput(FeeAfter(start, rest), p));
              && FeeAfter(start, percents) == (if q.Priced? then q.fee else FeeAfter(start, rest))
              && Compounded(start, percents, amount) == Grown(Compounded(start, rest, amount), p, amount)
  {
    hide Calculate, Grown;
  }

  /** Every year's fee is at least the year before's. */
  lemma NeverFalls(start: real, percents: seq<real>, p: real)
    requires start >= 0.0 && WholeCents(start) && p >= 0.0
    requires forall x | x in percents :: x >= 0.0
    ensures FeeAfter(start, percents) <= FeeAfter(start, percents + [p])
  {
    hide WholeCents, WholeFives, Calculate;
    CompoundingBound(start, percents);
    assert (percents + [p])[..|percents|] == percents;
    PercentageYear(FeeAfter(start, percents), p);
  }

  function Power(q: real, n: nat): real {
    if n == 0 then 1.0 else Power(q, n - 1) * q
  }

  function Geometric(q: real, n: nat): real {
    if n == 0 then 0.0 else Geometric(q, n - 1) * q + 1.0
  }

  lemma {:induction false} GeometricSum(q: real, n: nat)
    ensures Geometric(q, n) * (q - 1.0) == Power(q, n) - 1.0
  {
    if n > 0 {
      GeometricSum(q, n - 1);
      var g, p := Geometric(q, n - 1), Power(q, n - 1);
      assert (g * q + 1.0) * (q - 1.0) == g * (q - 1.0) * q + q - 1.0;
    }
  }

  function Repeated(p: real, n: nat): (s: seq<real>)
    ensures |s| == n && forall x | x in s :: x == p
  {
    if n == 0 then [] else Repeated(p, n - 1) + [p]
  }

  lemma {:induction false} CompoundedRepeated(start: real, p: real, n: nat, amount: real)
    ensures Compounded(start, Repeated(p, n), amount) == start * Power(Factor(p), n) + amount * Geometric(Factor(p), n)
  {
    hide Power, Geometric, Compounded, Repeated, Factor;
    RepeatedYears(start, p, n, amount);
    if n > 0 {
      CompoundedRepeated(start, p, n - 1, amount);
      OneMoreYear(start, Power(Factor(p), n - 1), Geometric(Factor(p), n - 1), Factor(p), amount,
                  Compounded(start, Repeated(p, n - 1), amount));
    }
  }

  lemma RepeatedYears(start: real, p: real, n: nat, amount: real)
    ensures var q := Factor(p);
            if n == 0 then Compounded(start, Repeated(p, n), amount) == start && Power(q, n) == 1.0 && Geometric(q, n) == 0.0
            else
              && Compounded(start, Repeated(p, n), amount) == Compounded(start, Repeated(p, n - 1), amount) * q + amount
              && Power(q, n) == Power(q, n - 1) * q && Geometric(q, n) == Geometric(q, n - 1) * q + 1.0
  {
    hide Factor;
    if n > 0 {
      assert Repeated(p, n)[..n - 1] == Repeated(p, n - 1);
    }
  }

  lemma OneMoreYear(start: real, a: real, b: real, q: real, amount: real, before: real)
    requires before == start * a + amount * b
    ensures before * q + amount == start * (a * q) + amount * (b * q + 1.0)
  {
    assert (start * a + amount * b) * q == start * (a * q) + amount * (b * q);
  }

  /** After n years at one rate the fee lies above fee·qⁿ − 0.005·(qⁿ − 1)/(q − 1) and below fee·qⁿ + 5·(qⁿ − 1)/(q − 1). */
  lemma SteadyCompounding(start: real, p: real, n: nat)
    requires start >= 0.0 && WholeCents(start) && p > 0.0 && n > 0
    ensures var q := Factor(p);
            var sum := (Power(q, n) - 1.0) / (q - 1.0);
            start * Power(q, n) - 0.005 * sum < FeeAfter(start, Repeated(p, n)) < start * Power(q, n) + 5.0 * sum
  {
    hide WholeCents, FeeAfter, Compounded, Power, Geometric;
    CompoundingBound(start, Repeated(p, n));
    CompoundedRepeated(start, p, n, MOST);
    CompoundedRepeated(start, p, n, LEAST);
    var q := Factor(p);
    GeometricSum(q, n);
    Quotient(Geometric(q, n), q - 1.0, Power(q, n) - 1.0);
  }

  lemma Quotient(g: real, d: real, t: real)
    requires d != 0.0 && g * d == t
    ensures g == t / d
  {
  }

  // ---------------------------------------------------------------- Edges

  /** "No increase" keeps a cent-precise fee as it is exactly when it is already a multiple of five. */
  lemma NoIncreaseKeepsFee(previous: real)
    requires previous >= 0.0 && WholeCents(previous)
    ensures var rule := PriceRule(NoIncrease, None, None, None, false);
            var q := Calculate(FeeInput(rule, Some(previous), None, None, None, None));
            && q.Priced? && previous <= q.fee < previous + 5.0
            && (q.fee == previous <==> WholeFives(previous))
  {
    hide RoundUpToNearest5, WholeFives, PercentageChange;
    CentsKeepFloor(previous, previous);
    var n := (previous * 100.0).Floor;
    assert (previous * 100.0 + 0.5).Floor == n;
    assert ToCents(previous) == previous;
    FivesAreNext(previous);
    FivesFixed(previous);
  }
}
