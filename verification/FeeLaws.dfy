/** What a price comes to, method by method, when there is none, and what it asks of the firm. */
module FeeLaws {
  import opened Basics
  import opened Money
  import opened FeeEngine

  /** The least multiple of five dollars that is not below an amount, or the amount itself where rounding is off. */
  ghost predicate Rounds(amount: real, fee: real, skip: bool) {
    if skip then fee == amount else WholeFives(fee) && amount <= fee < amount + 5.0
  }

  lemma WholeCentsStay(x: real)
    requires x >= 0.0 && WholeCents(x)
    ensures ToCents(x) == x
  {
    var n := (x * 100.0).Floor;
    assert (x * 100.0 + 0.5).Floor == n;
  }

  /** A whole-cent amount asked for, whichever way, is the price before rounding, and rounding follows the rule. */
  lemma AskedIsCharged(input: FeeInput, asked: real)
    requires !Calculate(input).Refused? && RawFee(input) == Amount(asked) && WholeCents(asked)
    ensures var q := Calculate(input);
            if asked < 0.0 then q == Blocked(NegativeFee)
            else q.Priced? && q.unrounded == asked && Rounds(asked, q.fee, input.rule.skipRounding)
  {
    hide ToCents, RoundUpToNearest5, WholeFives, WholeCents, PercentageChange, RawFee, Blank;
    if asked >= 0.0 {
      WholeCentsStay(asked);
      FivesAreNext(asked);
    }
  }

  function WithRule(input: FeeInput, method_: FeeMethod, amount: real): FeeInput {
    input.(manualOverride := None,
           rule := match method_
                   case FixedAmount => PriceRule(FixedAmount, None, Some(amount), None, input.rule.skipRounding)
                   case _ => PriceRule(ExactTarget, None, None, Some(amount), input.rule.skipRounding))
  }

  /** A fixed amount is added to last year's fee. */
  lemma FixedAmountYear(input: FeeInput, previous: real, amount: real)
    requires input.previousFee == Some(previous) && WholeCents(previous + amount)
    ensures var q := Calculate(WithRule(input, FixedAmount, amount));
            if previous + amount < 0.0 then q == Blocked(NegativeFee)
            else q.Priced? && q.unrounded == previous + amount && Rounds(previous + amount, q.fee, input.rule.skipRounding)
  {
    hide WholeCents, Rounds;
    AskedIsCharged(WithRule(input, FixedAmount, amount), previous + amount);
  }

  /** A target is charged whatever last year's fee was, known or not. */
  lemma TargetYear(input: FeeInput, target: real)
    requires WholeCents(target)
    ensures var q := Calculate(WithRule(input, ExactTarget, target));
            if target < 0.0 then q == Blocked(NegativeFee)
            else q.Priced? && q.unrounded == target && Rounds(target, q.fee, input.rule.skipRounding)
  {
    hide WholeCents, Rounds;
    AskedIsCharged(WithRule(input, ExactTarget, target), target);
  }

  /** A written override replaces whatever the rule would have come to, and is rounded by the same rule. */
  lemma OverrideYear(input: FeeInput)
    requires input.manualOverride.Some? && !Blank(input.manualOverride.value.reason)
    requires WholeCents(input.manualOverride.value.amount)
    ensures var q, amount := Calculate(input), input.manualOverride.value.amount;
            if amount < 0.0 then q == Blocked(NegativeFee)
            else q.Priced? && q.unrounded == amount && Rounds(amount, q.fee, input.rule.skipRounding)
  {
    hide WholeCents, Rounds, Blank;
    AskedIsCharged(input, input.manualOverride.value.amount);
  }

  /** When there is no price: an override without a reason, or no override and something the method needs is missing. */
  lemma NoPriceExactly(input: FeeInput)
    ensures var q, ruled := Calculate(input), input.manualOverride.None?;
            && (q.Refused? <==> input.manualOverride.Some? && Blank(input.manualOverride.value.reason))
            && (q == Blocked(PriorFeeUnknown) <==>
                 ruled && input.previousFee.None? && input.rule.method_ in {NoIncrease, Percentage, FixedAmount})
            && (q == Blocked(TargetMissing) <==>
                 ruled && input.rule.method_ == ExactTarget && input.rule.exactTarget.None?)
            && (q == Blocked(PercentageMissing) <==>
                 ruled && input.previousFee.Some? && input.rule.method_ == Percentage && input.rule.percentage.None?)
            && (q == Blocked(AmountMissing) <==>
                 ruled && input.previousFee.Some? && input.rule.method_ == FixedAmount && input.rule.fixedAmount.None?)
  {
    hide ToCents, RoundUpToNearest5, PercentageChange, Blank, ApprovalFor;
  }

  // ---------------------------------------------------------------- What a price asks of the firm

  lemma RoundedAbove(x: real, t: int)
    requires x >= 0.0
    ensures RoundHalfUp(x, 10000) > t as real / 10000.0 <==> x * 10000.0 >= t as real + 0.5
  {
    var n := (x * 10000.0 + 0.5).Floor;
    assert RoundHalfUp(x, 10000) == n as real / 10000.0;
    assert n > t <==> x * 10000.0 + 0.5 >= (t + 1) as real;
  }

  /** An increase over last year is above the threshold when it rounds, at four places, to more than it. */
  lemma ChangeAbove(previous: real, fee: real, t: int)
    requires 0.0 < previous < fee
    ensures var change := PercentageChange(previous, fee);
            change.Some? &&
            (change.value > t as real / 10000.0 <==> (fee - previous) * 1000000.0 >= (t as real + 0.5) * previous)
  {
    hide RoundHalfUp;
    var ratio := (fee - previous) / previous;
    Quotient(fee - previous, previous);
    Hundredfold(ratio);
    RoundedAbove(ratio * 100.0, t);
    Scaled(ratio, previous, t as real + 0.5);
    assert PercentageChange(previous, fee) == Some(RoundHalfUp(ratio * 100.0, 10000));
  }

  lemma Hundredfold(ratio: real)
    requires ratio > 0.0
    ensures ratio * 100.0 > 0.0
  {
  }

  lemma Quotient(a: real, b: real)
    requires b > 0.0 && a > 0.0
    ensures a / b > 0.0 && (a / b) * b == a
  {
  }

  lemma Scaled(ratio: real, previous: real, bound: real)
    requires previous > 0.0
    ensures ratio * 100.0 * 10000.0 >= bound <==> ratio * previous * 1000000.0 >= bound * previous
  {
    assert (ratio * 1000000.0 - bound) * previous == ratio * previous * 1000000.0 - bound * previous;
    var d := ratio * 1000000.0 - bound;
    assert d >= 0.0 <==> d * previous >= 0.0;
  }

  /**
   * What approval a price needs, for a threshold of so many ten-thousandths of a percent: a decrease always, and an
   * increase above the threshold; ten percent where none is set. From nothing no increase can be measured.
   */
  lemma ApprovalExactly(input: FeeInput, previous: real, t: int)
    requires Calculate(input).Priced? && input.previousFee == Some(previous) && previous >= 0.0
    requires input.threshold == Some(t as real / 10000.0) || (input.threshold == None && t == 100000)
    ensures var q := Calculate(input);
            && (q.approval == FeeDecrease <==> q.fee < previous)
            && (q.approval == FeeHighIncrease <==>
                 previous > 0.0 && q.fee > previous && (q.fee - previous) * 1000000.0 >= (t as real + 0.5) * previous)
            && q.increase == Some(q.fee - previous)
            && q.effective == PercentageChange(previous, q.fee)
  {
    hide ToCents, RoundUpToNearest5, PercentageChange, Blank, RawFee;
    var fee := Calculate(input).fee;
    NoChangeFromNothing(fee);
    if 0.0 < previous < fee {
      ChangeAbove(previous, fee, t);
    }
  }

  lemma NoChangeFromNothing(fee: real)
    ensures PercentageChange(0.0, fee) == None
  {
  }

  /** Without a known prior fee there is nothing to approve and nothing to compare. */
  lemma NothingToCompare(input: FeeInput)
    requires Calculate(input).Priced? && input.previousFee == None
    ensures var q := Calculate(input); q.approval == NoApproval && q.increase == None && q.effective == None
  {
    hide ToCents, RoundUpToNearest5, Blank, RawFee;
  }

  /** What each warning means, of the inputs and the price. */
  lemma WarningsMean(input: FeeInput)
    ensures var q, ws := Calculate(input), InputWarnings(input) + FeeWarnings(input);
            && (CompilationDropped in ws <==> input.compilation == Some(Compilation(Some(true), Some(false))))
            && (CompilationAdded in ws <==> input.compilation == Some(Compilation(Some(false), Some(true))))
            && (PriorFeeConflict in ws <==>
                 input.previousFee.Some? && input.conflictingPreviousFee.Some?
                 && input.previousFee.value != input.conflictingPreviousFee.value)
            && (PriorFeeMissing in ws <==> q == Blocked(PriorFeeUnknown))
            && (FeeDecreased in ws <==> q.Priced? && input.previousFee.Some? && q.fee < input.previousFee.value)
            && (FeeUnchanged in ws <==> q.Priced? && input.previousFee.Some? && q.fee == input.previousFee.value)
            && (FeeAboveThreshold in ws <==> q.Priced? && q.approval == FeeHighIncrease)
            && (DecreaseNeedsReason in ws <==> FeeDecreased in ws && input.manualOverride.None?)
  {
    hide ToCents, RoundUpToNearest5, PercentageChange, Blank, RawFee, InputWarnings, FeeWarnings;
    var ws := InputWarnings(input) + FeeWarnings(input);
    forall w
      ensures w in ws <==> Warns(input, w)
    {
      InputWarningsExact(input, w);
      FeeWarningsExact(input, w);
    }
  }
}
