/** Saving a pricing rule: what the editor refuses, and whether what it accepts can ever do anything. */
module FeeRuleEditing {
  import opened Gregorian
  import opened Basics
  import opened IsoText
  import opened Money
  import opened FeeEngine
  import opened RuleResolution

  datatype SaveInput = SaveInput(
    level: Level,
    engagementType: Option<EngagementType>,
    feeKind: Option<FeeKind>,
    clientId: Option<string>,
    clientGroup: Option<string>,
    partnerUserId: Option<string>,
    method_: FeeMethod,
    percentage: string,
    fixedAmount: string,
    exactTarget: string,
    skipRounding: bool,
    effectiveFrom: string,
    effectiveTo: string,
    isActive: bool)

  datatype Refusal =
    | NeedsEngagementType | NeedsPartnerOrGroup | NeedsClient
    | ValueMissing | ValueNegative | ValueNotANumber
    | DateMalformed | DateUnreal | StopsBeforeItStarts

  datatype Result<+T> = Ok(value: T) | Refuse(why: Refusal)

  const DAY_MS := 86400000

  /** The text of the value the method needs, if it needs one. */
  function WantedText(input: SaveInput): Option<string> {
    match input.method_
    case NoIncrease => None
    case Percentage => Some(input.percentage)
    case FixedAmount => Some(input.fixedAmount)
    case ExactTarget => Some(input.exactTarget)
  }

  /** The amount, kept to four places for a percentage and to cents otherwise; `parse` is the money parser. */
  function ParseAmount(input: SaveInput, parse: string -> Option<real>): Result<Option<real>> {
    match WantedText(input)
    case None => Ok(None)
    case Some(raw) =>
      if Trim(raw) == "" then Refuse(ValueMissing)
      else
        match parse(raw)
        case None => Refuse(ValueNotANumber)
        case Some(x) =>
          if x < 0.0 then Refuse(ValueNegative)
          else Ok(Some(RoundHalfUp(x, if input.method_.Percentage? then 10000 else 100)))
  }

  /** A blank date is no date. Otherwise the text must be in the pattern and come back from the calendar unchanged. */
  function ParseDate(raw: string): (r: Result<Option<int>>) {
    var value := Trim(raw);
    if value == "" then Ok(None)
    else if !LooksIso(value) then Refuse(DateMalformed)
    else
      var n := MakeDay(Written(value).year, Written(value).month - 1, Written(value).day);
      if ToIsoDate(n) == value then Ok(Some(n)) else Refuse(DateUnreal)
  }

  function Kept<T>(keep: bool, x: Option<T>): Option<T> {
    if keep then x else None
  }

  /** A field without the blanks around it, or nothing when only blanks. */
  function TrimmedText(field: Option<string>): Option<string> {
    if field.Some? && Trim(field.value) != "" then Some(Trim(field.value)) else None
  }

  predicate ClientScoped(level: Level) {
    level == Client || level == OneTimeOverride
  }

  function Validate(input: SaveInput, id: string, now: int, parse: string -> Option<real>): Result<Rule> {
    if input.level == EngagementTypeLevel && input.engagementType.None? then Refuse(NeedsEngagementType)
    else if input.level == PartnerOrGroup && !Given(input.partnerUserId) && !Given(input.clientGroup) then
      Refuse(NeedsPartnerOrGroup)
    else if ClientScoped(input.level) && !Given(input.clientId) then Refuse(NeedsClient)
    else
      match ParseAmount(input, parse)
      case Refuse(why) => Refuse(why)
      case Ok(amount) =>
        match ParseDate(input.effectiveFrom)
        case Refuse(why) => Refuse(why)
        case Ok(start) =>
          match ParseDate(input.effectiveTo)
          case Refuse(why) => Refuse(why)
          case Ok(stop) =>
            var from := if start.Some? then start.value * DAY_MS else now;
            var to := if stop.Some? then Some(stop.value * DAY_MS) else None;
            if to.Some? && to.value < from then Refuse(StopsBeforeItStarts)
            else Ok(Rule(
              id, input.level,
              Kept(input.level != Global, input.engagementType),
              input.feeKind,
              Kept(ClientScoped(input.level), input.clientId),
              Kept(input.level == PartnerOrGroup, TrimmedText(input.clientGroup)),
              Kept(input.level == PartnerOrGroup, input.partnerUserId),
              input.isActive, from, to,
              PriceRule(input.method_,
                        Kept(input.method_.Percentage?, amount),
                        Kept(input.method_.FixedAmount?, amount),
                        Kept(input.method_.ExactTarget?, amount),
                        input.skipRounding)))
  }

  /** What reading an amount to so many places comes to. */
  ghost predicate ReadsAs(raw: string, parse: string -> Option<real>, scale: int, r: Result<Option<real>>)
    requires scale > 0
  {
    && (Blank(raw) ==> r == Refuse(ValueMissing))
    && (!Blank(raw) && parse(raw).None? ==> r == Refuse(ValueNotANumber))
    && (!Blank(raw) && parse(raw).Some? && parse(raw).value < 0.0 ==> r == Refuse(ValueNegative))
    && (!Blank(raw) && parse(raw).Some? && parse(raw).value >= 0.0 ==>
         r == Ok(Some(RoundHalfUp(parse(raw).value, scale))))
  }

  /** Each method reads its own amount: a percentage to four places, money to cents, and no increase nothing. */
  lemma AmountIsTheMethods(input: SaveInput, parse: string -> Option<real>)
    ensures var r := ParseAmount(input, parse);
            match input.method_
            case NoIncrease => r == Ok(None)
            case Percentage => ReadsAs(input.percentage, parse, 10000, r)
            case FixedAmount => ReadsAs(input.fixedAmount, parse, 100, r)
            case ExactTarget => ReadsAs(input.exactTarget, parse, 100, r)
  {
    hide Trim, Blank, RoundHalfUp;
    TrimEmptyExactly(input.percentage);
    TrimEmptyExactly(input.fixedAmount);
    TrimEmptyExactly(input.exactTarget);
  }

  /** An accepted rule is stored as it was put: its amount with its method, its days as midnights, its scope by level. */
  lemma AcceptedRuleSays(input: SaveInput, id: string, now: int, parse: string -> Option<real>)
    requires Validate(input, id, now, parse).Ok?
    ensures var rule, amount := Validate(input, id, now, parse).value, ParseAmount(input, parse);
            var start, stop := ParseDate(input.effectiveFrom), ParseDate(input.effectiveTo);
            && rule.level == input.level && rule.feeKind == input.feeKind && rule.isActive == input.isActive
            && rule.price.method_ == input.method_ && rule.price.skipRounding == input.skipRounding
            && amount.Ok? && start.Ok? && stop.Ok?
            && rule.price.percentage == (if input.method_ == Percentage then amount.value else None)
            && rule.price.fixedAmount == (if input.method_ == FixedAmount then amount.value else None)
            && rule.price.exactTarget == (if input.method_ == ExactTarget then amount.value else None)
            && rule.effectiveFrom == (if start.value.Some? then start.value.value * (24 * 60 * 60 * 1000) else now)
            && (rule.effectiveTo.Some? <==> stop.value.Some?)
            && (rule.effectiveTo.Some? ==>
                 rule.effectiveTo.value == stop.value.value * (24 * 60 * 60 * 1000) >= rule.effectiveFrom)
            && rule.engagementType == (if input.level == Global then None else input.engagementType)
            && rule.clientId == (if input.level in {Client, OneTimeOverride} then input.clientId else None)
            && (input.level != PartnerOrGroup ==> rule.partnerUserId.None? && rule.clientGroup.None?)
            && (input.level == PartnerOrGroup ==>
                 rule.partnerUserId == input.partnerUserId && rule.clientGroup == TrimmedText(input.clientGroup))
  {
    hide ParseAmount, ParseDate, TrimmedText;
  }

  /** What is refused, and why, in the order it is looked at. */
  lemma RefusedExactly(input: SaveInput, id: string, now: int, parse: string -> Option<real>)
    ensures var r := Validate(input, id, now, parse);
            && (r == Refuse(NeedsEngagementType) <==> input.level == EngagementTypeLevel && input.engagementType == None)
            && (r == Refuse(NeedsPartnerOrGroup) <==>
                 input.level == PartnerOrGroup && input.partnerUserId in {None, Some("")}
                 && input.clientGroup in {None, Some("")})
            && (r == Refuse(NeedsClient) <==>
                 input.level in {Client, OneTimeOverride} && input.clientId in {None, Some("")})
  {
    hide ParseAmount, ParseDate, Given;
    RefusesNothingElse(input, parse);
    NotGiven(input.partnerUserId);
    NotGiven(input.clientGroup);
    NotGiven(input.clientId);
  }

  lemma NotGiven(s: Option<string>)
    ensures !Given(s) <==> s in {None, Some("")}
  {
    if s.Some? && s.value == "" {
      assert s == Some("");
    }
  }

  lemma RefusesNothingElse(input: SaveInput, parse: string -> Option<real>)
    ensures ParseAmount(input, parse).Refuse? ==>
              ParseAmount(input, parse).why in {ValueMissing, ValueNegative, ValueNotANumber}
    ensures ParseDate(input.effectiveFrom).Refuse? ==> ParseDate(input.effectiveFrom).why in {DateMalformed, DateUnreal}
    ensures ParseDate(input.effectiveTo).Refuse? ==> ParseDate(input.effectiveTo).why in {DateMalformed, DateUnreal}
  {
    hide Trim, ToIsoDate, RoundHalfUp, MakeDay;
  }

  /** The editor takes exactly the texts that name a real date, and reads each as that date. */
  lemma ParseDateIsExact(raw: string)
    ensures var value := Trim(raw);
            && (ParseDate(raw) == Ok(None) <==> value == "")
            && (ParseDate(raw).Ok? && value != "" <==> LooksIso(value) && ValidCivil(Written(value)))
            && (ParseDate(raw).Ok? && value != "" ==>
                 ParseDate(raw).value.Some? && CivilOf(ParseDate(raw).value.value) == Written(value))
  {
    var value := Trim(raw);
    if value != "" && LooksIso(value) {
      hide Trim, Written, CivilOf, DayNumber, ToIsoDate, ValidCivil;
      var c := Written(value);
      if ValidCivil(c) {
        RealDateSurvives(value, c);
      }
      if ToIsoDate(MakeDay(c.year, c.month - 1, c.day)) == value {
        SurvivorIsReal(value, c);
      }
    }
  }

  lemma RealDateSurvives(s: string, c: Civil)
    requires LooksIso(s) && c == Written(s) && ValidCivil(c)
    ensures ToIsoDate(MakeDay(c.year, c.month - 1, c.day)) == s
    ensures CivilOf(MakeDay(c.year, c.month - 1, c.day)) == c
  {
    hide DayFromYear, DaysBeforeMonth, CivilOf, ToIsoDate, DigitValue;
    var n := DayNumber(c.year, c.month, c.day);
    assert MakeDay(c.year, c.month - 1, c.day) == n;
    DayRoundTrip(c);
    assert 0 <= c.year <= 9999;
    TextOfFourDigitYear(n);
    SameDigits(s, ToIsoDate(n));
  }

  lemma SurvivorIsReal(s: string, c: Civil)
    requires LooksIso(s) && c == Written(s)
    requires ToIsoDate(MakeDay(c.year, c.month - 1, c.day)) == s
    ensures ValidCivil(c) && CivilOf(MakeDay(c.year, c.month - 1, c.day)) == c
  {
    hide DayNumber, CivilOf, ToIsoDate, Written, MakeDay;
    var n := MakeDay(c.year, c.month - 1, c.day);
    if !(0 <= YearOf(n) <= 9999) {
      TextOfOtherYear(n);
    } else {
      TextOfFourDigitYear(n);
    }
  }

  // ---------------------------------------------------------------- Rules that can do something

  /** Some context, whatever its fee kind and date, makes it the rule that is used. */
  ghost predicate Live(rule: Rule) {
    exists ctx :: ResolveRule([rule], ctx) == Some(rule)
  }

  /** An engagement the rule is written for, on the day it takes effect. */
  function Target(rule: Rule): Context {
    Context(if rule.engagementType.Some? then rule.engagementType.value else T2,
            if rule.feeKind.Some? then rule.feeKind.value else T2Preparation,
            if rule.clientId.Some? then rule.clientId.value else "",
            rule.clientGroup, rule.partnerUserId, rule.effectiveFrom)
  }

  lemma AloneItWins(rule: Rule, ctx: Context)
    ensures ResolveRule([rule], ctx) == Some(rule) <==> Applicable(rule, ctx)
  {
    hide Applicable;
    assert [rule][1..] == [];
    assert Filter([rule], (r: Rule) => Applicable(r, ctx)) == if Applicable(rule, ctx) then [rule] else [];
  }

  /**
   * Over all contexts: an accepted rule is live unless it is inactive, or is a partner-or-group rule with no
   * partner whose group was only blanks (which the check for a group lets through and the trimming then removes).
   */
  lemma AcceptedRuleIsLiveExactly(input: SaveInput, id: string, now: int, parse: string -> Option<real>)
    requires Validate(input, id, now, parse).Ok?
    ensures Live(Validate(input, id, now, parse).value) <==> input.isActive && NamesSomebody(input)
  {
    hide ParseAmount, ParseDate, Trim, ResolveRule;
    var rule := Validate(input, id, now, parse).value;
    var target := Target(rule);
    AloneItWins(rule, target);
    if Applicable(rule, target) {
      assert Live(rule);
    } else {
      forall ctx
        ensures ResolveRule([rule], ctx) != Some(rule)
      {
        AloneItWins(rule, ctx);
      }
    }
  }

  predicate NamesSomebody(input: SaveInput) {
    input.level == PartnerOrGroup ==> Given(input.partnerUserId) || TrimmedText(input.clientGroup).Some?
  }

  // ---------------------------------------------------------------- Rules the program can reach

  /** `feeKindsFor`: the fees an engagement is priced for. */
  function FeeKindsFor(engagementType: EngagementType, compilationSelected: Option<bool>): seq<FeeKind> {
    match engagementType
    case T2 => if compilationSelected == Some(true) then [T2Preparation, Compilation4200] else [T2Preparation]
    case T3 => [T3Preparation]
    case _ => [T1Preparation]
  }

  /** `FEE_KIND_BY_ENGAGEMENT`: the one fee a bulk rollout prices. */
  function BulkFeeKind(engagementType: EngagementType): FeeKind {
    match engagementType
    case T1Joint => T1Preparation
    case T1Single => T1Preparation
    case T2 => T2Preparation
    case T3 => T3Preparation
  }

  /**
   * A context the program builds after now: a fee of the engagement's type, the instant it is looked at, and a
   * client's own columns. A client has an identifier, its group if any is stored trimmed, and nothing ever gives
   * it a partner.
   */
  ghost predicate Built(ctx: Context, now: int) {
    && now <= ctx.asOf
    && ctx.clientId != "" && ctx.clientGroup == TrimmedText(ctx.clientGroup) && ctx.partnerUserId.None?
    && (|| ctx.feeKind == BulkFeeKind(ctx.engagementType)
        || exists selected :: ctx.feeKind in FeeKindsFor(ctx.engagementType, selected))
  }

  ghost predicate Usable(rule: Rule, now: int) {
    exists ctx :: Built(ctx, now) && ResolveRule([rule], ctx) == Some(rule)
  }

  predicate Belongs(feeKind: FeeKind, engagementType: EngagementType) {
    match feeKind
    case T1Preparation => engagementType == T1Joint || engagementType == T1Single
    case T3Preparation => engagementType == T3
    case _ => engagementType == T2
  }

  lemma BuiltExactly(ctx: Context, now: int)
    ensures Built(ctx, now) <==>
            && now <= ctx.asOf && Belongs(ctx.feeKind, ctx.engagementType)
            && ctx.clientId != "" && ctx.clientGroup == TrimmedText(ctx.clientGroup) && ctx.partnerUserId.None?
  {
    hide TrimmedText;
    assert Compilation4200 == FeeKindsFor(T2, Some(true))[1];
  }

  /** The rule leaves the fee or the type of engagement open, or the fee is one of that type. */
  predicate PairFits(input: SaveInput) {
    input.level == Global || input.engagementType.None? || input.feeKind.None?
    || Belongs(input.feeKind.value, input.engagementType.value)
  }

  /** The last day the rule is written for, if any, has not begun: its first instant is when the rule stops. */
  predicate LastDayAhead(input: SaveInput, now: int) {
    match ParseDate(input.effectiveTo)
    case Ok(Some(last)) => now <= last * DAY_MS
    case _ => true
  }

  /** An engagement and a date the program can build, for a rule that fits some. */
  function Reach(rule: Rule, now: int): Context {
    var engagementType :=
      if rule.engagementType.Some? then rule.engagementType.value
      else match rule.feeKind
           case Some(T1Preparation) => T1Single
           case Some(T3Preparation) => T3
           case _ => T2;
    Context(engagementType,
            if rule.feeKind.Some? then rule.feeKind.value else BulkFeeKind(engagementType),
            if Given(rule.clientId) then rule.clientId.value else "any",
            rule.clientGroup, None,
            if rule.effectiveFrom < now then now else rule.effectiveFrom)
  }

  /**
   * The editor promises to refuse a rule that can never apply. Of those it accepts, the ones some engagement can
   * still use are exactly the active ones that name a group if they are at the partner-or-group level, pair a fee
   * with its own type, and whose last day has not begun.
   */
  lemma AcceptedRuleIsUsableExactly(input: SaveInput, id: string, now: int, parse: string -> Option<real>)
    requires Validate(input, id, now, parse).Ok?
    ensures Usable(Validate(input, id, now, parse).value, now) <==>
            input.isActive && NamesGroup(input) && PairFits(input) && LastDayAhead(input, now)
  {
    hide ParseAmount, ParseDate, Trim, ResolveRule, Built;
    var rule := Validate(input, id, now, parse).value;
    var reach := Reach(rule, now);
    BuiltExactly(reach, now);
    AloneItWins(rule, reach);
    if input.isActive && NamesGroup(input) && PairFits(input) && LastDayAhead(input, now) {
      if input.clientGroup.Some? {
        TrimTwice(input.clientGroup.value);
      }
      assert Built(reach, now) && ResolveRule([rule], reach) == Some(rule);
    } else {
      forall ctx
        ensures !(Built(ctx, now) && ResolveRule([rule], ctx) == Some(rule))
      {
        BuiltExactly(ctx, now);
        AloneItWins(rule, ctx);
      }
    }
  }

  /** A partner will not do: no client has one. */
  predicate NamesGroup(input: SaveInput) {
    input.level == PartnerOrGroup ==> TrimmedText(input.clientGroup).Some?
  }

  /** What the screen sends: every field without the blanks around it. */
  function FromScreen(form: SaveInput): SaveInput {
    form.(clientId := TrimmedText(form.clientId), clientGroup := TrimmedText(form.clientGroup),
          partnerUserId := TrimmedText(form.partnerUserId),
          percentage := Trim(form.percentage), fixedAmount := Trim(form.fixedAmount), exactTarget := Trim(form.exactTarget),
          effectiveFrom := Trim(form.effectiveFrom), effectiveTo := Trim(form.effectiveTo))
  }

  /** The screen's trimming refuses a group of blanks; a partner alone, the pair and the last day remain unchecked. */
  lemma ScreenRuleIsUsableExactly(form: SaveInput, id: string, now: int, parse: string -> Option<real>)
    requires Validate(FromScreen(form), id, now, parse).Ok?
    ensures Usable(Validate(FromScreen(form), id, now, parse).value, now) <==>
            form.isActive && NamesGroup(form) && PairFits(form) && LastDayAhead(FromScreen(form), now)
  {
    hide ParseAmount, ParseDate, Trim, Usable, Validate;
    AcceptedRuleIsUsableExactly(FromScreen(form), id, now, parse);
    if form.clientGroup.Some? {
      TrimTwice(form.clientGroup.value);
    }
  }

  // ---------------------------------------------------------------- Rules that slip through

  /** A rule for joint returns about the fee of a corporate one: accepted, and never used. */
  lemma ForeignFeeSlipsThrough(now: int, parse: string -> Option<real>)
    ensures var input := SaveInput(EngagementTypeLevel, Some(T1Joint), Some(T2Preparation), None, None, None, NoIncrease,
                                   "", "", "", false, "", "", true);
            && FromScreen(input) == input
            && Validate(input, "r", now, parse).Ok?
            && !Usable(Validate(input, "r", now, parse).value, now)
  {
    var input := SaveInput(EngagementTypeLevel, Some(T1Joint), Some(T2Preparation), None, None, None, NoIncrease,
                           "", "", "", false, "", "", true);
    assert Trim("") == "";
    AcceptedRuleIsUsableExactly(input, "r", now, parse);
  }

  /** A rule for a partner, the first choice at its level: accepted, and never used. */
  lemma PartnerRuleSlipsThrough(now: int, parse: string -> Option<real>)
    ensures var input := SaveInput(PartnerOrGroup, None, None, None, None, Some("p"), NoIncrease,
                                   "", "", "", false, "", "", true);
            && FromScreen(input) == input
            && Validate(input, "r", now, parse).Ok?
            && !Usable(Validate(input, "r", now, parse).value, now)
  {
    hide Usable, Trim;
    var input := SaveInput(PartnerOrGroup, None, None, None, None, Some("p"), NoIncrease,
                           "", "", "", false, "", "", true);
    TrimEmptyExactly("");
    TightIsTrimmed("p");
    AcceptedRuleIsUsableExactly(input, "r", now, parse);
  }

  /** A rule whose last day had begun when it was saved, be that day its only one: accepted, and never used. */
  lemma EndedRuleSlipsThrough(now: int, parse: string -> Option<real>, day: int)
    requires 1 <= day <= 9 && now > (DayNumber(2000, 1, 1) + day - 1) * DAY_MS
    ensures var input := SaveInput(Global, None, None, None, None, None, NoIncrease,
                                   "", "", "", false, "2000-01-01", "2000-01-0" + [Digit(day)], true);
            && FromScreen(input) == input
            && Validate(input, "r", now, parse).Ok?
            && !Usable(Validate(input, "r", now, parse).value, now)
  {
    hide Usable, ToIsoDate, Trim, DayNumber, ParseDate, Digit;
    var last := "2000-01-0" + [Digit(day)];
    var input := SaveInput(Global, None, None, None, None, None, NoIncrease, "", "", "", false, "2000-01-01", last, true);
    TrimEmptyExactly("");
    DigitOne();
    ReadsAsJanuary2000("2000-01-01", 1);
    ReadsAsJanuary2000(last, day);
    AcceptedRuleIsUsableExactly(input, "r", now, parse);
  }

  lemma DigitOne()
    ensures "2000-01-01" == "2000-01-0" + [Digit(1)]
  {
  }

  lemma ReadsAsJanuary2000(s: string, day: int)
    requires 1 <= day <= 9 && s == "2000-01-0" + [Digit(day)]
    ensures Trim(s) == s && ParseDate(s) == Ok(Some(DayNumber(2000, 1, 1) + day - 1))
  {
    hide ToIsoDate, DayFromYear, DaysBeforeMonth, Trim, Digit, CivilOf;
    DigitRoundTrip(day);
    assert s[0] == '2' && s[9] == Digit(day) && |s| == 10;
    TightIsTrimmed(s);
    assert Written(s) == Civil(2000, 1, day);
    RealDateSurvives(s, Civil(2000, 1, day));
  }

  /** The blank group the service would let through, were it not trimmed on the screen. */
  lemma BlankGroupSlipsThrough(now: int, parse: string -> Option<real>)
    ensures var input := SaveInput(PartnerOrGroup, None, None, None, Some(" "), None, NoIncrease, "", "", "", false,
                                   "", "", true);
            && Validate(input, "r", now, parse).Ok?
            && !Live(Validate(input, "r", now, parse).value)
            && Validate(FromScreen(input), "r", now, parse) == Refuse(NeedsPartnerOrGroup)
  {
    var input := SaveInput(PartnerOrGroup, None, None, None, Some(" "), None, NoIncrease, "", "", "", false, "", "", true);
    assert TrimStart(" ") == TrimStart("") by {
      assert " "[1..] == "";
    }
    assert Trim(" ") == "";
    assert Trim("") == "";
    AcceptedRuleIsLiveExactly(input, "r", now, parse);
  }

  lemma RoundedStaysNonNegative(x: real, scale: int)
    requires x >= 0.0 && scale > 0
    ensures RoundHalfUp(x, scale) >= 0.0
  {
    assert x * scale as real >= 0.0;
  }

  /** With a known prior fee that is not negative, no accepted rule leaves the fee blocked or negative. */
  lemma AcceptedRuleIsNeverBlocked(input: SaveInput, id: string, now: int, parse: string -> Option<real>, fee: FeeInput)
    requires Validate(input, id, now, parse).Ok?
    requires fee.rule == Validate(input, id, now, parse).value.price && fee.manualOverride.None?
    requires fee.previousFee.Some? && fee.previousFee.value >= 0.0
    ensures Calculate(fee).Priced?
  {
    hide ParseDate, Trim, ToCents, RoundUpToNearest5, PercentageChange, RoundHalfUp;
    var wanted := WantedText(input);
    if wanted.Some? {
      RoundedStaysNonNegative(parse(wanted.value).value, if input.method_.Percentage? then 10000 else 100);
    }
    if input.method_.Percentage? {
      RaisesProduct(fee.previousFee.value, Factor(fee.rule.percentage.value));
    }
  }
}
