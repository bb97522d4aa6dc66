/** Which pricing rule applies: a fold over the applicable rules that must not depend on their order. */
module RuleResolution {
  import opened Basics
  import opened FeeEngine

  datatype Level = Global | EngagementTypeLevel | PartnerOrGroup | Client | OneTimeOverride

  datatype FeeKind = T1Preparation | T2Preparation | T3Preparation | Compilation4200

  /** Dates are instants in milliseconds. An absent field and a null one are the same. */
  datatype Rule = Rule(
    id: string,
    level: Level,
    engagementType: Option<EngagementType>,
    feeKind: Option<FeeKind>,
    clientId: Option<string>,
    clientGroup: Option<string>,
    partnerUserId: Option<string>,
    isActive: bool,
    effectiveFrom: int,
    effectiveTo: Option<int>,
    price: PriceRule)

  datatype Context = Context(
    engagementType: EngagementType,
    feeKind: FeeKind,
    clientId: string,
    clientGroup: Option<string>,
    partnerUserId: Option<string>,
    asOf: int)

  function Specificity(level: Level): nat {
    match level
    case Global => 0
    case EngagementTypeLevel => 1
    case PartnerOrGroup => 2
    case Client => 3
    case OneTimeOverride => 4
  }

  /** A scope that is set and not empty. */
  predicate Given(s: Option<string>) {
    s.Some? && s.value != ""
  }

  predicate Applicable(rule: Rule, ctx: Context) {
    && rule.isActive
    && rule.effectiveFrom <= ctx.asOf
    && (rule.effectiveTo.Some? ==> ctx.asOf <= rule.effectiveTo.value)
    && (rule.feeKind.Some? ==> rule.feeKind.value == ctx.feeKind)
    && (rule.engagementType.Some? ==> rule.engagementType.value == ctx.engagementType)
    && match rule.level
       case Global => true
       case EngagementTypeLevel => rule.engagementType == Some(ctx.engagementType)
       case PartnerOrGroup =>
         || (Given(rule.partnerUserId) && rule.partnerUserId == ctx.partnerUserId)
         || (Given(rule.clientGroup) && rule.clientGroup == ctx.clientGroup)
       case Client => rule.clientId == Some(ctx.clientId)
       case OneTimeOverride => rule.clientId == Some(ctx.clientId)
  }

  /** String order, as `>` on identifiers compares them. */
  predicate Before(a: string, b: string) {
    b != [] && (a == [] || a[0] < b[0] || (a[0] == b[0] && Before(a[1..], b[1..])))
  }

  /** The order of preference: level, then the date a rule came into effect, then its identifier. */
  predicate Beats(a: Rule, b: Rule) {
    if a.level != b.level then Specificity(a.level) > Specificity(b.level)
    else if a.effectiveFrom != b.effectiveFrom then a.effectiveFrom > b.effectiveFrom
    else Before(b.id, a.id)
  }

  function Reduce(best: Rule, rest: seq<Rule>): Rule
    decreases |rest|
  {
    if rest == [] then best else Reduce(if Beats(rest[0], best) then rest[0] else best, rest[1..])
  }

  function ResolveRule(rules: seq<Rule>, ctx: Context): Option<Rule> {
    var applicable := Filter(rules, (r: Rule) => Applicable(r, ctx));
    if applicable == [] then None else Some(Reduce(applicable[0], applicable[1..]))
  }

  // ---------------------------------------------------------------- The order is total

  lemma {:induction false} BeforeTrichotomy(a: string, b: string)
    ensures a == b || Before(a, b) || Before(b, a)
    ensures Before(a, b) ==> a != b && !Before(b, a)
    decreases |a|
  {
    if a != [] && b != [] {
      BeforeTrichotomy(a[1..], b[1..]);
      if a[0] == b[0] && a[1..] == b[1..] {
        assert a == [a[0]] + a[1..] && b == [b[0]] + b[1..];
      }
    }
  }

  lemma {:induction false} BeforeTransitive(a: string, b: string, c: string)
    requires Before(a, b) && Before(b, c)
    ensures Before(a, c)
    decreases |a|
  {
    if a != [] && a[0] == b[0] == c[0] {
      BeforeTransitive(a[1..], b[1..], c[1..]);
    }
  }

  lemma LevelsDiffer(a: Level, b: Level)
    ensures Specificity(a) == Specificity(b) <==> a == b
  {
  }

  lemma BeatsTrichotomy(a: Rule, b: Rule)
    ensures a.id == b.id || Beats(a, b) || Beats(b, a)
    ensures Beats(a, b) ==> !Beats(b, a)
  {
    LevelsDiffer(a.level, b.level);
    BeforeTrichotomy(a.id, b.id);
  }

  /** Not being beaten is transitive, so the fold's running best never loses to a rule already passed. */
  lemma BeatsNegTransitive(a: Rule, b: Rule, c: Rule)
    requires !Beats(a, b) && !Beats(b, c)
    ensures !Beats(a, c)
  {
    LevelsDiffer(a.level, b.level);
    LevelsDiffer(b.level, c.level);
    LevelsDiffer(a.level, c.level);
    if Beats(a, c) {
      BeforeTrichotomy(a.id, b.id);
      BeforeTrichotomy(b.id, c.id);
      if a.id != b.id && b.id != c.id && Before(a.id, b.id) && Before(b.id, c.id) {
        BeforeTransitive(a.id, b.id, c.id);
      }
      BeforeTrichotomy(a.id, c.id);
    }
  }

  // ---------------------------------------------------------------- The fold is an argmax

  lemma {:induction false} ReduceIsMaximal(best: Rule, rest: seq<Rule>)
    ensures var r := Reduce(best, rest);
            && (r == best || r in rest)
            && !Beats(best, r)
            && forall other | other in rest :: !Beats(other, r)
    decreases |rest|
  {
    BeatsTrichotomy(best, best);
    if rest != [] {
      var next := if Beats(rest[0], best) then rest[0] else best;
      ReduceIsMaximal(next, rest[1..]);
      var r := Reduce(best, rest);
      BeatsTrichotomy(rest[0], best);
      BeatsTrichotomy(rest[0], rest[0]);
      BeatsNegTransitive(best, next, r);
      BeatsNegTransitive(rest[0], next, r);
      assert forall other :: other in rest <==> other == rest[0] || other in rest[1..];
    }
  }

  /** The rule chosen applies, and no applicable rule beats it; there is none exactly when none applies. */
  lemma ResolveIsMaximal(rules: seq<Rule>, ctx: Context)
    ensures ResolveRule(rules, ctx).None? <==> forall r | r in rules :: !Applicable(r, ctx)
    ensures ResolveRule(rules, ctx).Some? ==>
              var r := ResolveRule(rules, ctx).value;
              && r in rules && Applicable(r, ctx)
              && forall other | other in rules && Applicable(other, ctx) :: !Beats(other, r)
  {
    hide Applicable, Beats;
    FilterHas(rules, (r: Rule) => Applicable(r, ctx));
    var applicable := Filter(rules, (r: Rule) => Applicable(r, ctx));
    if applicable != [] {
      ReduceIsMaximal(applicable[0], applicable[1..]);
      assert forall r :: r in applicable <==> r == applicable[0] || r in applicable[1..];
      assert applicable[0] in applicable;
    }
  }

  // ---------------------------------------------------------------- What the preference is

  /** Text order: the first difference decides, and a text comes before its continuations. */
  ghost predicate TextLess(a: string, b: string) {
    exists k: nat :: k <= |a| && k < |b| && a[..k] == b[..k] && (k == |a| || a[k] < b[k])
  }

  lemma {:induction false} BeforeIsTextOrder(a: string, b: string)
    ensures Before(a, b) <==> TextLess(a, b)
    decreases |a|
  {
    if Before(a, b) {
      if a == [] || a[0] < b[0] {
        assert a[..0] == b[..0];
      } else {
        BeforeIsTextOrder(a[1..], b[1..]);
        var k: nat :| k <= |a[1..]| && k < |b[1..]| && a[1..][..k] == b[1..][..k] && (k == |a[1..]| || a[1..][k] < b[1..][k]);
        assert a[..k + 1] == [a[0]] + a[1..][..k] && b[..k + 1] == [b[0]] + b[1..][..k];
      }
    }
    if TextLess(a, b) {
      var k: nat :| k <= |a| && k < |b| && a[..k] == b[..k] && (k == |a| || a[k] < b[k]);
      if k > 0 {
        assert a[..k][0] == b[..k][0];
        assert a[1..][..k - 1] == a[..k][1..] && b[1..][..k - 1] == b[..k][1..];
        BeforeIsTextOrder(a[1..], b[1..]);
      }
    }
  }

  /** Some applicable rule is of this level. */
  ghost predicate Offers(rules: seq<Rule>, ctx: Context, level: Level) {
    exists r | r in rules :: Applicable(r, ctx) && r.level == level
  }

  /**
   * What the choice prefers: a rule for this once, else one for the client, for the partner or group, for the type of
   * engagement, and a global one last; of those of the level the latest to take effect; and of those the greatest
   * identifier.
   */
  lemma ResolvePrefers(rules: seq<Rule>, ctx: Context)
    requires ResolveRule(rules, ctx).Some?
    ensures var r := ResolveRule(rules, ctx).value;
            && r.level == (if Offers(rules, ctx, OneTimeOverride) then OneTimeOverride
                           else if Offers(rules, ctx, Client) then Client
                           else if Offers(rules, ctx, PartnerOrGroup) then PartnerOrGroup
                           else if Offers(rules, ctx, EngagementTypeLevel) then EngagementTypeLevel
                           else Global)
            && (forall other | other in rules && Applicable(other, ctx) && other.level == r.level ::
                  && other.effectiveFrom <= r.effectiveFrom
                  && (other.effectiveFrom == r.effectiveFrom ==> !TextLess(r.id, other.id)))
  {
    hide Applicable, ResolveRule, TextLess;
    ResolveIsMaximal(rules, ctx);
    var r := ResolveRule(rules, ctx).value;
    assert Offers(rules, ctx, r.level);
    forall other | other in rules && Applicable(other, ctx)
      ensures !Beats(other, r) && (Before(r.id, other.id) <==> TextLess(r.id, other.id))
    {
      BeforeIsTextOrder(r.id, other.id);
    }
  }

  /** When a rule applies, by level: the program's five kinds of scope. */
  lemma AppliesExactly(rule: Rule, ctx: Context)
    ensures Applicable(rule, ctx) <==>
            && rule.isActive
            && rule.effectiveFrom <= ctx.asOf && (rule.effectiveTo == None || rule.effectiveTo.value >= ctx.asOf)
            && rule.feeKind in {None, Some(ctx.feeKind)} && rule.engagementType in {None, Some(ctx.engagementType)}
            && (rule.level == EngagementTypeLevel ==> rule.engagementType.Some?)
            && (rule.level == PartnerOrGroup ==>
                  || (rule.partnerUserId == ctx.partnerUserId && rule.partnerUserId !in {None, Some("")})
                  || (rule.clientGroup == ctx.clientGroup && rule.clientGroup !in {None, Some("")}))
            && (rule.level in {Client, OneTimeOverride} ==> rule.clientId == Some(ctx.clientId))
  {
  }

  predicate DistinctIds(rules: seq<Rule>) {
    forall r, t | r in rules && t in rules :: r.id == t.id ==> r == t
  }

  /** Which rules are given decides the answer; their order, and how often each is repeated, does not. */
  lemma ResolveIgnoresOrder(rules: seq<Rule>, other: seq<Rule>, ctx: Context)
    requires DistinctIds(rules)
    requires forall r :: r in rules <==> r in other
    ensures ResolveRule(rules, ctx) == ResolveRule(other, ctx)
  {
    hide Applicable, Beats, ResolveRule;
    ResolveIsMaximal(rules, ctx);
    ResolveIsMaximal(other, ctx);
    if ResolveRule(rules, ctx).Some? {
      var a, b := ResolveRule(rules, ctx).value, ResolveRule(other, ctx).value;
      BeatsTrichotomy(a, b);
    }
  }

  /** Adding one rule leaves the winner or makes the new rule the winner. */
  lemma AddingOneRule(rules: seq<Rule>, extra: Rule, ctx: Context)
    requires DistinctIds(rules + [extra])
    ensures ResolveRule(rules + [extra], ctx) == ResolveRule(rules, ctx)
            || ResolveRule(rules + [extra], ctx) == Some(extra)
  {
    hide Applicable, Beats, ResolveRule;
    ResolveIsMaximal(rules, ctx);
    ResolveIsMaximal(rules + [extra], ctx);
    assert forall r :: r in rules + [extra] <==> r in rules || r == extra;
    var was, is_ := ResolveRule(rules, ctx), ResolveRule(rules + [extra], ctx);
    if is_.Some? && is_.value != extra {
      assert Applicable(is_.value, ctx) && is_.value in rules;
      BeatsTrichotomy(was.value, is_.value);
    }
  }
}
