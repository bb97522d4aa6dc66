/** Which of several rows for one token is the effective one. */
module FieldValues {
  import opened Basics

  datatype Source = KarbonClient | KarbonWorkItem | PriorYearDocument | TemplateDefault | ManualEntry | Calculated

  /** Position in the priority list; a source that is not on it comes last. */
  function SourceRank(s: Source): nat {
    match s
    case KarbonClient => 0
    case KarbonWorkItem => 1
    case PriorYearDocument => 2
    case TemplateDefault => 3
    case ManualEntry => 4
    case Calculated => 5
  }

  datatype Candidate = Candidate(value: Option<string>, source: Source, manualOverride: Option<string>, confirmed: bool)

  datatype Status = Unresolved | Resolved | AcceptedAsIs

  datatype Decision = Decision(status: Status, resolvedValue: Option<string>, resolvedSource: Option<Source>)

  datatype Basis = ManualOverride | ConflictResolution | ManuallyConfirmed | HighestPrioritySource

  datatype FieldValue = FieldValue(value: string, source: Source, basis: Basis)

  function OrEmpty(s: Option<string>): string {
    if s.Some? then s.value else ""
  }

  predicate HasValue(c: Candidate) {
    (if c.manualOverride.Some? then c.manualOverride.value else OrEmpty(c.value)) != ""
  }

  predicate Overridden(c: Candidate) {
    OrEmpty(c.manualOverride) != ""
  }

  /** `byAuthority`: priority first, then the collation of the stored value; negative when a comes first. */
  function ByAuthority(order: string -> real, a: Candidate, b: Candidate): int {
    if SourceRank(a.source) != SourceRank(b.source) then SourceRank(a.source) - SourceRank(b.source)
    else if order(OrEmpty(a.value)) < order(OrEmpty(b.value)) then -1
    else if order(OrEmpty(a.value)) > order(OrEmpty(b.value)) then 1
    else 0
  }

  /** The first candidate of a stable sort. */
  function First(order: string -> real, cs: seq<Candidate>): (r: Option<Candidate>)
    ensures r.Some? <==> cs != []
    ensures r.Some? ==> r.value in cs
  {
    if cs == [] then None
    else
      var best := First(order, cs[..|cs| - 1]);
      var last := cs[|cs| - 1];
      if best.None? || ByAuthority(order, last, best.value) < 0 then Some(last) else best
  }

  predicate Decides(d: Option<Decision>) {
    d.Some? && (d.value.status == Resolved || d.value.status == AcceptedAsIs) && OrEmpty(d.value.resolvedValue) != ""
  }

  function ResolveFieldValue(order: string -> real, cs: seq<Candidate>, decision: Option<Decision>): Option<FieldValue> {
    var usable := Filter(cs, HasValue);
    var overridden := First(order, Filter(usable, Overridden));
    if overridden.Some? then
      Some(FieldValue(OrEmpty(overridden.value.manualOverride), overridden.value.source, ManualOverride))
    else if Decides(decision) then
      Some(FieldValue(OrEmpty(decision.value.resolvedValue),
                      if decision.value.resolvedSource.Some? then decision.value.resolvedSource.value else ManualEntry,
                      ConflictResolution))
    else
      var confirmed := First(order, Filter(usable, (c: Candidate) => c.confirmed));
      if confirmed.Some? then
        Some(FieldValue(OrEmpty(confirmed.value.value), confirmed.value.source, ManuallyConfirmed))
      else
        var best := First(order, usable);
        if best.None? then None else Some(FieldValue(OrEmpty(best.value.value), best.value.source, HighestPrioritySource))
  }

  /** No resolution is ever an empty value, and there is one exactly when some row or a decision supplies it. */
  lemma NeverEmpty(order: string -> real, cs: seq<Candidate>, decision: Option<Decision>)
    ensures var r := ResolveFieldValue(order, cs, decision);
            && (r.Some? ==> r.value.value != "")
            && (r.Some? <==> Decides(decision) || exists c | c in cs :: HasValue(c))
  {
    hide Filter, First;
    var usable := Filter(cs, HasValue);
    var overridden, confirmed := Filter(usable, Overridden), Filter(usable, (c: Candidate) => c.confirmed);
    FilterHas(cs, HasValue);
    FilterHas(usable, Overridden);
    FilterHas(usable, (c: Candidate) => c.confirmed);
    SomeOrNone(usable);
    SomeOrNone(overridden);
    SomeOrNone(confirmed);
  }

  lemma SomeOrNone(cs: seq<Candidate>)
    ensures cs != [] <==> exists c :: c in cs
  {
    if cs != [] {
      FirstIsIn(cs);
    }
  }

  // ---------------------------------------------------------------- Order of reading

  /** One row per source. */
  predicate OnePerSource(cs: seq<Candidate>) {
    forall a, b | a in cs && b in cs :: a.source == b.source ==> a == b
  }

  lemma RanksApart(a: Source, b: Source)
    ensures SourceRank(a) == SourceRank(b) <==> a == b
  {
  }

  lemma {:induction false} FirstIsBest(order: string -> real, cs: seq<Candidate>)
    requires cs != []
    ensures forall c | c in cs :: SourceRank(First(order, cs).value.source) <= SourceRank(c.source)
  {
    var last := |cs| - 1;
    assert cs == cs[..last] + [cs[last]];
    if last > 0 {
      FirstIsBest(order, cs[..last]);
    }
  }

  lemma FirstIgnoresOrder(order: string -> real, cs: seq<Candidate>, ds: seq<Candidate>)
    requires OnePerSource(cs) && forall c :: c in cs <==> c in ds
    ensures First(order, cs) == First(order, ds)
  {
    if cs == [] {
      assert ds == [] by {
        if ds != [] {
          FirstIsIn(ds);
        }
      }
    } else {
      FirstIsIn(cs);
      FirstIsBest(order, cs);
      FirstIsBest(order, ds);
      RanksApart(First(order, cs).value.source, First(order, ds).value.source);
    }
  }

  lemma KeepSame(cs: seq<Candidate>, ds: seq<Candidate>, p: Candidate -> bool)
    requires OnePerSource(cs) && forall c :: c in cs <==> c in ds
    ensures OnePerSource(Filter(cs, p)) && forall c :: c in Filter(cs, p) <==> c in Filter(ds, p)
  {
    FilterHas(cs, p);
    FilterHas(ds, p);
  }

  /** With one row per source, the value does not depend on the order the rows were read in. */
  lemma ResolutionIgnoresOrder(order: string -> real, cs: seq<Candidate>, ds: seq<Candidate>, decision: Option<Decision>)
    requires OnePerSource(cs) && forall c :: c in cs <==> c in ds
    ensures ResolveFieldValue(order, cs, decision) == ResolveFieldValue(order, ds, decision)
  {
    hide First, Filter;
    var us, vs := Filter(cs, HasValue), Filter(ds, HasValue);
    KeepSame(cs, ds, HasValue);
    FirstIgnoresOrder(order, us, vs);
    KeepSame(us, vs, Overridden);
    FirstIgnoresOrder(order, Filter(us, Overridden), Filter(vs, Overridden));
    var confirmed := (c: Candidate) => c.confirmed;
    KeepSame(us, vs, confirmed);
    FirstIgnoresOrder(order, Filter(us, confirmed), Filter(vs, confirmed));
  }

  /** The sources in the order of their authority; a calculated value is not among them and comes last. */
  const SOURCE_PRIORITY: seq<Source> := [KarbonClient, KarbonWorkItem, PriorYearDocument, TemplateDefault, ManualEntry]

  predicate MoreAuthoritative(a: Source, b: Source) {
    exists i | 0 <= i < |SOURCE_PRIORITY| :: SOURCE_PRIORITY[i] == a && b !in SOURCE_PRIORITY[..i + 1]
  }

  lemma AuthorityIsRank(a: Source, b: Source)
    ensures MoreAuthoritative(a, b) <==> SourceRank(a) < SourceRank(b)
  {
    SourceListed(a);
    SourceListed(b);
    if MoreAuthoritative(a, b) {
      var i :| 0 <= i < |SOURCE_PRIORITY| && SOURCE_PRIORITY[i] == a && b !in SOURCE_PRIORITY[..i + 1];
      SourcesBefore(i, b);
    } else if SourceRank(a) < 5 {
      SourcesBefore(SourceRank(a), b);
    }
  }

  lemma SourceListed(a: Source)
    ensures SourceRank(a) <= 5 && (SourceRank(a) < 5 ==> SOURCE_PRIORITY[SourceRank(a)] == a)
    ensures forall i | 0 <= i < |SOURCE_PRIORITY| && SOURCE_PRIORITY[i] == a :: i == SourceRank(a)
  {
  }

  lemma SourcesBefore(i: nat, b: Source)
    requires i < |SOURCE_PRIORITY|
    ensures b in SOURCE_PRIORITY[..i + 1] <==> SourceRank(b) <= i
  {
    SourceListed(b);
    if SourceRank(b) <= i {
      assert SOURCE_PRIORITY[..i + 1][SourceRank(b)] == b;
    }
  }

  /** Some text that is not empty. */
  predicate Says(s: Option<string>) {
    s.Some? && s.value != ""
  }

  /** What a row offers: its override where there is one, even an empty one, and its value otherwise. */
  predicate Offers(c: Candidate) {
    Says(c.manualOverride) || (c.manualOverride.None? && Says(c.value))
  }

  /** A person has decided, and for some text. */
  predicate Chosen(d: Option<Decision>) {
    d.Some? && d.value.status != Unresolved && Says(d.value.resolvedValue)
  }

  /**
   * The row that stands for those of a kind: none of them is of a more authoritative source, none of its own source has
   * a stored value that collates earlier, and of those that collate alike it was read first.
   */
  ghost predicate Stands(order: string -> real, cs: seq<Candidate>, i: nat, kind: Candidate -> bool) {
    && i < |cs| && kind(cs[i])
    && forall j | 0 <= j < |cs| && kind(cs[j]) ::
         && !MoreAuthoritative(cs[j].source, cs[i].source)
         && (cs[j].source == cs[i].source ==> order(OrEmpty(cs[i].value)) <= order(OrEmpty(cs[j].value)))
         && (cs[j].source == cs[i].source && j < i ==> order(OrEmpty(cs[i].value)) < order(OrEmpty(cs[j].value)))
  }

  lemma AheadOf(order: string -> real, a: Candidate, b: Candidate)
    ensures ByAuthority(order, a, b) < 0 <==>
            MoreAuthoritative(a.source, b.source)
            || (a.source == b.source && order(OrEmpty(a.value)) < order(OrEmpty(b.value)))
  {
    hide MoreAuthoritative;
    AuthorityIsRank(a.source, b.source);
    RanksApart(a.source, b.source);
  }

  lemma AuthorityTotal(a: Source, b: Source)
    ensures a == b || MoreAuthoritative(a, b) || MoreAuthoritative(b, a)
    ensures !(MoreAuthoritative(a, b) && MoreAuthoritative(b, a)) && !MoreAuthoritative(a, a)
  {
    hide MoreAuthoritative;
    AuthorityIsRank(a, b);
    AuthorityIsRank(b, a);
    AuthorityIsRank(a, a);
    RanksApart(a, b);
  }

  lemma FilterOfMore<T>(s: seq<T>, x: T, p: T -> bool)
    ensures Filter(s + [x], p) == Filter(s, p) + (if p(x) then [x] else [])
  {
    FilterAppend(s, [x], p);
    assert [x][1..] == [] && Filter([x], p) == (if p(x) then [x] else []) + Filter([], p);
  }

  /** Filtering twice is filtering by a kind, when the kind is the two tests together. */
  lemma {:induction false} FilterTwice(s: seq<Candidate>, p: Candidate -> bool, q: Candidate -> bool,
                                       kind: Candidate -> bool)
    requires forall c :: kind(c) <==> p(c) && q(c)
    ensures Filter(Filter(s, p), q) == Filter(s, kind)
  {
    if s != [] {
      FilterTwice(s[1..], p, q, kind);
      var rest := Filter(s[1..], p);
      assert ([s[0]] + rest)[1..] == rest && ([s[0]] + rest)[0] == s[0];
      assert [] + rest == rest && [] + Filter(rest, q) == Filter(rest, q);
    }
  }

  lemma FirstOfMore(order: string -> real, cs: seq<Candidate>, c: Candidate)
    ensures First(order, cs + [c]) == if First(order, cs).None? || ByAuthority(order, c, First(order, cs).value) < 0
                                      then Some(c) else First(order, cs)
  {
    hide ByAuthority;
    assert (cs + [c])[..|cs|] == cs;
  }

  /** A row that stands is the first of its kind, and there is none exactly when there is none of the kind. */
  lemma {:induction false} StandsIsFirst(order: string -> real, cs: seq<Candidate>, kind: Candidate -> bool)
    ensures match First(order, Filter(cs, kind))
            case None => forall c | c in cs :: !kind(c)
            case Some(c) => exists i: nat :: Stands(order, cs, i, kind) && cs[i] == c
  {
    hide First, MoreAuthoritative, ByAuthority, Filter;
    if cs == [] {
      NothingFiltered(kind);
      NothingKept(order, Filter(cs, kind));
    } else {
      var n := |cs| - 1;
      var front, last := cs[..n], cs[n];
      assert cs == front + [last];
      StandsIsFirst(order, front, kind);
      FilterOfMore(front, last, kind);
      FirstOfMore(order, Filter(front, kind), last);
      assert Filter(front, kind) + [] == Filter(front, kind);
      if First(order, Filter(front, kind)).Some? {
        var i: nat :| Stands(order, front, i, kind) && Some(front[i]) == First(order, Filter(front, kind));
        OneMoreStands(order, front, last, i, kind);
      } else if kind(last) {
        assert Stands(order, cs, n, kind) by {
          AuthorityTotal(last.source, last.source);
          assert forall j | 0 <= j < n :: cs[j] in front;
        }
      }
    }
  }

  lemma NothingFiltered(kind: Candidate -> bool)
    ensures Filter([], kind) == []
  {
  }

  lemma OneMoreStands(order: string -> real, front: seq<Candidate>, last: Candidate, i: nat, kind: Candidate -> bool)
    requires Stands(order, front, i, kind)
    ensures var cs := front + [last];
            if kind(last) && ByAuthority(order, last, front[i]) < 0 then Stands(order, cs, |front|, kind)
            else Stands(order, cs, i, kind)
  {
    hide MoreAuthoritative, ByAuthority;
    AheadOf(order, last, front[i]);
    AuthorityTotal(last.source, last.source);
    forall j | 0 <= j < |front| && kind(front[j])
      ensures !MoreAuthoritative(front[j].source, front[i].source)
      ensures MoreAuthoritative(last.source, front[i].source) ==>
                !MoreAuthoritative(front[j].source, last.source) && front[j].source != last.source
    {
      AuthorityChain(front[j].source, last.source, front[i].source);
    }
  }

  lemma AuthorityChain(a: Source, b: Source, c: Source)
    ensures MoreAuthoritative(b, c) && !MoreAuthoritative(a, c) ==> !MoreAuthoritative(a, b) && a != b
  {
    hide MoreAuthoritative;
    AuthorityIsRank(a, b);
    AuthorityIsRank(b, c);
    AuthorityIsRank(a, c);
  }

  /** The precedence in full: an override, else a decision, else a confirmed row, else the best source. */
  lemma ResolutionFollowsPrecedence(order: string -> real, cs: seq<Candidate>, decision: Option<Decision>)
    ensures var r := ResolveFieldValue(order, cs, decision);
            var overridden, confirmed := (d: Candidate) => Says(d.manualOverride), (d: Candidate) => d.confirmed && Offers(d);
            if exists d :: d in cs && overridden(d) then
              exists i: nat :: Stands(order, cs, i, overridden)
                               && r == Some(FieldValue(cs[i].manualOverride.value, cs[i].source, ManualOverride))
            else if Chosen(decision) then
              r == Some(FieldValue(decision.value.resolvedValue.value,
                                   if decision.value.resolvedSource.Some? then decision.value.resolvedSource.value
                                   else ManualEntry, ConflictResolution))
            else if exists d :: d in cs && confirmed(d) then
              exists i: nat :: Stands(order, cs, i, confirmed)
                               && r == Some(FieldValue(OrEmpty(cs[i].value), cs[i].source, ManuallyConfirmed))
            else if exists d :: d in cs && Offers(d) then
              exists i: nat :: Stands(order, cs, i, Offers)
                               && r == Some(FieldValue(OrEmpty(cs[i].value), cs[i].source, HighestPrioritySource))
            else r == None
  {
    hide First, Filter, SourceRank, MoreAuthoritative, Stands;
    var overridden, confirmed := (d: Candidate) => Says(d.manualOverride), (d: Candidate) => d.confirmed && Offers(d);
    var usable := Filter(cs, HasValue);
    SameFirst(order, cs, HasValue, Overridden, overridden);
    SameFirst(order, cs, HasValue, (c: Candidate) => c.confirmed, confirmed);
    SameFirst(order, cs, HasValue, (c: Candidate) => true, Offers);
    EveryOneKept(usable);
    StandsMeansKind(order, cs, overridden);
    StandsMeansKind(order, cs, confirmed);
    StandsMeansKind(order, cs, Offers);
  }

  lemma StandsMeansKind(order: string -> real, cs: seq<Candidate>, kind: Candidate -> bool)
    ensures forall i: nat | Stands(order, cs, i, kind) :: i < |cs| && kind(cs[i]) && cs[i] in cs
  {
  }

  lemma {:induction false} EveryOneKept(cs: seq<Candidate>)
    ensures Filter(cs, (c: Candidate) => true) == cs
  {
    if cs != [] {
      EveryOneKept(cs[1..]);
    }
  }

  lemma SameFirst(order: string -> real, cs: seq<Candidate>, p: Candidate -> bool, q: Candidate -> bool,
                  kind: Candidate -> bool)
    requires forall c :: kind(c) <==> p(c) && q(c)
    ensures match First(order, Filter(Filter(cs, p), q))
            case None => forall c | c in cs :: !kind(c)
            case Some(c) => exists i: nat :: Stands(order, cs, i, kind) && cs[i] == c
  {
    hide First, Stands, Filter;
    FilterTwice(cs, p, q, kind);
    StandsIsFirst(order, cs, kind);
  }

  lemma NothingKept(order: string -> real, cs: seq<Candidate>)
    ensures (forall c :: c !in cs) ==> First(order, cs).None?
  {
    if cs != [] {
      FirstIsIn(cs);
    }
  }
}
