/**
 * The merge of one token's findings, and exactly when its answer does not depend on the order in which
 * the documents were read.
 */
module MergeOrder {
  import opened Basics
  import opened DocumentMerge

  /** One token's merge; an empty disagreement is the source's null. */
  function MergeToken(r: Rules, token: string, all: seq<Finding>): Merged
    requires all != []
  {
    GroupsAreClasses(r, all);
    GroupsExist(r, all);
    var sorted := SortGroups(r, GroupsOf(r, all));
    var best := Authoritative(r, sorted[0].findings);
    Merged(token, best.value, best.detail, sorted[0].findings, sorted[1..])
  }

  lemma GroupsExist(r: Rules, all: seq<Finding>)
    requires all != []
    ensures GroupsOf(r, all) != [] && NonEmpty(GroupsOf(r, all))
    ensures SortGroups(r, GroupsOf(r, all)) != []
  {
    GroupsAreClasses(r, all);
    var groups := GroupsOf(r, all);
    assert all[0] in all;
    assert multiset(SortGroups(r, groups)) == multiset(groups);
    assert groups[0] in multiset(groups);
  }

  // ---------------------------------------------------------------- Partition

  function AllFindings(groups: seq<Group>): multiset<Finding> {
    if groups == [] then multiset{} else multiset(groups[0].findings) + AllFindings(groups[1..])
  }

  lemma {:induction false} AddToAddsOne(r: Rules, groups: seq<Group>, f: Finding)
    ensures AllFindings(AddTo(r, groups, f)) == AllFindings(groups) + multiset{f}
  {
    if groups == [] {
      assert AllFindings([Group(f.value, [f])][1..]) == multiset{};
    } else if r.norm(groups[0].value) == r.norm(f.value) {
      var g := groups[0].(findings := groups[0].findings + [f]);
      assert ([g] + groups[1..])[1..] == groups[1..];
    } else {
      AddToAddsOne(r, groups[1..], f);
      assert ([groups[0]] + AddTo(r, groups[1..], f))[1..] == AddTo(r, groups[1..], f);
    }
  }

  lemma {:induction false} GroupsHoldAll(r: Rules, all: seq<Finding>)
    ensures AllFindings(GroupsOf(r, all)) == multiset(all)
  {
    if all != [] {
      var rest, f := all[..|all| - 1], all[|all| - 1];
      assert all == rest + [f];
      GroupsHoldAll(r, rest);
      AddToAddsOne(r, GroupsOf(r, rest), f);
    }
  }

  lemma {:induction false} InsertHolds(r: Rules, g: Group, sorted: seq<Group>)
    requires g.findings != [] && NonEmpty(sorted)
    ensures AllFindings(InsertGroup(r, g, sorted)) == AllFindings(sorted) + multiset(g.findings)
  {
    if sorted != [] {
      if BetterGroup(r, g, sorted[0]) < 0 {
        assert ([g] + sorted)[1..] == sorted;
      } else {
        InsertHolds(r, g, sorted[1..]);
        var rest := InsertGroup(r, g, sorted[1..]);
        assert ([sorted[0]] + rest)[1..] == rest;
      }
    } else {
      assert [g][1..] == [];
    }
  }

  lemma {:induction false} AppendHolds(groups: seq<Group>, g: Group)
    ensures AllFindings(groups + [g]) == AllFindings(groups) + multiset(g.findings)
  {
    if groups == [] {
      assert groups + [g] == [g] && [g][1..] == [];
    } else {
      AppendHolds(groups[1..], g);
      assert (groups + [g])[1..] == groups[1..] + [g];
    }
  }

  lemma {:induction false} SortHolds(r: Rules, groups: seq<Group>)
    requires NonEmpty(groups)
    ensures AllFindings(SortGroups(r, groups)) == AllFindings(groups)
  {
    if groups != [] {
      var last := |groups| - 1;
      assert groups == groups[..last] + [groups[last]];
      SortHolds(r, groups[..last]);
      InsertHolds(r, groups[last], SortGroups(r, groups[..last]));
      AppendHolds(groups[..last], groups[last]);
    }
  }

  /**
   * The corroborating findings and the disagreeing groups hold every finding exactly as often as it was
   * given; the corroborating ones are all that agree with the value and no others; and no disagreeing
   * group agrees with the value.
   */
  lemma MergePartitions(r: Rules, token: string, all: seq<Finding>)
    requires all != []
    ensures var m := MergeToken(r, token, all);
            && multiset(m.corroborating) + AllFindings(m.disagreement) == multiset(all)
            && m.corroborating == Members(r, all, r.norm(m.value))
            && (forall g | g in m.disagreement :: g.findings == Members(r, all, r.norm(g.value)))
  {
    var groups := GroupsOf(r, all);
    GroupsAreClasses(r, all);
    GroupsExist(r, all);
    GroupsHoldAll(r, all);
    SortHolds(r, groups);
    var sorted := SortGroups(r, groups);
    forall g | g in sorted
      ensures g in groups
    {
      assert g in multiset(sorted);
    }
    WinnerKey(r, sorted[0], all);
  }

  /** The spelling chosen agrees with its group. */
  lemma WinnerKey(r: Rules, g: Group, all: seq<Finding>)
    requires g.findings != [] && g.findings == Members(r, all, r.norm(g.value))
    ensures r.norm(Authoritative(r, g.findings).value) == r.norm(g.value)
  {
    MembersHas(r, all, r.norm(g.value));
  }

  // ---------------------------------------------------------------- The ranking

  /** Scores differ by more than the comparison's tolerance or not at all. */
  ghost predicate Separated(all: seq<Finding>) {
    forall f, g | f in all && g in all ::
      f.score == g.score || f.score - g.score > TOLERANCE || g.score - f.score > TOLERANCE
  }

  predicate TierBeats(s: seq<Finding>, t: seq<Finding>)
    requires s != [] && t != []
  {
    || BestScore(s) > BestScore(t)
    || (BestScore(s) == BestScore(t) && |s| > |t|)
    || (BestScore(s) == BestScore(t) && |s| == |t| && BestKind(s) < BestKind(t))
  }

  predicate TierTies(s: seq<Finding>, t: seq<Finding>)
    requires s != [] && t != []
  {
    BestScore(s) == BestScore(t) && |s| == |t| && BestKind(s) == BestKind(t)
  }

  lemma RankingIs(r: Rules, a: Group, b: Group, all: seq<Finding>)
    requires Separated(all) && a.findings != [] && b.findings != []
    requires (forall f | f in a.findings :: f in all) && (forall f | f in b.findings :: f in all)
    ensures BetterGroup(r, a, b) < 0 <==>
            TierBeats(a.findings, b.findings)
            || (TierTies(a.findings, b.findings) && r.order(a.value) < r.order(b.value))
  {
    BestScoreIs(a.findings);
    BestScoreIs(b.findings);
    var f :| f in a.findings && f.score == BestScore(a.findings);
    var g :| g in b.findings && g.score == BestScore(b.findings);
  }

  /** Groups whose findings all come from one separated list. */
  ghost predicate Drawn(groups: seq<Group>, all: seq<Finding>) {
    forall g | g in groups :: g.findings != [] && forall f | f in g.findings :: f in all
  }

  lemma RankingTransitive(r: Rules, a: Group, b: Group, c: Group, all: seq<Finding>)
    requires Separated(all) && Drawn([a, b, c], all)
    requires BetterGroup(r, a, b) < 0 && BetterGroup(r, b, c) < 0
    ensures BetterGroup(r, a, c) < 0
  {
    hide BetterGroup;
    assert a in [a, b, c] && b in [a, b, c] && c in [a, b, c];
    RankingIs(r, a, b, all);
    RankingIs(r, b, c, all);
    RankingIs(r, a, c, all);
  }

  lemma InsertFirst(r: Rules, g: Group, sorted: seq<Group>)
    requires g.findings != [] && NonEmpty(sorted) && sorted != []
    ensures InsertGroup(r, g, sorted) != []
    ensures InsertGroup(r, g, sorted)[0] == if BetterGroup(r, g, sorted[0]) < 0 then g else sorted[0]
  {
  }

  /** No group of the list precedes this one. */
  ghost predicate Unpreceded(r: Rules, m: Group, groups: seq<Group>)
    requires m.findings != [] && NonEmpty(groups)
  {
    forall h | h in groups :: !(BetterGroup(r, h, m) < 0)
  }

  lemma DrawnSplits(groups: seq<Group>, g: Group, all: seq<Finding>)
    requires Drawn(groups + [g], all)
    ensures Drawn(groups, all) && Drawn([g], all) && NonEmpty(groups) && NonEmpty(groups + [g]) && g.findings != []
  {
    assert g in groups + [g];
    assert forall h | h in groups :: h in groups + [g];
  }

  lemma DrawnThree(groups: seq<Group>, a: Group, b: Group, c: Group, all: seq<Finding>)
    requires Drawn(groups, all) && a in groups && b in groups && c in groups
    ensures Drawn([a, b, c], all)
  {
  }

  /** A new group that precedes the first so far is preceded by nothing: whatever did would precede that first too. */
  lemma NewFirst(r: Rules, groups: seq<Group>, m: Group, g: Group, all: seq<Finding>)
    requires Separated(all) && Drawn(groups + [g], all) && m in groups
    requires NonEmpty(groups) && NonEmpty(groups + [g]) && g.findings != [] && Unpreceded(r, m, groups)
    requires BetterGroup(r, g, m) < 0
    ensures Unpreceded(r, g, groups + [g])
  {
    hide BetterGroup, Drawn, Separated;
    NotBeforeItself(r, g);
    forall h | h in groups + [g]
      ensures !(BetterGroup(r, h, g) < 0)
    {
      if h != g && BetterGroup(r, h, g) < 0 {
        DrawnThree(groups + [g], h, g, m, all);
        RankingTransitive(r, h, g, m, all);
      }
    }
  }

  lemma OldFirst(r: Rules, groups: seq<Group>, m: Group, g: Group)
    requires NonEmpty(groups) && NonEmpty(groups + [g]) && m.findings != [] && g.findings != []
    requires Unpreceded(r, m, groups) && !(BetterGroup(r, g, m) < 0)
    ensures Unpreceded(r, m, groups + [g])
  {
    hide BetterGroup;
  }

  lemma SortOfOne(r: Rules, g: Group)
    requires g.findings != []
    ensures SortGroups(r, [g]) == [g] && Unpreceded(r, g, [g])
  {
    hide BetterGroup;
    assert [g][..0] == [];
    NotBeforeItself(r, g);
  }

  lemma SortOfMore(r: Rules, groups: seq<Group>, g: Group)
    requires NonEmpty(groups) && NonEmpty(groups + [g]) && g.findings != []
    ensures SortGroups(r, groups + [g]) == InsertGroup(r, g, SortGroups(r, groups))
    ensures |SortGroups(r, groups)| == |groups|
  {
    hide InsertGroup, BetterGroup;
    assert (groups + [g])[..|groups|] == groups;
    assert |multiset(SortGroups(r, groups))| == |multiset(groups)|;
  }

  /** Under a separated scoring the sort puts a group first that none precedes. */
  lemma {:induction false} FirstIsBest(r: Rules, groups: seq<Group>, all: seq<Finding>)
    requires groups != [] && NonEmpty(groups) && Separated(all) && Drawn(groups, all)
    ensures var sorted := SortGroups(r, groups);
            && sorted != [] && sorted[0] in groups
            && forall g | g in groups :: !(BetterGroup(r, g, sorted[0]) < 0)
  {
    hide BetterGroup, SortGroups, InsertGroup, Drawn, NonEmpty, Separated;
    var last := |groups| - 1;
    var rest, g := groups[..last], groups[last];
    assert groups == rest + [g];
    DrawnSplits(rest, g, all);
    if rest == [] {
      assert groups == [g];
      SortOfOne(r, g);
    } else {
      FirstIsBest(r, rest, all);
      SortOfMore(r, rest, g);
      var m := SortGroups(r, rest)[0];
      MemberIsNonEmpty(rest, m);
      InsertFirst(r, g, SortGroups(r, rest));
      if BetterGroup(r, g, m) < 0 {
        NewFirst(r, rest, m, g, all);
      } else {
        OldFirst(r, rest, m, g);
      }
    }
  }

  lemma MemberIsNonEmpty(groups: seq<Group>, g: Group)
    requires NonEmpty(groups) && g in groups
    ensures g.findings != []
  {
  }

  /** The sort is stable at the front: its first group is the first group read, or strictly precedes it. */
  lemma {:induction false} FirstReadStands(r: Rules, groups: seq<Group>, all: seq<Finding>)
    requires groups != [] && NonEmpty(groups) && Separated(all) && Drawn(groups, all)
    ensures var sorted := SortGroups(r, groups);
            sorted != [] && sorted[0] in groups && (sorted[0] == groups[0] || BetterGroup(r, sorted[0], groups[0]) < 0)
  {
    hide BetterGroup, SortGroups, InsertGroup, Drawn, NonEmpty, Separated;
    var last := |groups| - 1;
    var rest, g := groups[..last], groups[last];
    assert groups == rest + [g];
    DrawnSplits(rest, g, all);
    if rest == [] {
      assert groups == [g];
      SortOfOne(r, g);
    } else {
      FirstReadStands(r, rest, all);
      SortOfMore(r, rest, g);
      var m := SortGroups(r, rest)[0];
      MemberIsNonEmpty(rest, m);
      InsertFirst(r, g, SortGroups(r, rest));
      if BetterGroup(r, g, m) < 0 && m != rest[0] {
        DrawnThree(groups, g, m, rest[0], all);
        RankingTransitive(r, g, m, rest[0], all);
      }
    }
  }

  lemma NotBeforeItself(r: Rules, g: Group)
    requires g.findings != []
    ensures !(BetterGroup(r, g, g) < 0)
  {
  }

  lemma FindingsOrdered(r: Rules, a: Finding, b: Finding, c: Finding)
    ensures !(BetterFinding(r, a, a) < 0)
    ensures BetterFinding(r, a, b) < 0 && BetterFinding(r, b, c) < 0 ==> BetterFinding(r, a, c) < 0
  {
  }

  lemma AuthoritativeOfMore(r: Rules, fs: seq<Finding>, f: Finding)
    ensures Authoritative(r, [f]) == f
    ensures fs != [] ==> Authoritative(r, fs + [f])
                         == if BetterFinding(r, f, Authoritative(r, fs)) < 0 then f else Authoritative(r, fs)
  {
    hide BetterFinding;
    assert (fs + [f])[..|fs|] == fs;
  }

  lemma {:induction false} AuthoritativeIsBest(r: Rules, fs: seq<Finding>)
    requires fs != []
    ensures forall f | f in fs :: !(BetterFinding(r, f, Authoritative(r, fs)) < 0)
  {
    hide BetterFinding, Authoritative;
    var rest, f := fs[..|fs| - 1], fs[|fs| - 1];
    assert fs == rest + [f];
    AuthoritativeOfMore(r, rest, f);
    FindingsOrdered(r, f, f, f);
    if rest == [] {
      assert fs == [f];
    } else {
      AuthoritativeIsBest(r, rest);
      forall h | h in rest
        ensures !(BetterFinding(r, h, Authoritative(r, fs)) < 0)
      {
        FindingsOrdered(r, h, f, Authoritative(r, rest));
      }
    }
  }

  // ---------------------------------------------------------------- Order independence

  /** The value the merge settles on. */
  function ValueOf(r: Rules, all: seq<Finding>): string
    requires all != []
  {
    MergeToken(r, "", all).value
  }

  /** Every spelling of one class comes before every spelling of the other. */
  ghost predicate SpelledBefore(r: Rules, s: seq<Finding>, t: seq<Finding>) {
    forall f, g | f in s && g in t :: r.order(f.value) < r.order(g.value)
  }

  /** One class outranks another whatever its first-read spelling is. */
  ghost predicate Outranks(r: Rules, all: seq<Finding>, key: string, other: string) {
    var s, t := Members(r, all, key), Members(r, all, other);
    s != [] && (t != [] ==> TierBeats(s, t) || (TierTies(s, t) && SpelledBefore(r, s, t)))
  }

  /** A class that outranks every other. */
  ghost predicate OutranksAll(r: Rules, all: seq<Finding>, key: string) {
    forall g | g in all && r.norm(g.value) != key :: Outranks(r, all, key, r.norm(g.value))
  }

  /** A finding no other of its class precedes. */
  ghost predicate Foremost(r: Rules, s: seq<Finding>, m: Finding) {
    m in s && forall f | f in s :: !(BetterFinding(r, f, m) < 0)
  }

  /** The foremost findings of a class spell its value alike. */
  ghost predicate SpelledAlike(r: Rules, s: seq<Finding>) {
    forall m, n | Foremost(r, s, m) && Foremost(r, s, n) :: m.value == n.value
  }

  /** Some class outranks every other and its foremost findings spell it alike: checkable from the findings alone. */
  ghost predicate Decisive(r: Rules, all: seq<Finding>) {
    exists f | f in all :: OutranksAll(r, all, r.norm(f.value)) && SpelledAlike(r, Members(r, all, r.norm(f.value)))
  }

  ghost predicate OrderIndependent(r: Rules, all: seq<Finding>)
    requires all != []
  {
    forall other: seq<Finding> | other != [] && multiset(other) == multiset(all) :: ValueOf(r, other) == ValueOf(r, all)
  }

  /** The winning group of a list: its class, and that no other class's group precedes it. */
  lemma WinnerOf(r: Rules, all: seq<Finding>) returns (w: Group, groups: seq<Group>)
    requires all != [] && Separated(all)
    ensures AreClasses(r, groups, all) && w in groups
    ensures ValueOf(r, all) == Authoritative(r, w.findings).value
    ensures r.norm(ValueOf(r, all)) == r.norm(w.value)
    ensures Drawn(groups, all)
    ensures forall g | g in groups :: !(BetterGroup(r, g, w) < 0)
    ensures groups == GroupsOf(r, all) && groups != [] && (w == groups[0] || BetterGroup(r, w, groups[0]) < 0)
  {
    hide BetterGroup, Authoritative, Separated;
    groups := GroupsOf(r, all);
    GroupsAreClasses(r, all);
    GroupsExist(r, all);
    forall g | g in groups
      ensures forall f | f in g.findings :: f in all
    {
      MembersHas(r, all, r.norm(g.value));
    }
    FirstIsBest(r, groups, all);
    FirstReadStands(r, groups, all);
    w := SortGroups(r, groups)[0];
    WinnerKey(r, w, all);
  }

  lemma MembersPermute(r: Rules, all: seq<Finding>, other: seq<Finding>, key: string)
    requires multiset(all) == multiset(other)
    ensures multiset(Members(r, all, key)) == multiset(Members(r, other, key))
  {
    FilterPermutes(all, other, (f: Finding) => r.norm(f.value) == key);
  }

  lemma SeparatedPermutes(all: seq<Finding>, other: seq<Finding>)
    requires multiset(all) == multiset(other) && Separated(all)
    ensures Separated(other)
  {
    SameMembers(all, other);
  }

  /** If a class outranks every other, it wins under every order. */
  lemma DecisiveClassWins(r: Rules, all: seq<Finding>, f: Finding, other: seq<Finding>)
    requires other != [] && multiset(other) == multiset(all) && Separated(all)
    requires f in all && OutranksAll(r, all, r.norm(f.value))
    ensures r.norm(ValueOf(r, other)) == r.norm(f.value)
  {
    hide BetterGroup, ValueOf, Members, TierBeats, TierTies;
    SameMembers(all, other);
    SeparatedPermutes(all, other);
    var w, groups := WinnerOf(r, other);
    var key := r.norm(f.value);
    if r.norm(w.value) != key {
      var c :| c in groups && r.norm(c.value) == key;
      assert w.findings[0] in w.findings && w.findings[0] in other;
      MembersHas(r, other, r.norm(w.value));
      MembersHas(r, other, key);
      assert Outranks(r, all, key, r.norm(w.value)) by {
        assert w.findings[0] in all && r.norm(w.findings[0].value) == r.norm(w.value);
      }
      OutranksEverywhere(r, all, other, key, r.norm(w.value));
      assert c.findings[0] in c.findings;
      RankingIs(r, c, w, other);
    }
  }

  lemma OutranksEverywhere(r: Rules, all: seq<Finding>, other: seq<Finding>, key: string, k: string)
    requires multiset(all) == multiset(other) && Outranks(r, all, key, k)
    requires Members(r, other, k) != []
    ensures Members(r, other, key) != []
    ensures TierBeats(Members(r, other, key), Members(r, other, k))
            || (TierTies(Members(r, other, key), Members(r, other, k))
                && SpelledBefore(r, Members(r, other, key), Members(r, other, k)))
  {
    hide Members;
    MembersPermute(r, all, other, key);
    MembersPermute(r, all, other, k);
    TiersPermute(Members(r, all, key), Members(r, other, key));
    TiersPermute(Members(r, other, k), Members(r, all, k));
    SameMembers(Members(r, all, key), Members(r, other, key));
    SameMembers(Members(r, all, k), Members(r, other, k));
  }

  /** Within a class whose foremost findings are spelled alike, the spelling is the same under every order. */
  lemma SameSpelling(r: Rules, s: seq<Finding>, t: seq<Finding>)
    requires s != [] && multiset(s) == multiset(t)
    requires SpelledAlike(r, s)
    ensures t != [] && Authoritative(r, s).value == Authoritative(r, t).value
  {
    hide BetterFinding, Authoritative;
    SameMembers(s, t);
    assert s[0] in t;
    AuthoritativeIsBest(r, s);
    AuthoritativeIsBest(r, t);
    assert Foremost(r, s, Authoritative(r, s)) && Foremost(r, s, Authoritative(r, t));
  }

  lemma DecisiveSuffices(r: Rules, all: seq<Finding>)
    requires all != [] && Separated(all) && Decisive(r, all)
    ensures OrderIndependent(r, all)
  {
    hide ValueOf, Members, OutranksAll, SpelledAlike, BetterGroup;
    var f :| f in all && OutranksAll(r, all, r.norm(f.value)) && SpelledAlike(r, Members(r, all, r.norm(f.value)));
    forall other: seq<Finding> | other != [] && multiset(other) == multiset(all)
      ensures ValueOf(r, other) == ValueOf(r, all)
    {
      WinningSpelling(r, all, f, all);
      WinningSpelling(r, all, f, other);
      MembersPermute(r, all, other, r.norm(f.value));
      SameSpelling(r, Members(r, all, r.norm(f.value)), Members(r, other, r.norm(f.value)));
    }
  }

  /** When a class outranks every other, the value is its authoritative finding's, in the order read. */
  lemma WinningSpelling(r: Rules, all: seq<Finding>, f: Finding, other: seq<Finding>)
    requires other != [] && multiset(other) == multiset(all) && Separated(all)
    requires f in all && OutranksAll(r, all, r.norm(f.value))
    ensures Members(r, other, r.norm(f.value)) != []
    ensures ValueOf(r, other) == Authoritative(r, Members(r, other, r.norm(f.value))).value
  {
    hide ValueOf, Members, OutranksAll, BetterGroup, Authoritative, Separated;
    DecisiveClassWins(r, all, f, other);
    SeparatedPermutes(all, other);
    var w, groups := WinnerOf(r, other);
    assert w.findings == Members(r, other, r.norm(f.value));
  }

  // ---------------------------------------------------------------- The converse: an order that changes the answer

  function ToFront(s: seq<Finding>, i: nat): seq<Finding>
    requires i < |s|
  {
    [s[i]] + s[..i] + s[i + 1..]
  }

  lemma ToFrontPermutes(s: seq<Finding>, i: nat)
    requires i < |s|
    ensures multiset(ToFront(s, i)) == multiset(s)
  {
    assert s == s[..i] + [s[i]] + s[i + 1..];
  }

  /** The same findings with two chosen ones first and second. */
  lemma LeadWith(s: seq<Finding>, f: Finding, g: Finding) returns (t: seq<Finding>)
    requires f in s && g in s && f != g
    ensures multiset(t) == multiset(s) && |t| >= 2 && t[0] == f && t[1] == g
  {
    var i :| 0 <= i < |s| && s[i] == g;
    var once := ToFront(s, i);
    ToFrontPermutes(s, i);
    SameMembers(s, once);
    var j :| 0 <= j < |once| && once[j] == f;
    t := ToFront(once, j);
    ToFrontPermutes(once, j);
  }

  lemma FirstMember(r: Rules, all: seq<Finding>, i: nat, key: string)
    requires i < |all| && r.norm(all[i].value) == key
    requires forall j | 0 <= j < i :: r.norm(all[j].value) != key
    ensures Members(r, all, key) != [] && Members(r, all, key)[0] == all[i]
    decreases i
  {
    if i > 0 {
      FirstMember(r, all[1..], i - 1, key);
    }
  }

  /** The first group read is led by the first finding read. */
  lemma {:induction false} FirstGroupIsFirstRead(r: Rules, all: seq<Finding>)
    requires all != []
    ensures GroupsOf(r, all) != [] && GroupsOf(r, all)[0].value == all[0].value
  {
    if |all| == 1 {
      assert all[..0] == [];
    } else {
      FirstGroupIsFirstRead(r, all[..|all| - 1]);
    }
  }

  /** Of two classes that tie, reading first a rival's spelling that collates no later keeps the other from winning. */
  lemma RivalLed(r: Rules, all: seq<Finding>, f: Finding, g: Finding) returns (other: seq<Finding>)
    requires all != [] && Separated(all) && f in all && g in all
    requires r.norm(f.value) != r.norm(g.value) && r.order(g.value) <= r.order(f.value)
    requires Members(r, all, r.norm(f.value)) != [] && Members(r, all, r.norm(g.value)) != []
    requires TierTies(Members(r, all, r.norm(g.value)), Members(r, all, r.norm(f.value)))
    ensures other != [] && multiset(other) == multiset(all)
    ensures r.norm(ValueOf(r, other)) != r.norm(f.value)
  {
    hide BetterGroup, ValueOf, Members, TierTies, TierBeats, Separated;
    var key, rival := r.norm(f.value), r.norm(g.value);
    other := LeadWith(all, g, f);
    SeparatedPermutes(all, other);
    FirstMember(r, other, 0, rival);
    FirstMember(r, other, 1, key);
    TiesEverywhere(r, all, other, key, rival) by {
      TiesAreSymmetric(Members(r, all, rival), Members(r, all, key));
    }
    FirstGroupIsFirstRead(r, other);
    var w, groups := WinnerOf(r, other);
    if r.norm(w.value) == key {
      LedGroup(r, other, groups, w, f.value);
      LedGroup(r, other, groups, groups[0], g.value);
      FrontNotPreceded(r, w, groups[0], other);
    }
  }

  /** Of two groups that tie, one that collates no earlier does not precede. */
  lemma FrontNotPreceded(r: Rules, w: Group, front: Group, all: seq<Finding>)
    requires Separated(all) && w.findings != [] && front.findings != []
    requires (forall f | f in w.findings :: f in all) && (forall f | f in front.findings :: f in all)
    requires TierTies(w.findings, front.findings) && r.order(front.value) <= r.order(w.value)
    ensures !(BetterGroup(r, w, front) < 0)
  {
    hide BetterGroup, TierTies, TierBeats;
    RankingIs(r, w, front, all);
    TiersApart(w.findings, front.findings);
  }

  /** A group of a list is named after the first member of its class. */
  lemma LedGroup(r: Rules, all: seq<Finding>, groups: seq<Group>, w: Group, first: string)
    requires AreClasses(r, groups, all) && w in groups && r.norm(w.value) == r.norm(first)
    requires Members(r, all, r.norm(first)) != [] && Members(r, all, r.norm(first))[0].value == first
    ensures w.findings == Members(r, all, r.norm(first)) && w.value == first
  {
    hide Members;
  }

  lemma TiersApart(s: seq<Finding>, t: seq<Finding>)
    requires s != [] && t != []
    ensures !(TierTies(s, t) && TierBeats(s, t))
  {
  }

  lemma TiesEverywhere(r: Rules, all: seq<Finding>, other: seq<Finding>, key: string, k: string)
    requires multiset(all) == multiset(other)
    requires Members(r, all, key) != [] && Members(r, all, k) != []
    requires TierTies(Members(r, all, key), Members(r, all, k))
    ensures Members(r, other, key) != [] && Members(r, other, k) != []
    ensures TierTies(Members(r, other, key), Members(r, other, k))
  {
    hide Members;
    MembersPermute(r, all, other, key);
    MembersPermute(r, all, other, k);
    TiersPermute(Members(r, all, key), Members(r, other, key));
    TiersPermute(Members(r, all, k), Members(r, other, k));
  }

  /** Without a class that outranks all others, the winner has a rival it ties with and spellings that interleave. */
  lemma RivalExists(r: Rules, all: seq<Finding>, w: Group, groups: seq<Group>) returns (c: Group)
    requires all != [] && Separated(all) && forall f | f in all :: !OutranksAll(r, all, r.norm(f.value))
    requires AreClasses(r, groups, all) && w in groups && Drawn(groups, all)
    requires forall g | g in groups :: !(BetterGroup(r, g, w) < 0)
    ensures c in groups && r.norm(c.value) != r.norm(w.value)
    ensures TierTies(c.findings, w.findings) && !SpelledBefore(r, w.findings, c.findings)
  {
    hide BetterGroup, Members, TierTies, TierBeats, SpelledBefore, OutranksAll, Outranks;
    FirstIsIn(w.findings);
    var g := SomeUnoutranked(r, all, w.findings[0]);
    c :| c in groups && r.norm(c.value) == r.norm(g.value);
    NotOutranked(r, all, r.norm(w.value), r.norm(c.value));
    RankingIs(r, c, w, all);
    TiersTotal(c.findings, w.findings);
    TiesAreSymmetric(c.findings, w.findings);
  }

  lemma SomeUnoutranked(r: Rules, all: seq<Finding>, f: Finding) returns (g: Finding)
    requires f in all && !OutranksAll(r, all, r.norm(f.value))
    ensures g in all && r.norm(g.value) != r.norm(f.value) && !Outranks(r, all, r.norm(f.value), r.norm(g.value))
  {
    hide Outranks;
    g :| g in all && r.norm(g.value) != r.norm(f.value) && !Outranks(r, all, r.norm(f.value), r.norm(g.value));
  }

  lemma NotOutranked(r: Rules, all: seq<Finding>, key: string, other: string)
    requires !Outranks(r, all, key, other) && Members(r, all, key) != []
    ensures Members(r, all, other) != []
    ensures !TierBeats(Members(r, all, key), Members(r, all, other))
    ensures TierTies(Members(r, all, key), Members(r, all, other))
            ==> !SpelledBefore(r, Members(r, all, key), Members(r, all, other))
  {
    hide Members, TierTies, TierBeats, SpelledBefore;
  }

  /** Without a class that outranks every other, some order lets another class win. */
  lemma NoClassOutranks(r: Rules, all: seq<Finding>)
    requires all != [] && Separated(all) && forall f | f in all :: !OutranksAll(r, all, r.norm(f.value))
    ensures !OrderIndependent(r, all)
  {
    hide BetterGroup, ValueOf, Members, TierTies, TierBeats, OutranksAll;
    var w, groups := WinnerOf(r, all);
    var c := RivalExists(r, all, w, groups);
    var x, y :| x in w.findings && y in c.findings && !(r.order(x.value) < r.order(y.value));
    MembersHas(r, all, r.norm(w.value));
    MembersHas(r, all, r.norm(c.value));
    assert x in all && y in all;
    var other := RivalLed(r, all, x, y);
    assert ValueOf(r, other) != ValueOf(r, all);
  }

  /** The first finding read stands when no other precedes it. */
  lemma {:induction false} FirstReadSpells(r: Rules, fs: seq<Finding>)
    requires fs != [] && Foremost(r, fs, fs[0])
    ensures Authoritative(r, fs) == fs[0]
  {
    hide BetterFinding;
    if |fs| > 1 {
      FirstReadSpells(r, fs[..|fs| - 1]);
      assert fs[|fs| - 1] in fs;
    }
  }

  /** Reading a foremost finding of the winning class first makes its spelling the value. */
  lemma SpellingLed(r: Rules, all: seq<Finding>, f: Finding, m: Finding) returns (other: seq<Finding>)
    requires all != [] && Separated(all) && f in all && OutranksAll(r, all, r.norm(f.value))
    requires Foremost(r, Members(r, all, r.norm(f.value)), m)
    ensures other != [] && multiset(other) == multiset(all) && ValueOf(r, other) == m.value
  {
    hide BetterFinding, ValueOf, Members, OutranksAll, Authoritative, Separated;
    var key := r.norm(f.value);
    MembersHas(r, all, key);
    var i :| 0 <= i < |all| && all[i] == m;
    other := ToFront(all, i);
    ToFrontPermutes(all, i);
    FirstMember(r, other, 0, key);
    MembersPermute(r, all, other, key);
    SameMembers(Members(r, all, key), Members(r, other, key));
    FirstReadSpells(r, Members(r, other, key));
    WinningSpelling(r, all, f, other);
  }

  /** A winning class whose foremost findings are spelled differently lets the order of reading choose. */
  lemma SpellingsDiffer(r: Rules, all: seq<Finding>, f: Finding)
    requires all != [] && Separated(all) && f in all && OutranksAll(r, all, r.norm(f.value))
    requires !SpelledAlike(r, Members(r, all, r.norm(f.value)))
    ensures !OrderIndependent(r, all)
  {
    hide ValueOf, Members, OutranksAll, Separated, Foremost;
    var s := Members(r, all, r.norm(f.value));
    var m, n :| Foremost(r, s, m) && Foremost(r, s, n) && m.value != n.value;
    var one := SpellingLed(r, all, f, m);
    var two := SpellingLed(r, all, f, n);
  }

  lemma TiersTotal(s: seq<Finding>, t: seq<Finding>)
    requires s != [] && t != []
    ensures TierBeats(s, t) || TierTies(s, t) || TierBeats(t, s)
  {
  }

  lemma TiesAreSymmetric(s: seq<Finding>, t: seq<Finding>)
    requires s != [] && t != []
    ensures TierTies(s, t) == TierTies(t, s)
  {
  }

  /**
   * With scores equal or apart, the merged value is the same for every order of reading exactly when one class
   * outranks every other and its foremost findings spell it alike. Ties that fall through to the collation are
   * settled by the first spelling read, so the order of reading decides them unless every spelling of the one
   * class collates strictly before every spelling of the other.
   */
  lemma OrderIndependentExactly(r: Rules, all: seq<Finding>)
    requires all != [] && Separated(all)
    ensures OrderIndependent(r, all) <==> Decisive(r, all)
  {
    hide OrderIndependent, OutranksAll, SpelledAlike, Members, Separated;
    if Decisive(r, all) {
      DecisiveSuffices(r, all);
    } else if f :| f in all && OutranksAll(r, all, r.norm(f.value)) {
      SpellingsDiffer(r, all, f);
    } else {
      NoClassOutranks(r, all);
    }
  }

  /**
   * When no two classes tie through the kind tier, one class outranks every other, and the order of reading is
   * irrelevant exactly when that class is spelled alike.
   */
  lemma NoTiesLeaveSpelling(r: Rules, all: seq<Finding>)
    requires all != [] && Separated(all)
    requires forall f, g | f in all && g in all && r.norm(f.value) != r.norm(g.value) ::
               var s, t := Members(r, all, r.norm(f.value)), Members(r, all, r.norm(g.value));
               s != [] && t != [] ==> !TierTies(s, t)
    ensures exists f | f in all ::
              OutranksAll(r, all, r.norm(f.value))
              && (OrderIndependent(r, all) <==> SpelledAlike(r, Members(r, all, r.norm(f.value))))
  {
    hide BetterGroup, ValueOf, Members, TierTies, TierBeats, OrderIndependent, Separated, SpelledAlike;
    var w, groups := WinnerOf(r, all);
    var f := w.findings[0];
    assert f in w.findings && f in all && r.norm(f.value) == r.norm(w.value);
    forall g | g in all && r.norm(g.value) != r.norm(f.value)
      ensures Outranks(r, all, r.norm(f.value), r.norm(g.value))
    {
      var c :| c in groups && r.norm(c.value) == r.norm(g.value);
      RankingIs(r, c, w, all);
      TiersTotal(c.findings, w.findings);
      TiesAreSymmetric(c.findings, w.findings);
      assert c.findings == Members(r, all, r.norm(g.value)) && w.findings == Members(r, all, r.norm(f.value));
    }
    assert OutranksAll(r, all, r.norm(f.value));
    if SpelledAlike(r, Members(r, all, r.norm(f.value))) {
      DecisiveSuffices(r, all);
    } else {
      SpellingsDiffer(r, all, f);
    }
  }
}
