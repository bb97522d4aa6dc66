/** What the merge of one token answers, said of the findings alone: which text is stored, and why its group won. */
module MergeAnswers {
  import opened Basics
  import opened DocumentMerge
  import opened MergeOrder

  /** The kinds of document in the order they are believed; a kind that is not listed comes after all of them. */
  const KIND_PRECEDENCE: seq<Kind> := [
    SignedLetter, EngagementLetter, NoticeOfAssessment, T2Return, T1Return, FilingAuthorization,
    T183, CompiledStatements, CompilationReport, TrialBalance]

  predicate BelievedBefore(a: Kind, b: Kind) {
    exists i | 0 <= i < |KIND_PRECEDENCE| :: KIND_PRECEDENCE[i] == a && b !in KIND_PRECEDENCE[..i + 1]
  }

  /** Where a listed kind stands. */
  lemma RankIsPosition(i: nat)
    requires i < |KIND_PRECEDENCE|
    ensures KindRank(KIND_PRECEDENCE[i]) == i
  {
  }

  lemma PrecedenceIsRank(a: Kind, b: Kind)
    ensures BelievedBefore(a, b) <==> KindRank(a) < KindRank(b)
  {
    if BelievedBefore(a, b) {
      var i :| 0 <= i < |KIND_PRECEDENCE| && KIND_PRECEDENCE[i] == a && b !in KIND_PRECEDENCE[..i + 1];
      RankIsPosition(i);
      RankedIsListed(b);
      ListedBy(i);
    }
    if KindRank(a) < KindRank(b) {
      var i := KindRank(a);
      RankedIsListed(a);
      forall k | 0 <= k <= i
        ensures KIND_PRECEDENCE[k] != b
      {
        RankIsPosition(k);
      }
      assert b !in KIND_PRECEDENCE[..i + 1];
    }
  }

  lemma ListedBy(i: nat)
    requires i < |KIND_PRECEDENCE|
    ensures forall k | 0 <= k <= i :: KIND_PRECEDENCE[k] in KIND_PRECEDENCE[..i + 1]
  {
    forall k | 0 <= k <= i
      ensures KIND_PRECEDENCE[k] in KIND_PRECEDENCE[..i + 1]
    {
      assert KIND_PRECEDENCE[..i + 1][k] == KIND_PRECEDENCE[k];
    }
  }

  lemma RankedIsListed(a: Kind)
    ensures KindRank(a) <= 10
    ensures KindRank(a) < 10 ==> KIND_PRECEDENCE[KindRank(a)] == a
  {
  }

  /** Of two findings that agree, why one supplies the text before the other. */
  ghost predicate NotBefore(r: Rules, g: Finding, f: Finding) {
    && g.score <= f.score
    && (g.score == f.score ==> !BelievedBefore(g.kind, f.kind))
    && (g.score == f.score && !BelievedBefore(f.kind, g.kind) ==> r.order(f.value) <= r.order(g.value))
  }

  /**
   * The text stored, with the numbers and dates that travel with it, is that of one of the findings that agree on the
   * value. None of them scores higher; of those that score the same none is of a kind believed before; and of those of
   * such a kind too none is spelled earlier.
   */
  lemma StoredTextIsBest(r: Rules, token: string, all: seq<Finding>)
    requires all != []
    ensures var m := MergeToken(r, token, all);
            && m.token == token
            && exists f | f in m.corroborating ::
                 && f.value == m.value && f.detail == m.detail
                 && forall g | g in m.corroborating :: NotBefore(r, g, f)
  {
    hide BetterFinding, KindRank, BelievedBefore, GroupsOf, SortGroups, Authoritative;
    GroupsExist(r, all);
    var corroborating := MergeToken(r, token, all).corroborating;
    var f := Authoritative(r, corroborating);
    AuthoritativeIsBest(r, corroborating);
    forall g | g in corroborating
      ensures NotBefore(r, g, f)
    {
      NotPreceded(r, g, f);
    }
  }

  lemma NotPreceded(r: Rules, g: Finding, f: Finding)
    requires !(BetterFinding(r, g, f) < 0)
    ensures NotBefore(r, g, f)
  {
    hide BelievedBefore, KindRank;
    PrecedenceIsRank(g.kind, f.kind);
    PrecedenceIsRank(f.kind, g.kind);
  }

  // ---------------------------------------------------------------- Why the group won

  /** Some finding of the one scores at least as high as every finding of the other. */
  ghost predicate ScoresAtLeast(s: seq<Finding>, t: seq<Finding>) {
    exists f | f in s :: forall g | g in t :: g.score <= f.score
  }

  /** Some finding of the one is of a kind no finding of the other is believed before. */
  ghost predicate BelievedAtLeast(s: seq<Finding>, t: seq<Finding>) {
    exists f | f in s :: forall g | g in t :: !BelievedBefore(g.kind, f.kind)
  }

  /** The first group goes before the second: by the better score, then documents, then the better kind, then spelling. */
  ghost predicate GoesBefore(r: Rules, s: seq<Finding>, t: seq<Finding>)
    requires s != [] && t != []
  {
    && ScoresAtLeast(s, t)
    && (ScoresAtLeast(t, s) ==> |s| >= |t|)
    && (ScoresAtLeast(t, s) && |s| == |t| ==> BelievedAtLeast(s, t))
    && (ScoresAtLeast(t, s) && |s| == |t| && BelievedAtLeast(t, s) ==> r.order(s[0].value) <= r.order(t[0].value))
  }

  lemma ScoresCompare(s: seq<Finding>, t: seq<Finding>)
    requires s != [] && t != []
    ensures ScoresAtLeast(s, t) <==> BestScore(s) >= BestScore(t)
  {
    BestScoreIs(s);
    BestScoreIs(t);
  }

  lemma KindsCompare(s: seq<Finding>, t: seq<Finding>)
    requires s != [] && t != []
    ensures BelievedAtLeast(s, t) <==> BestKind(s) <= BestKind(t)
  {
    hide KindRank, BelievedBefore;
    BestKindIs(s);
    BestKindIs(t);
    forall f, g | f in s && g in t
      ensures BelievedBefore(g.kind, f.kind) <==> KindRank(g.kind) < KindRank(f.kind)
    {
      PrecedenceIsRank(g.kind, f.kind);
    }
  }

  lemma GroupsCompare(r: Rules, a: Group, b: Group, all: seq<Finding>)
    requires Separated(all) && Drawn([a, b], all) && a.findings != [] && b.findings != []
    requires a.value == a.findings[0].value && b.value == b.findings[0].value
    requires !(BetterGroup(r, b, a) < 0)
    ensures GoesBefore(r, a.findings, b.findings)
  {
    hide BetterGroup, ScoresAtLeast, BelievedAtLeast, BestScore, BestKind;
    assert a in [a, b] && b in [a, b];
    RankingIs(r, b, a, all);
    ScoresCompare(a.findings, b.findings);
    ScoresCompare(b.findings, a.findings);
    KindsCompare(a.findings, b.findings);
    KindsCompare(b.findings, a.findings);
  }

  /** No group of the list precedes one that stands before it. */
  ghost predicate Ranked(r: Rules, sorted: seq<Group>)
    requires NonEmpty(sorted)
  {
    forall i, j | 0 <= i < j < |sorted| :: !(BetterGroup(r, sorted[j], sorted[i]) < 0)
  }

  lemma RankedTail(r: Rules, sorted: seq<Group>)
    requires NonEmpty(sorted) && Ranked(r, sorted) && sorted != []
    ensures NonEmpty(sorted[1..]) && Ranked(r, sorted[1..])
  {
    hide BetterGroup;
  }

  /** What precedes the first of a ranked list precedes them all, or ties with them. */
  lemma FirstLeads(r: Rules, g: Group, sorted: seq<Group>, all: seq<Finding>)
    requires NonEmpty(sorted) && sorted != [] && g.findings != [] && Ranked(r, sorted)
    requires Separated(all) && Drawn(sorted, all) && Drawn([g], all) && BetterGroup(r, g, sorted[0]) < 0
    ensures forall h | h in sorted :: !(BetterGroup(r, h, g) < 0)
  {
    hide BetterGroup, Separated, Drawn;
    NotBeforeItself(r, sorted[0]);
    forall h | h in sorted
      ensures !(BetterGroup(r, h, g) < 0)
    {
      if BetterGroup(r, h, g) < 0 {
        DrawnTogether(sorted, g, h, all);
        RankingTransitive(r, h, g, sorted[0], all);
      }
    }
  }

  lemma DrawnTogether(sorted: seq<Group>, g: Group, h: Group, all: seq<Finding>)
    requires Drawn(sorted, all) && Drawn([g], all) && sorted != [] && h in sorted
    ensures Drawn([h, g, sorted[0]], all)
  {
    assert g in [g] && sorted[0] in sorted;
  }

  lemma InsertHas(r: Rules, g: Group, sorted: seq<Group>)
    requires g.findings != [] && NonEmpty(sorted)
    ensures NonEmpty(InsertGroup(r, g, sorted))
    ensures forall h :: h in InsertGroup(r, g, sorted) <==> h in sorted || h == g
  {
    hide InsertGroup;
    InsertKeepsGroups(r, g, sorted);
    var after := InsertGroup(r, g, sorted);
    forall h
      ensures h in after <==> h in sorted || h == g
    {
      assert h in after <==> h in multiset(after);
      assert h in sorted <==> h in multiset(sorted);
    }
  }

  lemma {:induction false} InsertRanks(r: Rules, g: Group, sorted: seq<Group>, all: seq<Finding>)
    requires g.findings != [] && NonEmpty(sorted) && Ranked(r, sorted)
    requires Separated(all) && Drawn(sorted, all) && Drawn([g], all)
    ensures NonEmpty(InsertGroup(r, g, sorted)) && Ranked(r, InsertGroup(r, g, sorted))
  {
    hide BetterGroup, Separated, Drawn;
    InsertHas(r, g, sorted);
    if sorted != [] {
      if BetterGroup(r, g, sorted[0]) < 0 {
        FirstLeads(r, g, sorted, all);
        Prepended(r, g, sorted);
      } else {
        RankedTail(r, sorted);
        DrawnTail(sorted, all);
        InsertRanks(r, g, sorted[1..], all);
        InsertHas(r, g, sorted[1..]);
        forall h | h in InsertGroup(r, g, sorted[1..])
          ensures !(BetterGroup(r, h, sorted[0]) < 0)
        {
          if h != g {
            var k :| 0 <= k < |sorted[1..]| && sorted[1..][k] == h;
            assert sorted[k + 1] == h;
          }
        }
        Prepended(r, sorted[0], InsertGroup(r, g, sorted[1..]));
      }
    }
  }

  lemma DrawnTail(sorted: seq<Group>, all: seq<Finding>)
    requires Drawn(sorted, all) && sorted != []
    ensures Drawn(sorted[1..], all)
  {
    assert forall h | h in sorted[1..] :: h in sorted;
  }

  lemma Prepended(r: Rules, g: Group, sorted: seq<Group>)
    requires g.findings != [] && NonEmpty(sorted) && Ranked(r, sorted)
    requires forall h | h in sorted :: !(BetterGroup(r, h, g) < 0)
    ensures NonEmpty([g] + sorted) && Ranked(r, [g] + sorted)
  {
    hide BetterGroup;
    var more := [g] + sorted;
    forall i, j | 0 <= i < j < |more|
      ensures !(BetterGroup(r, more[j], more[i]) < 0)
    {
      assert more[j] == sorted[j - 1] && sorted[j - 1] in sorted;
      if i > 0 {
        assert more[i] == sorted[i - 1];
      }
    }
  }

  lemma {:induction false} SortRanks(r: Rules, groups: seq<Group>, all: seq<Finding>)
    requires NonEmpty(groups) && Separated(all) && Drawn(groups, all)
    ensures Ranked(r, SortGroups(r, groups))
  {
    hide BetterGroup, InsertGroup, Separated;
    if groups != [] {
      var n := |groups| - 1;
      assert groups == groups[..n] + [groups[n]];
      DrawnSplits(groups[..n], groups[n], all);
      SortRanks(r, groups[..n], all);
      SortOfMore(r, groups[..n], groups[n]);
      var sorted := SortGroups(r, groups[..n]);
      forall h | h in sorted
        ensures h in groups[..n]
      {
        assert h in multiset(sorted);
      }
      InsertRanks(r, groups[n], sorted, all);
    }
  }

  /** The groups of an answer, the winner first. */
  function Answers(m: Merged): seq<seq<Finding>> {
    [m.corroborating] + seq(|m.disagreement|, i requires 0 <= i < |m.disagreement| => m.disagreement[i].findings)
  }

  /**
   * With scores equal or apart, the winning group goes before every group that lost, and those are listed in the
   * order in which they would have won.
   */
  lemma AnswersAreRanked(r: Rules, token: string, all: seq<Finding>)
    requires all != [] && Separated(all)
    ensures var a := Answers(MergeToken(r, token, all));
            && (forall i | 0 <= i < |a| :: a[i] != [])
            && forall i, j | 0 <= i < j < |a| :: GoesBefore(r, a[i], a[j])
  {
    hide BetterGroup, GoesBefore, GroupsOf, SortGroups, Separated, Authoritative;
    var groups := GroupsOf(r, all);
    GroupsAreClasses(r, all);
    GroupsExist(r, all);
    DrawnFromAll(r, groups, all);
    SortRanks(r, groups, all);
    var sorted := SortGroups(r, groups);
    forall g | g in sorted
      ensures g in groups
    {
      assert g in multiset(sorted);
    }
    var a := Answers(MergeToken(r, token, all));
    assert |a| == |sorted| && forall i | 0 <= i < |a| :: a[i] == sorted[i].findings && sorted[i] in sorted;
    forall i, j | 0 <= i < j < |a|
      ensures a[i] != [] && a[j] != [] && GoesBefore(r, a[i], a[j])
    {
      DrawnTwo(groups, sorted[i], sorted[j], all);
      GroupsCompare(r, sorted[i], sorted[j], all);
    }
  }

  lemma DrawnTwo(groups: seq<Group>, a: Group, b: Group, all: seq<Finding>)
    requires Drawn(groups, all) && a in groups && b in groups
    ensures Drawn([a, b], all)
  {
  }

  lemma DrawnFromAll(r: Rules, groups: seq<Group>, all: seq<Finding>)
    requires AreClasses(r, groups, all)
    ensures Drawn(groups, all)
  {
    hide Members;
    forall g | g in groups
      ensures forall f | f in g.findings :: f in all
    {
      MembersHas(r, all, r.norm(g.value));
    }
  }

  /** Every finding about a token that is more than blanks counts, as often as it was read, and no other does. */
  lemma FindingsCount(findings: seq<Finding>, token: string, f: Finding)
    ensures multiset(Bucket(findings, token))[f]
            == if f.token == token && Trim(f.value) != "" then multiset(findings)[f] else 0
  {
    hide Trim, Blank;
    TrimEmptyExactly(f.value);
    FilterCounts(findings, (g: Finding) => Counts(g, token), f);
  }
}
