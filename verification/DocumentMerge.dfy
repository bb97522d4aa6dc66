/**
 * One value per token from however many documents said something about it: group findings that agree,
 * rank the groups, take the spelling of the best document in the best group.
 *
 * Agreement compares normalised text, so it is modelled by the normalisation `norm`. The platform's
 * collation is a total preorder of strings, so it is modelled by a position `order` on the real line.
 */
module DocumentMerge {
  import opened Basics

  datatype Kind =
    | SignedLetter | EngagementLetter | NoticeOfAssessment | T2Return | T1Return | FilingAuthorization
    | T183 | CompiledStatements | CompilationReport | TrialBalance | OtherKind(name: string)

  function KindRank(kind: Kind): nat {
    match kind
    case SignedLetter => 0
    case EngagementLetter => 1
    case NoticeOfAssessment => 2
    case T2Return => 3
    case T1Return => 4
    case FilingAuthorization => 5
    case T183 => 6
    case CompiledStatements => 7
    case CompilationReport => 8
    case TrialBalance => 9
    case OtherKind(_) => 10
  }

  /** What a document said; the numeric, date and citation fields travel with it as `detail`. */
  datatype Finding = Finding(token: string, value: string, detail: string, kind: Kind, score: real)

  datatype Group = Group(value: string, findings: seq<Finding>)

  datatype Merged = Merged(
    token: string,
    value: string,
    detail: string,
    corroborating: seq<Finding>,
    disagreement: seq<Group>)

  const TOLERANCE := 0.000000001

  datatype Rules = Rules(norm: string -> string, order: string -> real)

  predicate Counts(f: Finding, token: string) {
    f.token == token && !Blank(f.value)
  }

  /** The findings a token is decided on, in the order they were read. */
  function Bucket(findings: seq<Finding>, token: string): seq<Finding> {
    Filter(findings, (f: Finding) => Counts(f, token))
  }

  /** Those of them that agree with a normalised text. */
  function Members(r: Rules, all: seq<Finding>, key: string): seq<Finding> {
    Filter(all, (f: Finding) => r.norm(f.value) == key)
  }

  // ---------------------------------------------------------------- Ranking groups

  function BestScore(fs: seq<Finding>): real
    requires fs != []
  {
    if |fs| == 1 then fs[0].score
    else
      var rest := BestScore(fs[1..]);
      if fs[0].score > rest then fs[0].score else rest
  }

  function BestKind(fs: seq<Finding>): nat
    requires fs != []
  {
    if |fs| == 1 then KindRank(fs[0].kind)
    else
      var rest := BestKind(fs[1..]);
      if KindRank(fs[0].kind) < rest then KindRank(fs[0].kind) else rest
  }

  function Sign(x: real): int {
    if x > 0.0 then 1 else if x < 0.0 then -1 else 0
  }

  /** `betterGroup`, as the sign of its result: negative when a comes first. */
  function BetterGroup(r: Rules, a: Group, b: Group): int
    requires a.findings != [] && b.findings != []
  {
    var byScore := BestScore(b.findings) - BestScore(a.findings);
    if byScore > TOLERANCE || byScore < -TOLERANCE then Sign(byScore)
    else if |b.findings| != |a.findings| then |b.findings| - |a.findings|
    else if BestKind(a.findings) != BestKind(b.findings) then BestKind(a.findings) - BestKind(b.findings)
    else Sign(r.order(a.value) - r.order(b.value))
  }

  /** Within a group: the higher score, then the more trusted kind, then the earlier spelling. */
  function BetterFinding(r: Rules, a: Finding, b: Finding): int {
    if a.score != b.score then Sign(b.score - a.score)
    else if KindRank(a.kind) != KindRank(b.kind) then KindRank(a.kind) - KindRank(b.kind)
    else Sign(r.order(a.value) - r.order(b.value))
  }

  predicate NonEmpty(groups: seq<Group>) {
    forall g | g in groups :: g.findings != []
  }

  // ---------------------------------------------------------------- Specification

  /** Adds a finding to the first group it agrees with, or starts a new one. */
  function AddTo(r: Rules, groups: seq<Group>, f: Finding): seq<Group> {
    if groups == [] then [Group(f.value, [f])]
    else if r.norm(groups[0].value) == r.norm(f.value) then
      [groups[0].(findings := groups[0].findings + [f])] + groups[1..]
    else [groups[0]] + AddTo(r, groups[1..], f)
  }

  function GroupsOf(r: Rules, all: seq<Finding>): seq<Group> {
    if all == [] then [] else AddTo(r, GroupsOf(r, all[..|all| - 1]), all[|all| - 1])
  }

  /** Stable insertion: behind everything it does not strictly precede. */
  function InsertGroup(r: Rules, g: Group, sorted: seq<Group>): seq<Group>
    requires g.findings != [] && NonEmpty(sorted)
  {
    if sorted == [] then [g]
    else if BetterGroup(r, g, sorted[0]) < 0 then [g] + sorted
    else
      assert NonEmpty(sorted[1..]);
      [sorted[0]] + InsertGroup(r, g, sorted[1..])
  }

  lemma {:induction false} InsertKeepsGroups(r: Rules, g: Group, sorted: seq<Group>)
    requires g.findings != [] && NonEmpty(sorted)
    ensures multiset(InsertGroup(r, g, sorted)) == multiset(sorted) + multiset{g}
    ensures NonEmpty(InsertGroup(r, g, sorted))
  {
    if sorted != [] {
      assert sorted == [sorted[0]] + sorted[1..];
      if BetterGroup(r, g, sorted[0]) >= 0 {
        InsertKeepsGroups(r, g, sorted[1..]);
      }
    }
    forall h | h in InsertGroup(r, g, sorted)
      ensures h.findings != []
    {
      assert h in multiset(InsertGroup(r, g, sorted));
    }
  }

  /** The groups in the order of a stable sort. */
  function SortGroups(r: Rules, groups: seq<Group>): (sorted: seq<Group>)
    requires NonEmpty(groups)
    ensures multiset(sorted) == multiset(groups) && NonEmpty(sorted)
  {
    if groups == [] then []
    else
      var last := |groups| - 1;
      assert groups == groups[..last] + [groups[last]];
      InsertKeepsGroups(r, groups[last], SortGroups(r, groups[..last]));
      InsertGroup(r, groups[last], SortGroups(r, groups[..last]))
  }

  /** The first finding of a stable sort: the earliest that nothing strictly precedes. */
  function Authoritative(r: Rules, fs: seq<Finding>): (f: Finding)
    requires fs != []
    ensures f in fs
  {
    if |fs| == 1 then fs[0]
    else
      var best := Authoritative(r, fs[..|fs| - 1]);
      if BetterFinding(r, fs[|fs| - 1], best) < 0 then fs[|fs| - 1] else best
  }

  // ---------------------------------------------------------------- Filtering and order

  lemma FilterPermutes<T(!new)>(s: seq<T>, t: seq<T>, p: T -> bool)
    requires multiset(s) == multiset(t)
    ensures multiset(Filter(s, p)) == multiset(Filter(t, p))
  {
    forall x: T
      ensures multiset(Filter(s, p))[x] == multiset(Filter(t, p))[x]
    {
      FilterCounts(s, p, x);
      FilterCounts(t, p, x);
    }
    var a, b := multiset(Filter(s, p)), multiset(Filter(t, p));
    assert forall x: T :: a[x] == b[x];
    assert a == b;
  }

  lemma {:induction false} FilterAll<T>(s: seq<T>, p: T -> bool)
    requires forall x | x in s :: p(x)
    ensures Filter(s, p) == s
  {
    if s != [] {
      assert s[0] in s;
      FilterAll(s[1..], p);
    }
  }

  lemma {:induction false} BestScoreIs(fs: seq<Finding>)
    requires fs != []
    ensures forall f | f in fs :: f.score <= BestScore(fs)
    ensures exists f | f in fs :: f.score == BestScore(fs)
  {
    if |fs| == 1 {
      assert fs[0] in fs;
    } else {
      BestScoreIs(fs[1..]);
      assert fs[0] in fs && forall f :: f in fs <==> f == fs[0] || f in fs[1..];
    }
  }

  lemma {:induction false} BestKindIs(fs: seq<Finding>)
    requires fs != []
    ensures forall f | f in fs :: KindRank(f.kind) >= BestKind(fs)
    ensures exists f | f in fs :: KindRank(f.kind) == BestKind(fs)
  {
    if |fs| == 1 {
      assert fs[0] in fs;
    } else {
      BestKindIs(fs[1..]);
      assert fs[0] in fs && forall f :: f in fs <==> f == fs[0] || f in fs[1..];
    }
  }

  /** The tiers of a group depend on which findings it holds, not on their order. */
  lemma TiersPermute(s: seq<Finding>, t: seq<Finding>)
    requires s != [] && multiset(s) == multiset(t)
    ensures t != [] && |s| == |t| && BestScore(s) == BestScore(t) && BestKind(s) == BestKind(t)
  {
    SameMembers(s, t);
    assert s[0] in t;
    BestScoreIs(s);
    BestScoreIs(t);
    BestKindIs(s);
    BestKindIs(t);
  }

  // ---------------------------------------------------------------- The groups are the classes

  /** Groups are exactly the agreement classes: one for each normalised text, holding all that agree with it. */
  ghost predicate AreClasses(r: Rules, groups: seq<Group>, all: seq<Finding>) {
    && (forall g | g in groups ::
         g.findings != [] && g.findings == Members(r, all, r.norm(g.value)) && g.value == g.findings[0].value)
    && (forall i, j | 0 <= i < j < |groups| :: r.norm(groups[i].value) != r.norm(groups[j].value))
    && (forall f | f in all :: exists g | g in groups :: r.norm(g.value) == r.norm(f.value))
  }

  /** What adding one finding does to a list of groups with distinct keys. */
  lemma {:induction false} AddToIs(r: Rules, groups: seq<Group>, f: Finding)
    requires forall i, j | 0 <= i < j < |groups| :: r.norm(groups[i].value) != r.norm(groups[j].value)
    ensures var after := AddTo(r, groups, f);
            if exists g | g in groups :: r.norm(g.value) == r.norm(f.value) then
              && |after| == |groups|
              && forall i | 0 <= i < |groups| ::
                   after[i] == if r.norm(groups[i].value) == r.norm(f.value)
                               then groups[i].(findings := groups[i].findings + [f]) else groups[i]
            else after == groups + [Group(f.value, [f])]
  {
    if groups != [] {
      assert forall g :: g in groups <==> g == groups[0] || g in groups[1..];
      AddToIs(r, groups[1..], f);
      if r.norm(groups[0].value) == r.norm(f.value) {
        forall i | 1 <= i < |groups|
          ensures r.norm(groups[i].value) != r.norm(f.value)
        {
        }
      }
    }
  }

  lemma MembersExtend(r: Rules, all: seq<Finding>, f: Finding, key: string)
    ensures Members(r, all + [f], key) == Members(r, all, key) + (if r.norm(f.value) == key then [f] else [])
  {
    var p := (g: Finding) => r.norm(g.value) == key;
    FilterAppend(all, [f], p);
    assert Filter([f][1..], p) == [];
  }

  lemma {:induction false} GroupsAreClasses(r: Rules, all: seq<Finding>)
    ensures AreClasses(r, GroupsOf(r, all), all)
  {
    if all != [] {
      var rest, f := all[..|all| - 1], all[|all| - 1];
      assert all == rest + [f];
      GroupsAreClasses(r, rest);
      AddingKeepsClasses(r, GroupsOf(r, rest), rest, f);
    }
  }

  lemma AddingKeepsClasses(r: Rules, groups: seq<Group>, all: seq<Finding>, f: Finding)
    requires AreClasses(r, groups, all)
    ensures AreClasses(r, AddTo(r, groups, f), all + [f])
  {
    AddToIs(r, groups, f);
    if exists g | g in groups :: r.norm(g.value) == r.norm(f.value) {
      JoiningKeepsClasses(r, groups, AddTo(r, groups, f), all, f);
    } else {
      StartingKeepsClasses(r, groups, all, f);
    }
  }

  lemma JoiningKeepsClasses(r: Rules, groups: seq<Group>, after: seq<Group>, all: seq<Finding>, f: Finding)
    requires AreClasses(r, groups, all)
    requires exists g | g in groups :: r.norm(g.value) == r.norm(f.value)
    requires |after| == |groups|
    requires forall i | 0 <= i < |groups| ::
               after[i] == if r.norm(groups[i].value) == r.norm(f.value)
                           then groups[i].(findings := groups[i].findings + [f]) else groups[i]
    ensures AreClasses(r, after, all + [f])
  {
    hide Members;
    forall g | g in after
      ensures g.findings != [] && g.findings == Members(r, all + [f], r.norm(g.value)) && g.value == g.findings[0].value
    {
      var i :| 0 <= i < |after| && after[i] == g;
      assert groups[i] in groups;
      MembersExtend(r, all, f, r.norm(g.value));
    }
    forall h | h in all + [f]
      ensures exists g | g in after :: r.norm(g.value) == r.norm(h.value)
    {
      var g :| g in groups && r.norm(g.value) == r.norm(h.value);
      var i :| 0 <= i < |groups| && groups[i] == g;
      assert after[i] in after && after[i].value == g.value;
    }
  }

  lemma StartingKeepsClasses(r: Rules, groups: seq<Group>, all: seq<Finding>, f: Finding)
    requires AreClasses(r, groups, all)
    requires !exists g | g in groups :: r.norm(g.value) == r.norm(f.value)
    ensures AreClasses(r, groups + [Group(f.value, [f])], all + [f])
  {
    NoMembersYet(r, groups, all, f);
    hide Members;
    var single := Group(f.value, [f]);
    var after := groups + [single];
    forall g | g in after
      ensures g.findings != [] && g.findings == Members(r, all + [f], r.norm(g.value)) && g.value == g.findings[0].value
    {
      MembersExtend(r, all, f, r.norm(g.value));
      if g !in groups {
        assert g == single;
      }
    }
    forall h | h in all + [f]
      ensures exists g | g in after :: r.norm(g.value) == r.norm(h.value)
    {
      if h in all {
        var g :| g in groups && r.norm(g.value) == r.norm(h.value);
        assert g in after;
      } else {
        assert single in after;
      }
    }
  }

  lemma NoMembersYet(r: Rules, groups: seq<Group>, all: seq<Finding>, f: Finding)
    requires AreClasses(r, groups, all)
    requires !exists g | g in groups :: r.norm(g.value) == r.norm(f.value)
    ensures Members(r, all, r.norm(f.value)) == []
  {
    var ms := Members(r, all, r.norm(f.value));
    MembersHas(r, all, r.norm(f.value));
    if ms != [] {
      FirstIsIn(ms);
    }
  }

  lemma MembersHas(r: Rules, all: seq<Finding>, key: string)
    ensures forall f :: f in Members(r, all, key) <==> f in all && r.norm(f.value) == key
  {
    FilterHas(all, (g: Finding) => r.norm(g.value) == key);
  }
}
