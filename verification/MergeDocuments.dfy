/** The whole merge: bucket by token, group each bucket as it is read, sort, choose. */
module MergeDocuments {
  import opened Basics
  import opened DocumentMerge
  import opened MergeOrder

  // ---------------------------------------------------------------- Code

  /** Where the first group agreeing with a finding is, or the end of the list. */
  method FindGroup(r: Rules, groups: seq<Group>, f: Finding) returns (i: nat)
    ensures i <= |groups|
    ensures forall k | 0 <= k < i :: r.norm(groups[k].value) != r.norm(f.value)
    ensures i < |groups| ==> r.norm(groups[i].value) == r.norm(f.value)
  {
    i := 0;
    while i < |groups| && r.norm(groups[i].value) != r.norm(f.value)
      invariant i <= |groups|
      invariant forall k | 0 <= k < i :: r.norm(groups[k].value) != r.norm(f.value)
    {
      i := i + 1;
    }
  }

  lemma {:induction false} AddToAt(r: Rules, groups: seq<Group>, f: Finding, i: nat)
    requires i <= |groups|
    requires forall k | 0 <= k < i :: r.norm(groups[k].value) != r.norm(f.value)
    requires i < |groups| ==> r.norm(groups[i].value) == r.norm(f.value)
    ensures AddTo(r, groups, f)
         == if i < |groups| then groups[i := groups[i].(findings := groups[i].findings + [f])]
            else groups + [Group(f.value, [f])]
  {
    if i > 0 {
      AddToAt(r, groups[1..], f, i - 1);
    }
  }

  /** Groups a bucket as its findings are read. */
  method GroupFindings(r: Rules, all: seq<Finding>) returns (groups: seq<Group>)
    ensures groups == GroupsOf(r, all)
  {
    groups := [];
    var k := 0;
    assert all[..0] == [];
    while k < |all|
      invariant 0 <= k <= |all|
      invariant groups == GroupsOf(r, all[..k])
    {
      var f := all[k];
      var i := FindGroup(r, groups, f);
      AddToAt(r, groups, f, i);
      if i < |groups| {
        groups := groups[i := groups[i].(findings := groups[i].findings + [f])];
      } else {
        groups := groups + [Group(f.value, [f])];
      }
      assert all[..k + 1][..k] == all[..k];
      k := k + 1;
    }
    assert all[..k] == all;
  }

  predicate Ascending(r: Rules, tokens: seq<string>) {
    forall i, j | 0 <= i < j < |tokens| :: r.order(tokens[i]) <= r.order(tokens[j])
  }

  /** Puts a token behind everything that does not come after it. */
  method InsertToken(r: Rules, tokens: seq<string>, token: string) returns (after: seq<string>)
    requires Ascending(r, tokens) && Distinct(tokens) && token !in tokens
    ensures Ascending(r, after) && Distinct(after)
    ensures forall t :: t in after <==> t in tokens || t == token
  {
    var i := |tokens|;
    while i > 0 && r.order(token) < r.order(tokens[i - 1])
      invariant 0 <= i <= |tokens|
      invariant forall k | i <= k < |tokens| :: r.order(token) < r.order(tokens[k])
    {
      i := i - 1;
    }
    after := tokens[..i] + [token] + tokens[i..];
    InsertedInPlace(r, tokens, token, i);
  }

  lemma InsertedInPlace(r: Rules, tokens: seq<string>, token: string, i: nat)
    requires i <= |tokens| && Ascending(r, tokens) && Distinct(tokens) && token !in tokens
    requires i > 0 ==> r.order(tokens[i - 1]) <= r.order(token)
    requires forall k | i <= k < |tokens| :: r.order(token) < r.order(tokens[k])
    ensures var after := tokens[..i] + [token] + tokens[i..];
            && Ascending(r, after) && Distinct(after)
            && forall t :: t in after <==> t in tokens || t == token
  {
    var after := tokens[..i] + [token] + tokens[i..];
    forall a, b | 0 <= a < b < |after|
      ensures r.order(after[a]) <= r.order(after[b])
    {
      PairInOrder(r, tokens, token, i, a, b);
    }
    forall a, b | 0 <= a < b < |after|
      ensures after[a] != after[b]
    {
      PairInOrder(r, tokens, token, i, a, b);
    }
    InsertedHas(tokens, token, i);
  }

  lemma PairInOrder(r: Rules, tokens: seq<string>, token: string, i: nat, a: nat, b: nat)
    requires i <= |tokens| && Ascending(r, tokens) && Distinct(tokens) && token !in tokens
    requires i > 0 ==> r.order(tokens[i - 1]) <= r.order(token)
    requires forall k | i <= k < |tokens| :: r.order(token) < r.order(tokens[k])
    requires a < b <= |tokens|
    ensures var after := tokens[..i] + [token] + tokens[i..];
            r.order(after[a]) <= r.order(after[b]) && after[a] != after[b]
  {
    if a < i == b {
      assert a < i - 1 ==> r.order(tokens[a]) <= r.order(tokens[i - 1]);
      assert tokens[a] in tokens;
    } else if a == i {
      assert tokens[b - 1] in tokens;
    }
  }

  lemma InsertedHas(tokens: seq<string>, token: string, i: nat)
    requires i <= |tokens|
    ensures forall t :: t in tokens[..i] + [token] + tokens[i..] <==> t in tokens || t == token
  {
    assert tokens == tokens[..i] + tokens[i..];
  }

  lemma BucketExtends(all: seq<Finding>, f: Finding, token: string)
    ensures Bucket(all + [f], token) == Bucket(all, token) + (if Counts(f, token) then [f] else [])
  {
    var p := (g: Finding) => Counts(g, token);
    FilterAppend(all, [f], p);
    assert Filter([f][1..], p) == [];
  }

  /** The first loop: a bucket for every token with something to say, and the tokens in collation order. */
  method FillBuckets(r: Rules, findings: seq<Finding>) returns (tokens: seq<string>, byToken: map<string, seq<Finding>>)
    ensures Distinct(tokens) && Ascending(r, tokens)
    ensures forall t :: t in tokens <==> t in byToken
    ensures forall t :: t in byToken <==> Bucket(findings, t) != []
    ensures forall t | t in byToken :: byToken[t] == Bucket(findings, t)
  {
    hide Bucket, Ascending, Distinct;
    byToken, tokens := map[], [];
    NoTokens(r);
    var k := 0;
    assert findings[..0] == [];
    EmptyBuckets();
    while k < |findings|
      invariant 0 <= k <= |findings|
      invariant forall t :: t in byToken <==> Bucket(findings[..k], t) != []
      invariant forall t | t in byToken :: byToken[t] == Bucket(findings[..k], t)
      invariant forall t :: t in tokens <==> t in byToken
      invariant Distinct(tokens) && Ascending(r, tokens)
    {
      var f := findings[k];
      assert findings[..k + 1] == findings[..k] + [f];
      forall t
        ensures Bucket(findings[..k + 1], t) == Bucket(findings[..k], t) + (if Counts(f, t) then [f] else [])
      {
        BucketExtends(findings[..k], f, t);
      }
      if !Blank(f.value) {
        if f.token !in byToken {
          tokens := InsertToken(r, tokens, f.token);
          byToken := byToken[f.token := [f]];
        } else {
          byToken := byToken[f.token := byToken[f.token] + [f]];
        }
      }
      k := k + 1;
    }
    assert findings[..k] == findings;
  }

  lemma NoTokens(r: Rules)
    ensures Distinct<string>([]) && Ascending(r, [])
  {
  }

  /**
   * `mergeDocumentFindings`: every token that some finding fills appears once, in collation order, with
   * the merge of exactly its non-blank findings in the order they were read.
   */
  method MergeDocumentFindings(r: Rules, findings: seq<Finding>) returns (merged: seq<Merged>)
    ensures forall i, j | 0 <= i < j < |merged| :: merged[i].token != merged[j].token
    ensures forall i, j | 0 <= i < j < |merged| :: r.order(merged[i].token) <= r.order(merged[j].token)
    ensures forall token :: (exists i | 0 <= i < |merged| :: merged[i].token == token) <==> Bucket(findings, token) != []
    ensures forall i | 0 <= i < |merged| ::
              var all := Bucket(findings, merged[i].token);
              all != [] && merged[i] == MergeToken(r, merged[i].token, all)
  {
    hide MergeToken, Bucket;
    var tokens, byToken := FillBuckets(r, findings);
    merged := [];
    var i := 0;
    while i < |tokens|
      invariant 0 <= i == |merged| <= |tokens|
      invariant forall j | 0 <= j < i ::
                  var all := Bucket(findings, tokens[j]);
                  all != [] && merged[j] == MergeToken(r, tokens[j], all) && merged[j].token == tokens[j]
    {
      assert tokens[i] in tokens;
      var one := MergeOne(r, tokens[i], byToken[tokens[i]]);
      merged := merged + [one];
      i := i + 1;
    }
    forall token
      ensures (exists i | 0 <= i < |merged| :: merged[i].token == token) <==> Bucket(findings, token) != []
    {
      if token in tokens {
        var j :| 0 <= j < |tokens| && tokens[j] == token;
        assert merged[j].token == token;
      }
    }
  }

  lemma EmptyBuckets()
    ensures forall t :: Bucket([], t) == []
  {
  }

  method MergeOne(r: Rules, token: string, all: seq<Finding>) returns (m: Merged)
    requires all != []
    ensures m == MergeToken(r, token, all) && m.token == token
  {
    hide GroupsOf;
    var groups := GroupFindings(r, all);
    GroupsAreClasses(r, all);
    GroupsExist(r, all);
    var sorted := SortGroups(r, groups);
    var best := Authoritative(r, sorted[0].findings);
    m := Merged(token, best.value, best.detail, sorted[0].findings, sorted[1..]);
  }

  // ---------------------------------------------------------------- Order of reading, over the whole scan

  ghost predicate SameForEveryOrder(r: Rules, findings: seq<Finding>, token: string)
    requires Bucket(findings, token) != []
  {
    forall other: seq<Finding> | multiset(other) == multiset(findings) ::
      Bucket(other, token) != [] && ValueOf(r, Bucket(other, token)) == ValueOf(r, Bucket(findings, token))
  }

  /** The same scan with one token's findings first, in a chosen order. */
  lemma BucketFirst(findings: seq<Finding>, token: string, chosen: seq<Finding>) returns (other: seq<Finding>)
    requires multiset(chosen) == multiset(Bucket(findings, token))
    ensures multiset(other) == multiset(findings) && Bucket(other, token) == chosen
  {
    var p, q := (f: Finding) => Counts(f, token), (f: Finding) => !Counts(f, token);
    var rest := Filter(findings, q);
    other := chosen + rest;
    forall x: Finding
      ensures multiset(other)[x] == multiset(findings)[x]
    {
      FilterCounts(findings, p, x);
      FilterCounts(findings, q, x);
    }
    SameMembers(chosen, Filter(findings, p));
    FilterHas(findings, p);
    FilterHas(findings, q);
    FilterAppend(chosen, rest, p);
    FilterAll(chosen, p);
    FilterNone(rest, p);
  }

  lemma {:induction false} FilterNone<T>(s: seq<T>, p: T -> bool)
    requires forall x | x in s :: !p(x)
    ensures Filter(s, p) == []
  {
    if s != [] {
      assert s[0] in s;
      FilterNone(s[1..], p);
    }
  }

  /**
   * Over a whole scan: a token's merged value is the same whichever order the documents are read in,
   * exactly when one agreement class of its findings outranks every other and is spelled alike.
   */
  lemma ScanOrderIndependentExactly(r: Rules, findings: seq<Finding>, token: string)
    requires Bucket(findings, token) != []
    requires Separated(Bucket(findings, token))
    ensures SameForEveryOrder(r, findings, token) <==> Decisive(r, Bucket(findings, token))
  {
    hide ValueOf, Decisive, Separated, Bucket;
    var all := Bucket(findings, token);
    OrderIndependentExactly(r, all);
    if OrderIndependent(r, all) {
      forall other: seq<Finding> | multiset(other) == multiset(findings)
        ensures Bucket(other, token) != [] && ValueOf(r, Bucket(other, token)) == ValueOf(r, all)
      {
        BucketPermutes(findings, other, token);
      }
    } else {
      var chosen: seq<Finding> :| chosen != [] && multiset(chosen) == multiset(all) && ValueOf(r, chosen) != ValueOf(r, all);
      var other := BucketFirst(findings, token, chosen);
    }
  }

  lemma BucketPermutes(findings: seq<Finding>, other: seq<Finding>, token: string)
    requires multiset(other) == multiset(findings) && Bucket(findings, token) != []
    ensures multiset(Bucket(other, token)) == multiset(Bucket(findings, token)) && Bucket(other, token) != []
  {
    FilterPermutes(other, findings, (f: Finding) => Counts(f, token));
    SameMembers(Bucket(other, token), Bucket(findings, token));
  }

  /**
   * The documented promise that the last tier makes the answer independent of reading order does not
   * hold. Whenever two equally good documents spell one value either side of how two others spell a
   * rival value (",b" and "b" around "a" and "a.", say), the order of reading decides which value wins.
   */
  lemma CollationTierDependsOnOrder(r: Rules, f1: Finding, f2: Finding, g1: Finding, g2: Finding)
    requires r.norm(f1.value) == r.norm(f2.value) != r.norm(g1.value) == r.norm(g2.value)
    requires r.order(f1.value) < r.order(g1.value) < r.order(g2.value) < r.order(f2.value)
    requires f1.score == f2.score == g1.score == g2.score && f1.kind == f2.kind == g1.kind == g2.kind
    ensures Separated([f1, f2, g1, g2]) && !OrderIndependent(r, [f1, f2, g1, g2])
  {
    hide Members, OrderIndependent, TierTies, TierBeats, OutranksAll, Outranks, SpelledAlike;
    var all := [f1, f2, g1, g2];
    var b, a := r.norm(f1.value), r.norm(g1.value);
    MembersOfFour(r, f1, f2, g1, g2, b);
    MembersOfFour(r, f1, f2, g1, g2, a);
    EvenPairs(f1, f2, g1, g2);
    DoesNotOutrank(r, all, b, a, [f1, f2], [g1, g2], 1, 0);
    DoesNotOutrank(r, all, a, b, [g1, g2], [f1, f2], 0, 0);
    assert all[0] == f1 && all[2] == g1;
    NeitherOutranks(r, all, f1, g1);
    NoClassOutranks(r, all);
  }

  lemma DoesNotOutrank(r: Rules, all: seq<Finding>, key: string, other: string, s: seq<Finding>, t: seq<Finding>,
                       i: nat, j: nat)
    requires Members(r, all, key) == s && Members(r, all, other) == t && i < |s| && j < |t|
    requires !TierBeats(s, t) && r.order(t[j].value) < r.order(s[i].value)
    ensures !Outranks(r, all, key, other)
  {
    hide Members, TierBeats, TierTies;
    assert s[i] in s && t[j] in t;
  }

  lemma NeitherOutranks(r: Rules, all: seq<Finding>, f: Finding, g: Finding)
    requires f in all && g in all && r.norm(f.value) != r.norm(g.value)
    requires forall h | h in all :: r.norm(h.value) == r.norm(f.value) || r.norm(h.value) == r.norm(g.value)
    requires !Outranks(r, all, r.norm(f.value), r.norm(g.value)) && !Outranks(r, all, r.norm(g.value), r.norm(f.value))
    ensures forall h | h in all :: !OutranksAll(r, all, r.norm(h.value))
  {
    hide Outranks;
  }

  lemma EvenPairs(f1: Finding, f2: Finding, g1: Finding, g2: Finding)
    requires f1.score == f2.score == g1.score == g2.score && f1.kind == f2.kind == g1.kind == g2.kind
    ensures TierTies([f1, f2], [g1, g2])
    ensures !TierBeats([f1, f2], [g1, g2]) && !TierBeats([g1, g2], [f1, f2])
  {
    AlikePair(f1, f2);
    AlikePair(g1, g2);
  }

  lemma AlikePair(f: Finding, g: Finding)
    requires f.score == g.score && f.kind == g.kind
    ensures BestScore([f, g]) == f.score && BestKind([f, g]) == KindRank(f.kind)
  {
    BestScoreIs([f, g]);
    BestKindIs([f, g]);
    assert f in [f, g];
  }

  /**
   * Two equally good documents that spell one value in two ways the collation does not tell apart: the first
   * read supplies the text.
   */
  lemma EqualCollationWithinAValue(r: Rules, f: Finding, g: Finding)
    requires r.norm(f.value) == r.norm(g.value) && r.order(f.value) == r.order(g.value) && f.value != g.value
    requires f.score == g.score && f.kind == g.kind
    ensures Separated([f, g]) && !OrderIndependent(r, [f, g])
  {
    hide OrderIndependent, Outranks;
    var all := [f, g];
    assert all[0] == f && all[1] == g && f in all;
    MembersOfTwo(r, f, g, r.norm(f.value));
    assert forall h | h in all :: r.norm(h.value) == r.norm(f.value);
    assert Foremost(r, all, f) && Foremost(r, all, g);
    SpellingsDiffer(r, all, f);
  }

  /** Two equally good documents whose different values collate alike: the first read wins. */
  lemma EqualCollationBetweenValues(r: Rules, f: Finding, g: Finding)
    requires r.norm(f.value) != r.norm(g.value) && r.order(f.value) == r.order(g.value)
    requires f.score == g.score && f.kind == g.kind
    ensures Separated([f, g]) && !OrderIndependent(r, [f, g])
  {
    hide Members, OrderIndependent, OutranksAll, Outranks;
    var all := [f, g];
    assert all[0] == f && all[1] == g && f in all && g in all;
    MembersOfTwo(r, f, g, r.norm(f.value));
    MembersOfTwo(r, f, g, r.norm(g.value));
    LoneTie(r, all, f, g);
    LoneTie(r, all, g, f);
    NeitherOutranks(r, all, f, g);
    NoClassOutranks(r, all);
  }

  lemma LoneTie(r: Rules, all: seq<Finding>, f: Finding, g: Finding)
    requires Members(r, all, r.norm(f.value)) == [f] && Members(r, all, r.norm(g.value)) == [g]
    requires r.order(f.value) == r.order(g.value) && f.score == g.score && f.kind == g.kind
    ensures !Outranks(r, all, r.norm(f.value), r.norm(g.value))
  {
    assert [f][0] in [f] && [g][0] in [g];
  }

  /**
   * Scores within the tolerance of one another can go round in a circle: each of three documents precedes the
   * next, the first two by the trust in their kind and the last by a score that is just far enough ahead.
   */
  lemma ToleranceMakesACircle(r: Rules, f: Finding, g: Finding, h: Finding)
    requires KindRank(f.kind) < KindRank(g.kind) < KindRank(h.kind)
    requires g.score == f.score + 0.0000000006 && h.score == f.score + 0.0000000012
    ensures BetterGroup(r, Group(f.value, [f]), Group(g.value, [g])) < 0
    ensures BetterGroup(r, Group(g.value, [g]), Group(h.value, [h])) < 0
    ensures BetterGroup(r, Group(h.value, [h]), Group(f.value, [f])) < 0
    ensures !Separated([f, g, h])
  {
    hide KindRank;
    var all := [f, g, h];
    assert all[0] == f && all[1] == g && all[2] == h;
    assert f in all && g in all;
  }

  lemma MembersOfTwo(r: Rules, f: Finding, g: Finding, key: string)
    ensures Members(r, [f, g], key)
         == (if r.norm(f.value) == key then [f] else []) + (if r.norm(g.value) == key then [g] else [])
  {
    assert [f, g] == [f] + [g] && [f] == [] + [f];
    MembersExtend(r, [f], g, key);
    MembersExtend(r, [], f, key);
  }

  lemma MembersOfFour(r: Rules, f: Finding, g: Finding, h: Finding, k: Finding, key: string)
    ensures Members(r, [f, g, h, k], key)
         == (if r.norm(f.value) == key then [f] else []) + (if r.norm(g.value) == key then [g] else [])
            + (if r.norm(h.value) == key then [h] else []) + (if r.norm(k.value) == key then [k] else [])
  {
    assert [f, g, h, k] == [f, g, h] + [k] && [f, g, h] == [f, g] + [h] && [f, g] == [f] + [g] && [f] == [] + [f];
    MembersExtend(r, [f, g, h], k, key);
    MembersExtend(r, [f, g], h, key);
    MembersExtend(r, [f], g, key);
    MembersExtend(r, [], f, key);
  }
}
