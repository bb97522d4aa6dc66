/** Separating a trading name, written in brackets behind a legal name, off a client's full name. */
module EntityNames {
  import opened Basics

  datatype Split = Split(legalName: string, tradeName: Option<string>)

  /** A character the pattern's dot does not match (section 12.3 of ECMA-262). */
  predicate EndsLine(c: char) {
    c == '\n' || c == '\r' || c as int == 0x2028 || c as int == 0x2029
  }

  predicate Bracket(c: char) {
    c == '(' || c == ')'
  }

  /** Where the last bracket of a text is, or its length. */
  function LastBracket(s: string): (i: nat)
    ensures i <= |s|
    ensures i < |s| ==> Bracket(s[i]) && forall k | i < k < |s| :: !Bracket(s[k])
    ensures i == |s| ==> forall k | 0 <= k < |s| :: !Bracket(s[k])
  {
    if s == [] then 0
    else if Bracket(s[|s| - 1]) then |s| - 1
    else
      var i := LastBracket(s[..|s| - 1]);
      if i == |s| - 1 then |s| else i
  }

  /** The name ends in one bracketed text, with a single line before it, neither part blank. */
  predicate Separable(whole: string, i: nat) {
    && i + 2 < |whole| && whole[|whole| - 1] == ')' && whole[i] == '('
    && (forall k | i < k < |whole| - 1 :: !Bracket(whole[k]))
    && (forall c | c in TrimEnd(whole[..i]) :: !EndsLine(c))
    && !Blank(whole[..i]) && !Blank(whole[i + 1..|whole| - 1])
  }

  /** `splitEntityName`. */
  function SplitEntityName(fullName: string): Split {
    var whole := Trim(fullName);
    if |whole| < 2 || whole[|whole| - 1] != ')' then Split(whole, None)
    else
      var i := LastBracket(whole[..|whole| - 1]);
      if Separable(whole, i) then Split(Trim(whole[..i]), Some(Trim(whole[i + 1..|whole| - 1])))
      else Split(whole, None)
  }

  /** A text is somewhere in another. */
  ghost predicate Occurs(part: string, whole: string) {
    exists before, after :: whole == before + part + after
  }

  lemma OccursWithin(a: string, b: string, c: string)
    requires Occurs(a, b) && Occurs(b, c)
    ensures Occurs(a, c)
  {
    var p, q :| b == p + a + q;
    var r, s :| c == r + b + s;
    assert c == (r + p) + a + (q + s);
  }

  lemma SliceOccurs(s: string, i: nat, j: nat)
    requires i <= j <= |s|
    ensures Occurs(s[i..j], s)
  {
    assert s == s[..i] + s[i..j] + s[j..];
  }

  lemma {:induction false} TrimStartOccurs(s: string)
    ensures Occurs(TrimStart(s), s)
  {
    if s != [] && IsSpace(s[0]) {
      TrimStartOccurs(s[1..]);
      SliceOccurs(s, 1, |s|);
      assert s[1..|s|] == s[1..];
      OccursWithin(TrimStart(s), s[1..], s);
    } else {
      SliceOccurs(s, 0, |s|);
      assert s[0..|s|] == s;
    }
  }

  lemma {:induction false} TrimEndOccurs(s: string)
    ensures Occurs(TrimEnd(s), s)
  {
    if s != [] && IsSpace(s[|s| - 1]) {
      TrimEndOccurs(s[..|s| - 1]);
      SliceOccurs(s, 0, |s| - 1);
      assert s[0..|s| - 1] == s[..|s| - 1];
      OccursWithin(TrimEnd(s), s[..|s| - 1], s);
    } else {
      SliceOccurs(s, 0, |s|);
      assert s[0..|s|] == s;
    }
  }

  lemma TrimOccurs(s: string)
    ensures Occurs(Trim(s), s)
  {
    TrimStartOccurs(s);
    TrimEndOccurs(TrimStart(s));
    OccursWithin(Trim(s), TrimStart(s), s);
  }

  lemma TrimmedSliceOccurs(s: string, i: nat, j: nat)
    requires i <= j <= |s|
    ensures Occurs(Trim(s[i..j]), s)
  {
    SliceOccurs(s, i, j);
    TrimOccurs(s[i..j]);
    OccursWithin(Trim(s[i..j]), s[i..j], s);
  }

  /**
   * Separating loses nothing: both halves are in the full name, neither is blank, and a name is left whole,
   * trimmed, exactly when it cannot be separated anywhere.
   */
  lemma SplittingKeepsBoth(fullName: string)
    ensures var split, whole := SplitEntityName(fullName), Trim(fullName);
            && Occurs(split.legalName, fullName)
            && (split.tradeName.Some? ==> Occurs(split.tradeName.value, fullName))
            && (split.tradeName.Some? ==> !Blank(split.legalName) && !Blank(split.tradeName.value))
            && (split.tradeName.None? ==> split.legalName == whole)
            && (split.tradeName.Some? <==> exists i: nat :: Separable(whole, i))
  {
    hide Trim, TrimEnd, Blank;
    var whole := Trim(fullName);
    TrimOccurs(fullName);
    if |whole| >= 2 && whole[|whole| - 1] == ')' {
      var i := LastBracket(whole[..|whole| - 1]);
      if Separable(whole, i) {
        TrimmedSliceOccurs(whole, 0, i);
        TrimmedSliceOccurs(whole, i + 1, |whole| - 1);
        OccursWithin(Trim(whole[..i]), whole, fullName);
        OccursWithin(Trim(whole[i + 1..|whole| - 1]), whole, fullName);
        TrimEmptyExactly(whole[..i]);
        TrimEmptyExactly(whole[i + 1..|whole| - 1]);
      }
      forall k: nat | Separable(whole, k)
        ensures k == i
      {
        assert whole[..|whole| - 1][k] == '(' && Bracket(whole[k]);
        OnlyBracket(whole, k, i);
      }
    }
  }

  lemma OnlyBracket(whole: string, k: nat, i: nat)
    requires |whole| >= 2 && i == LastBracket(whole[..|whole| - 1])
    requires k < |whole| - 1 && Bracket(whole[k]) && forall j | k < j < |whole| - 1 :: !Bracket(whole[j])
    ensures k == i
  {
    var front := whole[..|whole| - 1];
    assert front[k] == whole[k];
    if i < |front| {
      assert front[i] == whole[i];
    }
  }

  lemma OneSpaceIsTrimmed(s: string)
    requires Tight(s)
    ensures Trim(s + " ") == s && TrimEnd(s + " ") == s
  {
    hide IsSpace;
    SpaceIsSpace();
    var spaced := s + " ";
    assert spaced[..|s|] == s && spaced[0] == s[0] && spaced[|s|] == ' ';
    assert TrimEnd(s) == s;
    assert TrimStart(spaced) == spaced;
  }

  lemma SpaceIsSpace()
    ensures IsSpace(' ') && !IsSpace(')')
  {
  }

  /** Where the last bracket of a name put together the usual way is, and what stands on either side. */
  lemma JoinedParts(legal: string, trade: string, whole: string)
    requires legal != "" && trade != "" && forall c | c in trade :: !Bracket(c)
    requires whole == legal + " (" + trade + ")"
    ensures |whole| == |legal| + |trade| + 3 && whole[0] == legal[0] && whole[|whole| - 1] == ')'
    ensures LastBracket(whole[..|whole| - 1]) == |legal| + 1 && whole[|legal| + 1] == '('
    ensures whole[..|legal| + 1] == legal + " " && whole[|legal| + 2..|whole| - 1] == trade
    ensures forall k | |legal| + 1 < k < |whole| - 1 :: !Bracket(whole[k])
  {
    var i := |legal| + 1;
    assert forall k | i < k < |whole| - 1 :: whole[k] == trade[k - i - 1] && trade[k - i - 1] in trade;
    OnlyBracket(whole, i, LastBracket(whole[..|whole| - 1]));
  }

  /** A name put together the usual way comes apart again: the legal half may hold brackets of its own. */
  lemma JoinedNameComesApart(legal: string, trade: string)
    requires Tight(legal) && forall c | c in legal :: !EndsLine(c)
    requires Tight(trade) && forall c | c in trade :: !Bracket(c)
    ensures SplitEntityName(legal + " (" + trade + ")") == Split(legal, Some(trade))
  {
    hide EndsLine, IsSpace, LastBracket, Trim, TrimEnd;
    var whole := legal + " (" + trade + ")";
    JoinedParts(legal, trade, whole);
    SpaceIsSpace();
    TightIsTrimmed(whole);
    TightIsTrimmed(trade);
    OneSpaceIsTrimmed(legal);
    assert legal[0] in legal + " " && trade[0] in trade;
    assert Separable(whole, |legal| + 1);
  }
}
