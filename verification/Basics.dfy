/** What every part shares: optional values, the kinds of engagement, blank text as the platform's `trim` sees it, lists. */
module Basics {
  datatype Option<+T> = None | Some(value: T)

  datatype EngagementType = T1Joint | T1Single | T2 | T3

  /** White space and line terminators (sections 12.2 and 12.3 of ECMA-262). */
  predicate IsSpace(c: char) {
    var n := c as int;
    9 <= n <= 13 || n == 0x20 || n == 0xA0 || n == 0x1680 || 0x2000 <= n <= 0x200A
    || n == 0x2028 || n == 0x2029 || n == 0x202F || n == 0x205F || n == 0x3000 || n == 0xFEFF
  }

  predicate Blank(s: string) {
    forall c | c in s :: IsSpace(c)
  }

  lemma NothingIsBlank()
    ensures Blank("")
  {
  }

  function TrimStart(s: string): string {
    if s != [] && IsSpace(s[0]) then TrimStart(s[1..]) else s
  }

  function TrimEnd(s: string): string {
    if s != [] && IsSpace(s[|s| - 1]) then TrimEnd(s[..|s| - 1]) else s
  }

  function Trim(s: string): string {
    TrimEnd(TrimStart(s))
  }

  /** Text that starts and ends in something. */
  predicate Tight(s: string) {
    s != "" && !IsSpace(s[0]) && !IsSpace(s[|s| - 1])
  }

  lemma TightIsTrimmed(s: string)
    requires Tight(s)
    ensures Trim(s) == s
  {
  }

  lemma {:induction false} TrimStartStarts(s: string)
    ensures TrimStart(s) == "" || !IsSpace(TrimStart(s)[0])
  {
    if s != "" {
      TrimStartStarts(s[1..]);
    }
  }

  lemma {:induction false} TrimEndEnds(s: string)
    ensures TrimEnd(s) == "" || (!IsSpace(TrimEnd(s)[|TrimEnd(s)| - 1]) && TrimEnd(s)[0] == s[0])
  {
    if s != "" {
      TrimEndEnds(s[..|s| - 1]);
    }
  }

  /** Trimming again changes nothing. */
  lemma TrimTwice(s: string)
    ensures Trim(s) == "" || Tight(Trim(s))
    ensures Trim(Trim(s)) == Trim(s)
  {
    hide IsSpace;
    TrimStartStarts(s);
    TrimEndEnds(TrimStart(s));
    if Trim(s) != "" {
      TightIsTrimmed(Trim(s));
    }
  }

  lemma {:induction false} TrimEndEmpty(s: string)
    ensures TrimEnd(s) == "" <==> Blank(s)
    ensures Blank(TrimEnd(s)) <==> Blank(s)
  {
    if s != [] {
      var n := |s| - 1;
      TrimEndEmpty(s[..n]);
      assert s == s[..n] + [s[n]];
    }
  }

  lemma {:induction false} TrimStartBlank(s: string)
    ensures Blank(TrimStart(s)) <==> Blank(s)
  {
    if s != [] {
      TrimStartBlank(s[1..]);
      assert s == [s[0]] + s[1..];
    }
  }

  /** Trimming leaves nothing, and nothing but blanks, exactly of blank text. */
  lemma TrimEmptyExactly(s: string)
    ensures Trim(s) == "" <==> Blank(s)
    ensures Blank(Trim(s)) <==> Blank(s)
  {
    TrimEndEmpty(TrimStart(s));
    TrimStartBlank(s);
  }

  function Min(a: int, b: int): int {
    if a < b then a else b
  }

  /** No element twice. */
  predicate Distinct<T(==)>(s: seq<T>) {
    forall i, j | 0 <= i < j < |s| :: s[i] != s[j]
  }

  function Filter<T>(s: seq<T>, p: T -> bool): seq<T> {
    if s == [] then [] else (if p(s[0]) then [s[0]] else []) + Filter(s[1..], p)
  }

  lemma {:induction false} FilterCounts<T>(s: seq<T>, p: T -> bool, x: T)
    ensures multiset(Filter(s, p))[x] == if p(x) then multiset(s)[x] else 0
  {
    if s != [] {
      FilterCounts(s[1..], p, x);
      assert s == [s[0]] + s[1..];
    }
  }

  lemma {:induction false} FilterAppend<T>(s: seq<T>, t: seq<T>, p: T -> bool)
    ensures Filter(s + t, p) == Filter(s, p) + Filter(t, p)
  {
    if s == [] {
      assert s + t == t;
    } else {
      FilterAppend(s[1..], t, p);
      assert (s + t)[1..] == s[1..] + t;
      var head := if p(s[0]) then [s[0]] else [];
      assert head + (Filter(s[1..], p) + Filter(t, p)) == (head + Filter(s[1..], p)) + Filter(t, p);
    }
  }

  lemma FilterHas<T>(s: seq<T>, p: T -> bool)
    ensures forall x :: x in Filter(s, p) <==> x in s && p(x)
  {
    forall x
      ensures x in Filter(s, p) <==> x in s && p(x)
    {
      FilterCounts(s, p, x);
      assert x in multiset(Filter(s, p)) <==> x in Filter(s, p);
      assert x in multiset(s) <==> x in s;
    }
  }

  lemma FirstIsIn<T>(s: seq<T>)
    requires s != []
    ensures s[0] in s
  {
  }

  lemma SameMembers<T>(s: seq<T>, t: seq<T>)
    requires multiset(s) == multiset(t)
    ensures |s| == |t| && forall x :: x in s <==> x in t
  {
    assert |multiset(s)| == |s| && |multiset(t)| == |t|;
    forall x
      ensures x in s <==> x in t
    {
      assert x in s <==> x in multiset(s);
      assert x in t <==> x in multiset(t);
    }
  }
}
