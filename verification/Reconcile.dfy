/**
 * Conflicts between sources: a state machine per token over its conflict rows.
 *
 * Every query of the table names a token, so the table is kept per token. `findFirst` gives no order, so
 * which of several matching rows it returns is left to a finder, and the results hold for every finder.
 */
module Reconcile {
  import opened Basics
  import opened IsoText
  import opened FieldValues
  import opened EffectiveValues

  datatype Entry = Entry(value: string, source: Source)

  /** Which kind of disagreement a row is about: between sources, or between documents under one source. */
  datatype Kind = CrossSource | CrossDocument

  datatype Conflict = Conflict(
    origin: Kind,
    status: Status,
    candidates: seq<Entry>,
    recommended: Entry,
    resolvedValue: Option<string>,
    resolvedSource: Option<Source>)

  type Table = map<string, seq<Conflict>>

  datatype Wanted = Open | Decided

  /** `findFirst` over one token's rows. */
  type Finder = (string, seq<Conflict>, Wanted) -> Option<nat>

  predicate Matches(c: Conflict, wanted: Wanted) {
    match wanted
    case Open => c.status == Unresolved
    case Decided => c.status == Resolved || c.status == AcceptedAsIs
  }

  ghost predicate Finds(find: Finder) {
    forall t, rows, wanted ::
      match find(t, rows, wanted)
      case None => forall c | c in rows :: !Matches(c, wanted)
      case Some(i) => i < |rows| && Matches(rows[i], wanted)
  }

  // ---------------------------------------------------------------- What is on the table

  const FACT_PREFIX := "facts."

  predicate IsFact(token: string) {
    FACT_PREFIX <= token
  }

  function Filled(s: Option<string>): bool {
    OrEmpty(s) != ""
  }

  /** `displayValue`: an empty text counts as none. */
  function DisplayValue(row: FieldRow): Option<string> {
    if Filled(row.manualOverride) then row.manualOverride
    else if Filled(row.value) then row.value
    else if row.valueDecimal.Some? then row.valueDecimal
    else if row.valueDate.Some? then Some(ToIsoDate(row.valueDate.value))
    else None
  }

  /** The text of a row that the effective value would use. */
  function UsedValue(row: FieldRow): Option<string> {
    var c := CandidateOf(row);
    if !HasValue(c) then None else if Overridden(c) then c.manualOverride else c.value
  }

  /**
   * What a pass compares and what the letter would use are read differently: the one prefers the stored text,
   * the other the decimal and then the date. They are the same exactly when there is an override; or none,
   * and no stored text or one that the decimal or date repeats; or an empty override and nothing else.
   */
  lemma ShownIsUsedExactly(row: FieldRow)
    requires row.valueDecimal != Some("")
    ensures DisplayValue(row) == UsedValue(row)
            <==> || Filled(row.manualOverride)
                 || (row.manualOverride.None? && (Filled(row.value) ==> CandidateOf(row).value == row.value))
                 || (row.manualOverride == Some("") && !Filled(row.value) && row.valueDecimal.None? && row.valueDate.None?)
  {
    hide ToIsoDate;
    if row.valueDate.Some? {
      assert |ToIsoDate(row.valueDate.value)| == 10;
    }
  }

  function WithValues(rows: seq<FieldRow>): seq<Entry> {
    if rows == [] then []
    else
      WithValues(rows[..|rows| - 1])
      + (var last := rows[|rows| - 1];
         if DisplayValue(last).Some? then [Entry(DisplayValue(last).value, last.source)] else [])
  }

  /** A fact is a person's answer, not a competing observation. */
  function Entries(fields: seq<FieldRow>, token: string): seq<Entry> {
    if IsFact(token) then [] else WithValues(RowsOf(fields, token))
  }

  /** Facts are exactly the tokens of that family, and no row of one is put on the table. */
  lemma FactsAreNotCompared(fields: seq<FieldRow>, token: string)
    ensures IsFact(token) <==> exists rest :: token == "facts." + rest
    ensures IsFact(token) ==> Entries(fields, token) == []
  {
    if IsFact(token) {
      assert token == token[..6] + token[6..] && token[..6] == "facts.";
    }
  }

  function Values(entries: seq<Entry>): set<string> {
    set e | e in entries :: e.value
  }

  /** Two values agree when they normalise alike. */
  predicate Agree(norm: string -> string, entries: seq<Entry>)
    requires entries != []
  {
    forall e | e in entries :: norm(e.value) == norm(entries[0].value)
  }

  predicate Disagrees(norm: string -> string, entries: seq<Entry>) {
    |entries| >= 2 && !Agree(norm, entries)
  }

  function Insert(ranked: seq<Entry>, e: Entry): seq<Entry> {
    if ranked == [] || SourceRank(ranked[|ranked| - 1].source) <= SourceRank(e.source) then ranked + [e]
    else Insert(ranked[..|ranked| - 1], e) + [ranked[|ranked| - 1]]
  }

  /** A stable sort by source priority. */
  function Ranked(entries: seq<Entry>): (r: seq<Entry>)
    ensures |r| == |entries|
  {
    if entries == [] then [] else
      var r := Ranked(entries[..|entries| - 1]);
      InsertGrows(r, entries[|entries| - 1]);
      Insert(r, entries[|entries| - 1])
  }

  lemma {:induction false} InsertGrows(ranked: seq<Entry>, e: Entry)
    ensures multiset(Insert(ranked, e)) == multiset(ranked) + multiset{e}
    ensures |Insert(ranked, e)| == |ranked| + 1
  {
    if !(ranked == [] || SourceRank(ranked[|ranked| - 1].source) <= SourceRank(e.source)) {
      var n := |ranked| - 1;
      assert ranked == ranked[..n] + [ranked[n]];
      InsertGrows(ranked[..n], e);
    }
  }

  lemma {:induction false} RankedSame(entries: seq<Entry>)
    ensures multiset(Ranked(entries)) == multiset(entries)
    ensures Values(Ranked(entries)) == Values(entries)
  {
    if entries != [] {
      var n := |entries| - 1;
      assert entries == entries[..n] + [entries[n]];
      RankedSame(entries[..n]);
      InsertGrows(Ranked(entries[..n]), entries[n]);
    }
    SameMembers(Ranked(entries), entries);
  }

  predicate ByRank(r: seq<Entry>) {
    forall i, j | 0 <= i < j < |r| :: SourceRank(r[i].source) <= SourceRank(r[j].source)
  }

  lemma {:induction false} InsertOrdered(ranked: seq<Entry>, e: Entry)
    requires ByRank(ranked)
    ensures ByRank(Insert(ranked, e))
    ensures forall x | x in Insert(ranked, e) :: x in ranked || x == e
  {
    hide SourceRank;
    if !(ranked == [] || SourceRank(ranked[|ranked| - 1].source) <= SourceRank(e.source)) {
      var n := |ranked| - 1;
      assert ranked == ranked[..n] + [ranked[n]];
      InsertOrdered(ranked[..n], e);
      var front := Insert(ranked[..n], e);
      forall i | 0 <= i < |front|
        ensures SourceRank(front[i].source) <= SourceRank(ranked[n].source)
      {
        assert front[i] in front;
      }
    }
  }

  lemma {:induction false} RankedOrdered(entries: seq<Entry>)
    ensures ByRank(Ranked(entries))
  {
    if entries != [] {
      RankedOrdered(entries[..|entries| - 1]);
      InsertOrdered(Ranked(entries[..|entries| - 1]), entries[|entries| - 1]);
    }
  }

  /** The recommended value is one on the table from the most authoritative source that has one. */
  lemma RecommendedIsBest(entries: seq<Entry>)
    requires entries != []
    ensures Ranked(entries)[0] in entries
    ensures forall e | e in entries :: !MoreAuthoritative(e.source, Ranked(entries)[0].source)
  {
    hide SourceRank, MoreAuthoritative;
    RankedSame(entries);
    RankedOrdered(entries);
    SameMembers(Ranked(entries), entries);
    assert Ranked(entries)[0] in Ranked(entries);
    forall e | e in entries
      ensures !MoreAuthoritative(e.source, Ranked(entries)[0].source)
    {
      AuthorityIsRank(e.source, Ranked(entries)[0].source);
      var i :| 0 <= i < |entries| && Ranked(entries)[i] == e;
    }
  }

  // ---------------------------------------------------------------- One token

  function WithoutOpenCrossSource(rows: seq<Conflict>): seq<Conflict> {
    if rows == [] then []
    else
      WithoutOpenCrossSource(rows[..|rows| - 1])
      + (var last := rows[|rows| - 1]; if last.status == Unresolved && last.origin == CrossSource then [] else [last])
  }

  function Reask(c: Conflict, payload: seq<Entry>): Conflict
    requires payload != []
  {
    c.(status := Unresolved, candidates := payload, recommended := payload[0])
  }

  datatype Outcome = Outcome(rows: seq<Conflict>, raised: nat)

  /** What a pass does to one token's rows. */
  function Step(norm: string -> string, find: Finder, token: string, entries: seq<Entry>, rows: seq<Conflict>): Outcome
    requires Finds(find)
  {
    if |entries| < 2 then Outcome(rows, 0)
    else if |Values(entries)| < 2 || Agree(norm, entries) then Outcome(WithoutOpenCrossSource(rows), 0)
    else
      var payload := Ranked(entries);
      var decided := find(token, rows, Decided);
      if decided.Some? then
        var i := decided.value;
        if Values(rows[i].candidates) == Values(payload) then Outcome(rows, 0)
        else Outcome(rows[i := Reask(rows[i], payload)], 1)
      else
        var open := find(token, rows, Open);
        if open.Some? then
          var i := open.value;
          Outcome(rows[i := rows[i].(candidates := payload, recommended := payload[0])], 0)
        else
          Outcome(rows + [Conflict(CrossSource, Unresolved, payload, payload[0], None, None)], 1)
  }

  /** Fewer than two different values agree anyway, so the guard adds nothing to the agreement test. */
  lemma FewValuesAgree(norm: string -> string, entries: seq<Entry>)
    requires entries != [] && |Values(entries)| < 2
    ensures Agree(norm, entries)
  {
    forall e | e in entries
      ensures e.value == entries[0].value
    {
      assert {e.value, entries[0].value} <= Values(entries);
      if e.value != entries[0].value {
        assert |{e.value, entries[0].value}| == 2;
        SubsetSmaller({e.value, entries[0].value}, Values(entries));
      }
    }
  }

  lemma {:induction false} SubsetSmaller<T>(a: set<T>, b: set<T>)
    requires a <= b
    ensures |a| <= |b|
  {
    assert b == a + (b - a);
  }

  function Get(table: Table, token: string): seq<Conflict> {
    if token in table then table[token] else []
  }

  // ---------------------------------------------------------------- What a pass does to one token

  /** The row asks about, or was decided about, exactly the values now on the table. */
  predicate Covers(c: Conflict, entries: seq<Entry>) {
    Values(c.candidates) == Values(entries)
  }

  /** An open row that shows the current values in their current order, best source recommended. */
  predicate Shows(c: Conflict, entries: seq<Entry>) {
    entries != [] && c.candidates == Ranked(entries) && c.recommended == Ranked(entries)[0]
  }

  /** After a pass a token in disagreement has an open row showing the current values, or a decision about exactly them. */
  lemma StepCovers(norm: string -> string, find: Finder, token: string, entries: seq<Entry>, rows: seq<Conflict>)
    requires Finds(find) && Disagrees(norm, entries)
    ensures exists c | c in Step(norm, find, token, entries, rows).rows ::
              Covers(c, entries) && (Matches(c, Open) ==> Shows(c, entries))
  {
    hide Ranked, Values;
    if |Values(entries)| < 2 {
      FewValuesAgree(norm, entries);
    }
    RankedSame(entries);
    var after := Step(norm, find, token, entries, rows).rows;
    var decided, open := find(token, rows, Decided), find(token, rows, Open);
    var i := if decided.Some? then decided.value else if open.Some? then open.value else |rows|;
    assert after[i] in after;
  }

  predicate OneCrossSource(rows: seq<Conflict>) {
    forall i, j | 0 <= i < j < |rows| :: !(rows[i].origin == CrossSource && rows[j].origin == CrossSource)
  }

  lemma {:induction false} ClearingKeeps(rows: seq<Conflict>)
    ensures forall c ::
              c in WithoutOpenCrossSource(rows) <==> c in rows && !(c.status == Unresolved && c.origin == CrossSource)
    ensures |WithoutOpenCrossSource(rows)| <= |rows|
  {
    if rows != [] {
      var n := |rows| - 1;
      assert rows == rows[..n] + [rows[n]];
      ClearingKeeps(rows[..n]);
    }
  }

  lemma {:induction false} ClearingKeepsOneCrossSource(rows: seq<Conflict>)
    requires OneCrossSource(rows)
    ensures OneCrossSource(WithoutOpenCrossSource(rows))
  {
    if rows != [] {
      var n := |rows| - 1;
      var front := WithoutOpenCrossSource(rows[..n]);
      ClearingKeepsOneCrossSource(rows[..n]);
      ClearingKeeps(rows[..n]);
      if rows[n].origin == CrossSource {
        forall k | 0 <= k < |front|
          ensures front[k].origin == CrossDocument
        {
          assert front[k] in front;
          var i :| 0 <= i < n && rows[i] == front[k];
        }
      }
    }
  }

  lemma StepKeepsOneCrossSource(norm: string -> string, find: Finder, token: string, entries: seq<Entry>,
                                rows: seq<Conflict>)
    requires Finds(find) && OneCrossSource(rows)
    ensures OneCrossSource(Step(norm, find, token, entries, rows).rows)
  {
    hide Ranked, Values, Agree, WithoutOpenCrossSource;
    ClearingKeepsOneCrossSource(rows);
    assert find(token, rows, Decided).None? && find(token, rows, Open).None? ==> rows == [] by {
      if rows != [] {
        assert rows[0] in rows && (Matches(rows[0], Open) || Matches(rows[0], Decided));
      }
    }
  }

  function Count(rows: seq<Conflict>, p: Conflict -> bool): nat {
    if rows == [] then 0 else Count(rows[..|rows| - 1], p) + if p(rows[|rows| - 1]) then 1 else 0
  }

  function DocumentRows(rows: seq<Conflict>): nat {
    Count(rows, (c: Conflict) => c.origin == CrossDocument)
  }

  function OpenRows(rows: seq<Conflict>): nat {
    Count(rows, (c: Conflict) => c.status == Unresolved)
  }

  lemma {:induction false} CountUpdate(rows: seq<Conflict>, p: Conflict -> bool, i: nat, c: Conflict)
    requires i < |rows|
    ensures Count(rows[i := c], p) == Count(rows, p) - (if p(rows[i]) then 1 else 0) + (if p(c) then 1 else 0)
  {
    var n := |rows| - 1;
    if i < n {
      assert rows[i := c][..n] == rows[..n][i := c];
      CountUpdate(rows[..n], p, i, c);
    } else {
      assert rows[i := c][..n] == rows[..n];
    }
  }

  lemma CountAppend(rows: seq<Conflict>, p: Conflict -> bool, c: Conflict)
    ensures Count(rows + [c], p) == Count(rows, p) + if p(c) then 1 else 0
  {
    assert (rows + [c])[..|rows|] == rows;
  }

  lemma {:induction false} ClearingKeepsDocumentRows(rows: seq<Conflict>)
    ensures DocumentRows(WithoutOpenCrossSource(rows)) == DocumentRows(rows)
  {
    if rows != [] {
      var n := |rows| - 1;
      var front := WithoutOpenCrossSource(rows[..n]);
      ClearingKeepsDocumentRows(rows[..n]);
      CountAppend(front, (c: Conflict) => c.origin == CrossDocument, rows[n]);
      assert front + [] == front;
    }
  }

  /**
   * A pass neither adds nor clears a question that documents raised among themselves, and for a token in
   * disagreement it raises exactly as many questions as there are more open rows after it.
   */
  lemma PassBalances(norm: string -> string, find: Finder, token: string, entries: seq<Entry>, rows: seq<Conflict>)
    requires Finds(find)
    ensures var r := Step(norm, find, token, entries, rows);
            && DocumentRows(r.rows) == DocumentRows(rows)
            && (Disagrees(norm, entries) ==> OpenRows(r.rows) == OpenRows(rows) + r.raised)
            && (!Disagrees(norm, entries) ==> r.raised == 0)
  {
    hide Step, Count, Ranked, Values, Disagrees, WithoutOpenCrossSource;
    var isOpen, isDocument := (c: Conflict) => c.status == Unresolved, (c: Conflict) => c.origin == CrossDocument;
    if Disagrees(norm, entries) {
      StepInDisagreement(norm, find, token, entries, rows);
      var after := Step(norm, find, token, entries, rows).rows;
      var decided, open := find(token, rows, Decided), find(token, rows, Open);
      if decided.Some? {
        if after != rows {
          CountUpdate(rows, isOpen, decided.value, after[decided.value]);
          CountUpdate(rows, isDocument, decided.value, after[decided.value]);
        }
      } else if open.Some? {
        CountUpdate(rows, isOpen, open.value, after[open.value]);
        CountUpdate(rows, isDocument, open.value, after[open.value]);
      } else {
        assert after == [] + [after[0]];
        CountAppend([], isOpen, after[0]);
        CountAppend([], isDocument, after[0]);
      }
    } else {
      StepInAgreement(norm, find, token, entries, rows);
      ClearingKeepsDocumentRows(rows);
    }
  }

  // ---------------------------------------------------------------- Stale decisions

  predicate NoneStale(rows: seq<Conflict>, entries: seq<Entry>) {
    forall c | c in rows && Matches(c, Decided) :: Covers(c, entries)
  }

  predicate AtMostOneDecided(rows: seq<Conflict>) {
    forall i, j | 0 <= i < j < |rows| :: !(Matches(rows[i], Decided) && Matches(rows[j], Decided))
  }

  function FirstMatch(rows: seq<Conflict>, wanted: Wanted): (r: Option<nat>)
    ensures match r
            case None => forall c | c in rows :: !Matches(c, wanted)
            case Some(i) => i < |rows| && Matches(rows[i], wanted)
  {
    if rows == [] then None
    else if Matches(rows[0], wanted) then Some(0)
    else
      var r := FirstMatch(rows[1..], wanted);
      if r.None? then None else Some(r.value + 1)
  }

  /** A finder that returns the row at i of these rows whenever it may. */
  ghost function Picking(rows: seq<Conflict>, i: nat): (find: Finder)
    requires i < |rows|
    ensures Finds(find)
    ensures forall t, wanted :: Matches(rows[i], wanted) ==> find(t, rows, wanted) == Some(i)
    ensures forall t, wanted :: (forall c | c in rows :: !Matches(c, wanted)) ==> find(t, rows, wanted).None?
  {
    (t: string, cs: seq<Conflict>, wanted: Wanted) =>
      if cs == rows && Matches(rows[i], wanted) then Some(i) else FirstMatch(cs, wanted)
  }

  ghost function AnyFinder(): (find: Finder)
    ensures Finds(find)
  {
    (t: string, cs: seq<Conflict>, wanted: Wanted) => FirstMatch(cs, wanted)
  }

  predicate NewlyAsked(c: Conflict, entries: seq<Entry>) {
    c.origin == CrossSource && Matches(c, Open) && Shows(c, entries)
  }

  /** The cases of a pass, for a token in disagreement. */
  lemma StepInDisagreement(norm: string -> string, find: Finder, token: string, entries: seq<Entry>, rows: seq<Conflict>)
    requires Finds(find) && Disagrees(norm, entries)
    ensures |entries| >= 2 && Ranked(entries) != []
    ensures var r := Step(norm, find, token, entries, rows);
            match find(token, rows, Decided)
            case Some(i) =>
              r == if Covers(rows[i], entries) then Outcome(rows, 0)
                else Outcome(rows[i := Reask(rows[i], Ranked(entries))], 1)
            case None =>
              match find(token, rows, Open)
              case Some(i) =>
                r == Outcome(rows[i := rows[i].(candidates := Ranked(entries), recommended := Ranked(entries)[0])], 0)
              case None => rows == [] && r.raised == 1 && |r.rows| == 1 && NewlyAsked(r.rows[0], entries)
  {
    hide Ranked, Values;
    if |Values(entries)| < 2 {
      FewValuesAgree(norm, entries);
    }
    RankedSame(entries);
    if rows != [] {
      assert rows[0] in rows && (Matches(rows[0], Open) || Matches(rows[0], Decided));
    }
  }

  /** The other case. */
  lemma StepInAgreement(norm: string -> string, find: Finder, token: string, entries: seq<Entry>, rows: seq<Conflict>)
    requires Finds(find) && !Disagrees(norm, entries)
    ensures Step(norm, find, token, entries, rows)
            == Outcome(if |entries| < 2 then rows else WithoutOpenCrossSource(rows), 0)
  {
  }

  /**
   * No stale decision is left in force, whichever rows the queries return, exactly when there was none
   * before, or the sources disagree now and at most one decision was on record. When the sources have
   * come to agree, a decision about other values stays in force.
   */
  lemma NoStaleDecisionExactly(norm: string -> string, token: string, entries: seq<Entry>, rows: seq<Conflict>)
    ensures (forall find | Finds(find) :: NoneStale(Step(norm, find, token, entries, rows).rows, entries))
            <==> NoneStale(rows, entries) || (Disagrees(norm, entries) && AtMostOneDecided(rows))
  {
    hide Step, Disagrees, Covers, Ranked, WithoutOpenCrossSource, Finds;
    if NoneStale(rows, entries) || (Disagrees(norm, entries) && AtMostOneDecided(rows)) {
      forall find | Finds(find)
        ensures NoneStale(Step(norm, find, token, entries, rows).rows, entries)
      {
        FewDecisionsCurrent(norm, find, token, entries, rows);
      }
    } else {
      var c :| c in rows && Matches(c, Decided) && !Covers(c, entries);
      var s :| 0 <= s < |rows| && rows[s] == c;
      var find := StaleSurvivor(norm, token, entries, rows, s);
      assert !NoneStale(Step(norm, find, token, entries, rows).rows, entries);
    }
  }

  lemma FewDecisionsCurrent(norm: string -> string, find: Finder, token: string, entries: seq<Entry>, rows: seq<Conflict>)
    requires Finds(find)
    requires NoneStale(rows, entries) || (Disagrees(norm, entries) && AtMostOneDecided(rows))
    ensures NoneStale(Step(norm, find, token, entries, rows).rows, entries)
  {
    hide Step, Disagrees, Covers, Ranked, WithoutOpenCrossSource;
    if Disagrees(norm, entries) {
      StepInDisagreement(norm, find, token, entries, rows);
    } else {
      StepInAgreement(norm, find, token, entries, rows);
      ClearingKeeps(rows);
    }
  }

  /** A finder under which a stale decision outlives the pass, when another decision is there or the sources agree. */
  lemma StaleSurvivor(norm: string -> string, token: string, entries: seq<Entry>, rows: seq<Conflict>, s: nat)
    returns (find: Finder)
    requires s < |rows| && Matches(rows[s], Decided) && !Covers(rows[s], entries)
    requires !(Disagrees(norm, entries) && AtMostOneDecided(rows))
    ensures Finds(find)
    ensures rows[s] in Step(norm, find, token, entries, rows).rows
  {
    hide Step, Disagrees, Covers, Ranked, WithoutOpenCrossSource, Finds;
    if Disagrees(norm, entries) {
      var i, j :| 0 <= i < j < |rows| && Matches(rows[i], Decided) && Matches(rows[j], Decided);
      var k := if i == s then j else i;
      find := Picking(rows, k);
      StepInDisagreement(norm, find, token, entries, rows);
      assert Step(norm, find, token, entries, rows).rows[s] == rows[s];
    } else {
      find := AnyFinder();
      StepInAgreement(norm, find, token, entries, rows);
      ClearingKeeps(rows);
    }
  }

  // ---------------------------------------------------------------- Questions between documents

  lemma {:induction false} ClearingKeepsCopies(rows: seq<Conflict>, c: Conflict)
    requires c.origin == CrossDocument
    ensures multiset(WithoutOpenCrossSource(rows))[c] == multiset(rows)[c]
  {
    if rows != [] {
      var n := |rows| - 1;
      assert rows == rows[..n] + [rows[n]];
      ClearingKeepsCopies(rows[..n], c);
    }
  }

  /** A decision about the current values, or an open row that shows them already or stands behind a decision. */
  ghost predicate LeftAlone(entries: seq<Entry>, rows: seq<Conflict>, i: nat)
    requires i < |rows|
  {
    || (Matches(rows[i], Decided) && Covers(rows[i], entries))
    || (Matches(rows[i], Open) && ((exists c | c in rows :: Matches(c, Decided)) || Shows(rows[i], entries)))
  }

  /**
   * A row about a disagreement between documents survives a pass, whichever rows the queries return, exactly when
   * the sources agree or it is left alone. Otherwise the sources' values can take the place of the documents'.
   */
  lemma DocumentRowSurvivesExactly(norm: string -> string, token: string, entries: seq<Entry>,
                                   rows: seq<Conflict>, i: nat)
    requires i < |rows| && rows[i].origin == CrossDocument
    ensures (forall find | Finds(find) ::
               multiset(Step(norm, find, token, entries, rows).rows)[rows[i]] >= multiset(rows)[rows[i]])
            <==> !Disagrees(norm, entries) || LeftAlone(entries, rows, i)
  {
    hide Step, Disagrees, Ranked, WithoutOpenCrossSource, Finds, Values;
    if !Disagrees(norm, entries) {
      forall find | Finds(find)
        ensures multiset(Step(norm, find, token, entries, rows).rows)[rows[i]] >= multiset(rows)[rows[i]]
      {
        StepInAgreement(norm, find, token, entries, rows);
        ClearingKeepsCopies(rows, rows[i]);
      }
    } else if LeftAlone(entries, rows, i) {
      forall find | Finds(find)
        ensures multiset(Step(norm, find, token, entries, rows).rows)[rows[i]] >= multiset(rows)[rows[i]]
      {
        SurvivorStays(norm, find, token, entries, rows, i);
      }
    } else {
      var find := Picking(rows, i);
      OthersGo(norm, find, token, entries, rows, i);
    }
  }

  lemma SurvivorStays(norm: string -> string, find: Finder, token: string, entries: seq<Entry>, rows: seq<Conflict>, i: nat)
    requires Finds(find) && Disagrees(norm, entries) && i < |rows| && LeftAlone(entries, rows, i)
    ensures multiset(Step(norm, find, token, entries, rows).rows)[rows[i]] >= multiset(rows)[rows[i]]
  {
    hide Step, Disagrees, Ranked, Values;
    StepInDisagreement(norm, find, token, entries, rows);
  }

  lemma OthersGo(norm: string -> string, find: Finder, token: string, entries: seq<Entry>, rows: seq<Conflict>, i: nat)
    requires Finds(find) && Disagrees(norm, entries) && i < |rows| && !LeftAlone(entries, rows, i)
    requires forall wanted :: Matches(rows[i], wanted) ==> find(token, rows, wanted) == Some(i)
    requires forall wanted :: (forall c | c in rows :: !Matches(c, wanted)) ==> find(token, rows, wanted).None?
    ensures multiset(Step(norm, find, token, entries, rows).rows)[rows[i]] < multiset(rows)[rows[i]]
  {
    hide Step, Disagrees, Ranked, Values;
    StepInDisagreement(norm, find, token, entries, rows);
  }

  // ---------------------------------------------------------------- Passing again

  /** Nothing left for a pass to do about a token. */
  predicate Quiet(norm: string -> string, entries: seq<Entry>, rows: seq<Conflict>) {
    if |entries| < 2 then true
    else if !Disagrees(norm, entries) then forall c | c in rows :: !(c.status == Unresolved && c.origin == CrossSource)
    else
      && rows != []
      && NoneStale(rows, entries)
      && ((forall c | c in rows :: Matches(c, Open)) ==> forall c | c in rows :: Shows(c, entries))
  }

  lemma {:induction false} NothingCleared(rows: seq<Conflict>)
    ensures WithoutOpenCrossSource(rows) == rows
            <==> forall c | c in rows :: !(c.status == Unresolved && c.origin == CrossSource)
  {
    ClearingKeeps(rows);
    if rows != [] {
      var n := |rows| - 1;
      assert rows == rows[..n] + [rows[n]];
      NothingCleared(rows[..n]);
      assert forall c | c in rows :: c in rows[..n] || c == rows[n];
    }
  }

  /**
   * A pass changes nothing and raises nothing about a token, whichever rows the queries return, exactly when it
   * is quiet.
   */
  lemma IdleExactly(norm: string -> string, token: string, entries: seq<Entry>, rows: seq<Conflict>)
    ensures (forall find | Finds(find) :: Step(norm, find, token, entries, rows) == Outcome(rows, 0))
            <==> Quiet(norm, entries, rows)
  {
    hide Step, Disagrees, Ranked, WithoutOpenCrossSource, Finds, Values;
    if Quiet(norm, entries, rows) {
      forall find | Finds(find)
        ensures Step(norm, find, token, entries, rows) == Outcome(rows, 0)
      {
        QuietIsIdle(norm, find, token, entries, rows);
      }
    } else if Disagrees(norm, entries) {
      NotQuietMoves(norm, token, entries, rows);
    } else {
      StepInAgreement(norm, AnyFinder(), token, entries, rows);
      NothingCleared(rows);
    }
  }

  lemma QuietIsIdle(norm: string -> string, find: Finder, token: string, entries: seq<Entry>, rows: seq<Conflict>)
    requires Finds(find) && Quiet(norm, entries, rows)
    ensures Step(norm, find, token, entries, rows) == Outcome(rows, 0)
  {
    hide Step, Disagrees, Ranked, WithoutOpenCrossSource, Values;
    if Disagrees(norm, entries) {
      StepInDisagreement(norm, find, token, entries, rows);
      var open := find(token, rows, Open);
      if find(token, rows, Decided).None? && open.Some? {
        var c := rows[open.value];
        assert c in rows && Shows(c, entries) && c.(candidates := Ranked(entries), recommended := Ranked(entries)[0]) == c;
        assert rows[open.value := c] == rows;
      }
    } else {
      StepInAgreement(norm, find, token, entries, rows);
      NothingCleared(rows);
    }
  }

  lemma NotQuietMoves(norm: string -> string, token: string, entries: seq<Entry>, rows: seq<Conflict>)
    requires Disagrees(norm, entries) && !Quiet(norm, entries, rows)
    ensures exists find | Finds(find) :: Step(norm, find, token, entries, rows) != Outcome(rows, 0)
  {
    hide Step, Ranked, Finds, Values;
    if rows == [] {
      var find := AnyFinder();
      assert find(token, rows, Decided).None? && find(token, rows, Open).None?;
      StepInDisagreement(norm, find, token, entries, rows);
    } else {
      var c := if !NoneStale(rows, entries) then (var c :| c in rows && Matches(c, Decided) && !Covers(c, entries); c)
               else (var c :| c in rows && Matches(c, Open) && !Shows(c, entries); c);
      var i :| 0 <= i < |rows| && rows[i] == c;
      var find := Picking(rows, i);
      StepInDisagreement(norm, find, token, entries, rows);
      var after := Step(norm, find, token, entries, rows);
      if NoneStale(rows, entries) {
        assert after.rows[i].candidates == Ranked(entries) && after.rows[i].recommended == Ranked(entries)[0];
        assert after.rows[i] != rows[i];
      } else {
        assert after.raised == 1;
      }
    }
  }

  /** The rows from which one pass settles a token for good. */
  predicate Settles(norm: string -> string, entries: seq<Entry>, rows: seq<Conflict>) {
    || !Disagrees(norm, entries)
    || |rows| <= 1
    || (NoneStale(rows, entries) && exists c | c in rows :: Matches(c, Decided))
    || (AtMostOneDecided(rows) && forall c | c in rows && Matches(c, Open) :: Shows(c, entries))
  }

  lemma SettlingIsQuiet(norm: string -> string, find: Finder, token: string, entries: seq<Entry>, rows: seq<Conflict>)
    requires Finds(find) && Settles(norm, entries, rows)
    ensures Quiet(norm, entries, Step(norm, find, token, entries, rows).rows)
  {
    hide Step, Ranked, WithoutOpenCrossSource, Values;
    var after := Step(norm, find, token, entries, rows).rows;
    if Disagrees(norm, entries) {
      StepInDisagreement(norm, find, token, entries, rows);
      RankedSame(entries);
      if NoneStale(rows, entries) && exists c | c in rows :: Matches(c, Decided) {
        assert after == rows;
      }
    } else {
      StepInAgreement(norm, find, token, entries, rows);
      ClearingKeeps(rows);
    }
  }

  /** Passing again has nothing left to do, whichever rows the queries return, exactly when the rows settle. */
  lemma SecondPassIdleExactly(norm: string -> string, token: string, entries: seq<Entry>, rows: seq<Conflict>)
    ensures (forall find | Finds(find) :: Quiet(norm, entries, Step(norm, find, token, entries, rows).rows))
            <==> Settles(norm, entries, rows)
  {
    hide Step, Disagrees, Ranked, Finds, Values, Quiet;
    if Settles(norm, entries, rows) {
      forall find | Finds(find)
        ensures Quiet(norm, entries, Step(norm, find, token, entries, rows).rows)
      {
        SettlingIsQuiet(norm, find, token, entries, rows);
      }
    } else {
      var find := Unsettled(norm, token, entries, rows);
    }
  }

  lemma Unsettled(norm: string -> string, token: string, entries: seq<Entry>, rows: seq<Conflict>) returns (find: Finder)
    requires !Settles(norm, entries, rows)
    ensures Finds(find) && !Quiet(norm, entries, Step(norm, find, token, entries, rows).rows)
  {
    hide Step, Ranked, Finds, Values;
    if !AtMostOneDecided(rows) {
      var c :| c in rows && Matches(c, Decided) && !Covers(c, entries);
      var s :| 0 <= s < |rows| && rows[s] == c;
      find := StaleSurvivor(norm, token, entries, rows, s);
    } else {
      var c :| c in rows && Matches(c, Open) && !Shows(c, entries);
      var k :| 0 <= k < |rows| && rows[k] == c;
      if i :| 0 <= i < |rows| && Matches(rows[i], Decided) {
        find := Picking(rows, i);
        StepInDisagreement(norm, find, token, entries, rows);
        var after := Step(norm, find, token, entries, rows).rows;
        assert after[k] == c && after[k] in after;
      } else {
        var i := if k == 0 then 1 else 0;
        assert Matches(rows[i], Open);
        find := Picking(rows, i);
        StepInDisagreement(norm, find, token, entries, rows);
        var after := Step(norm, find, token, entries, rows).rows;
        assert after[k] == c && after[k] in after;
      }
    }
  }

  /** Sources that came to agree leave a decision about other values in force. */
  lemma AgreementLeavesDecision(norm: string -> string, find: Finder)
    requires Finds(find)
    ensures var entries := [Entry("B", KarbonClient), Entry("B", PriorYearDocument)];
            var decided := Conflict(CrossSource, Resolved, [Entry("A", KarbonClient), Entry("B", PriorYearDocument)],
                                    Entry("A", KarbonClient), Some("A"), Some(KarbonClient));
            Step(norm, find, "t", entries, [decided]).rows == [decided] && !Covers(decided, entries)
  {
    hide Step;
    var entries := [Entry("B", KarbonClient), Entry("B", PriorYearDocument)];
    var decided := Conflict(CrossSource, Resolved, [Entry("A", KarbonClient), Entry("B", PriorYearDocument)],
                            Entry("A", KarbonClient), Some("A"), Some(KarbonClient));
    StepInAgreement(norm, find, "t", entries, [decided]);
    NothingCleared([decided]);
    assert decided.candidates[0] in decided.candidates;
    assert "A" in Values(decided.candidates) && "A" !in Values(entries);
  }
}
