/** Runs of source edits, decisions, document scans and passes over the conflict table. */
module ReconcileRuns {
  import opened Basics
  import opened FieldValues
  import opened EffectiveValues
  import opened Reconcile

  datatype State = State(fields: seq<FieldRow>, table: Table)

  datatype Event =
    | Edit(fields: seq<FieldRow>)
    | Decide(token: string, row: nat, status: Status, value: string, source: Source)
    | ScanRaises(token: string, candidates: seq<Entry>, recommended: Entry)
    | Pass

  function Settle(c: Conflict, status: Status, value: string, source: Source): Conflict {
    c.(status := status, resolvedValue := Some(value), resolvedSource := Some(source))
  }

  ghost predicate OnlyTokenChanges(before: Table, after: Table, token: string, rows: seq<Conflict>) {
    Get(after, token) == rows && forall t | t != token :: Get(after, t) == Get(before, t)
  }

  /** What a pass leaves: every token's rows stepped once. */
  ghost predicate Passed(norm: string -> string, find: Finder, fields: seq<FieldRow>, before: Table, after: Table)
    requires Finds(find)
  {
    forall t :: Get(after, t) == Step(norm, find, t, Entries(fields, t), Get(before, t)).rows
  }

  ghost predicate Next(norm: string -> string, s: State, e: Event, u: State) {
    match e
    case Edit(fields) => u == s.(fields := fields)
    case Decide(token, i, status, value, source) =>
      && u.fields == s.fields && value != "" && status != Unresolved && i < |Get(s.table, token)|
      && var rows := Get(s.table, token);
         OnlyTokenChanges(s.table, u.table, token, rows[i := Settle(rows[i], status, value, source)])
    case ScanRaises(token, candidates, recommended) =>
      && u.fields == s.fields
      && OnlyTokenChanges(s.table, u.table, token,
           Get(s.table, token) + [Conflict(CrossDocument, Unresolved, candidates, recommended, None, None)])
    case Pass => u.fields == s.fields && exists find | Finds(find) :: Passed(norm, find, s.fields, s.table, u.table)
  }

  // ---------------------------------------------------------------- The code

  /** The tokens of a pass: each once, facts left out, in the order they are met. */
  function Keys(fields: seq<FieldRow>): seq<string> {
    if fields == [] then []
    else
      var keys := Keys(fields[..|fields| - 1]);
      var token := fields[|fields| - 1].token;
      if IsFact(token) || token in keys then keys else keys + [token]
  }

  /** How many questions a pass raises over its tokens. */
  function Raised(norm: string -> string, find: Finder, fields: seq<FieldRow>, before: Table, keys: seq<string>): nat
    requires Finds(find)
  {
    if keys == [] then 0
    else
      var last := keys[|keys| - 1];
      Raised(norm, find, fields, before, keys[..|keys| - 1])
      + Step(norm, find, last, Entries(fields, last), Get(before, last)).raised
  }

  lemma NoKeys()
    ensures Keys([]) == []
  {
  }

  lemma KeysExtend(fields: seq<FieldRow>, i: nat)
    requires i < |fields|
    ensures var token := fields[i].token;
            Keys(fields[..i + 1])
            == Keys(fields[..i]) + if IsFact(token) || token in Keys(fields[..i]) then [] else [token]
  {
    assert fields[..i + 1][..i] == fields[..i];
  }

  method GroupFields(fields: seq<FieldRow>) returns (keys: seq<string>, byToken: map<string, seq<FieldRow>>)
    ensures keys == Keys(fields)
    ensures forall i, j | 0 <= i < j < |keys| :: keys[i] != keys[j]
    ensures forall t :: t in keys <==> t in byToken
    ensures forall t :: t in byToken <==> !IsFact(t) && RowsOf(fields, t) != []
    ensures forall t | t in byToken :: byToken[t] == RowsOf(fields, t)
  {
    hide RowsOf, IsFact, Keys;
    keys, byToken := [], map[];
    NoRows();
    NoKeys();
    assert fields[..0] == [];
    var i := 0;
    while i < |fields|
      invariant 0 <= i <= |fields|
      invariant keys == Keys(fields[..i])
      invariant forall a, b | 0 <= a < b < |keys| :: keys[a] != keys[b]
      invariant forall t :: t in keys <==> t in byToken
      invariant forall t :: t in byToken <==> !IsFact(t) && RowsOf(fields[..i], t) != []
      invariant forall t | t in byToken :: byToken[t] == RowsOf(fields[..i], t)
    {
      var field := fields[i];
      RowsExtend(fields, i);
      KeysExtend(fields, i);
      if !IsFact(field.token) {
        var bucket := if field.token in byToken then byToken[field.token] else [];
        if field.token !in byToken {
          keys := keys + [field.token];
        }
        byToken := byToken[field.token := bucket + [field]];
      }
      i := i + 1;
    }
    assert fields[..i] == fields;
  }

  class ConflictDesk {
    var fields: seq<FieldRow>
    var table: Table

    ghost function Now(): State
      reads this
    {
      State(fields, table)
    }

    constructor ()
      ensures Now() == State([], map[])
    {
      fields, table := [], map[];
    }

    method EditSources(newFields: seq<FieldRow>)
      modifies this
      ensures forall norm :: Next(norm, old(Now()), Edit(newFields), Now())
    {
      fields := newFields;
    }

    /** A person's choice; a form sent without one is refused. */
    method DecideConflict(token: string, i: nat, value: string, source: Source) returns (ok: bool)
      requires i < |Get(table, token)|
      modifies this
      ensures ok <==> value != ""
      ensures if ok then forall norm :: Next(norm, old(Now()), Decide(token, i, Resolved, value, source), Now())
              else Now() == old(Now())
      ensures ok ==>
              && |Get(table, token)| == |Get(old(table), token)|
              && Get(table, token)[i] == Get(old(table), token)[i].(status := Resolved, resolvedValue := Some(value),
                                                                    resolvedSource := Some(source))
    {
      if value == "" {
        return false;
      }
      var rows := Get(table, token);
      table := table[token := rows[i := Settle(rows[i], Resolved, value, source)]];
      ok := true;
    }

    method RaiseFromScan(token: string, candidates: seq<Entry>, recommended: Entry)
      modifies this
      ensures forall norm :: Next(norm, old(Now()), ScanRaises(token, candidates, recommended), Now())
    {
      var row := Conflict(CrossDocument, Unresolved, candidates, recommended, None, None);
      table := table[token := Get(table, token) + [row]];
    }

    /** One token of the loop. */
    method ReconcileToken(norm: string -> string, find: Finder, token: string, entries: seq<Entry>) returns (raised: nat)
      requires Finds(find)
      modifies `table
      ensures var r := Step(norm, find, token, entries, Get(old(table), token));
              OnlyTokenChanges(old(table), table, token, r.rows) && raised == r.raised
    {
      hide Ranked, Values, Agree, WithoutOpenCrossSource;
      raised := 0;
      if |entries| < 2 {
        return;
      }
      if |Values(entries)| < 2 || Agree(norm, entries) {
        table := table[token := WithoutOpenCrossSource(Get(table, token))];
        return;
      }
      var payload := Ranked(entries);
      var existing := find(token, Get(table, token), Open);
      var decided := find(token, Get(table, token), Decided);
      if decided.Some? {
        var c := Get(table, token)[decided.value];
        if Values(c.candidates) == Values(payload) {
          return;
        }
        table := table[token := Get(table, token)[decided.value := Reask(c, payload)]];
        raised := 1;
      } else if existing.Some? {
        var c := Get(table, token)[existing.value];
        table := table[token := Get(table, token)[existing.value := c.(candidates := payload, recommended := payload[0])]];
      } else {
        table := table[token := Get(table, token) + [Conflict(CrossSource, Unresolved, payload, payload[0], None, None)]];
        raised := 1;
      }
    }

    /** `reconcile`: groups the rows by token and takes each token in turn. */
    method ReconcileAll(norm: string -> string, find: Finder) returns (raised: nat)
      requires Finds(find)
      modifies `table
      ensures Passed(norm, find, fields, old(table), table)
      ensures raised == Raised(norm, find, fields, old(table), Keys(fields))
    {
      hide Step, RowsOf, WithValues, IsFact, Keys, Finds, Raised, Stepped, OnlyTokenChanges, Passed, Get;
      NothingStepped(norm, find, fields, table);
      var keys, byToken := GroupFields(fields);
      raised := 0;
      var k := 0;
      ghost var before := table;
      assert keys[..0] == [];
      while k < |keys|
        invariant 0 <= k <= |keys|
        invariant Stepped(norm, find, fields, before, table, keys[..k])
        invariant raised == Raised(norm, find, fields, before, keys[..k])
      {
        var token := keys[k];
        assert token in keys && token !in keys[..k];
        ghost var soFar := table;
        var more := ReconcileToken(norm, find, token, WithValues(byToken[token]));
        OneMoreStepped(norm, find, fields, before, soFar, table, keys, k);
        raised := raised + more;
        k := k + 1;
      }
      assert keys[..k] == keys;
      AllStepped(norm, find, fields, before, table, keys);
    }
  }

  /** Part way through a pass: these tokens have been stepped, the others not touched. */
  ghost predicate Stepped(norm: string -> string, find: Finder, fields: seq<FieldRow>, before: Table, now: Table,
                          done: seq<string>)
    requires Finds(find)
  {
    && (forall t | t in done :: Get(now, t) == Step(norm, find, t, Entries(fields, t), Get(before, t)).rows)
    && (forall t | t !in done :: Get(now, t) == Get(before, t))
  }

  lemma NothingStepped(norm: string -> string, find: Finder, fields: seq<FieldRow>, before: Table)
    requires Finds(find)
    ensures Stepped(norm, find, fields, before, before, [])
    ensures Raised(norm, find, fields, before, []) == 0
  {
  }

  lemma OneMoreStepped(norm: string -> string, find: Finder, fields: seq<FieldRow>, before: Table, soFar: Table, now: Table,
                       keys: seq<string>, k: nat)
    requires Finds(find) && k < |keys| && keys[k] !in keys[..k]
    requires Stepped(norm, find, fields, before, soFar, keys[..k])
    requires OnlyTokenChanges(soFar, now, keys[k],
                              Step(norm, find, keys[k], Entries(fields, keys[k]), Get(soFar, keys[k])).rows)
    ensures Get(soFar, keys[k]) == Get(before, keys[k])
    ensures Stepped(norm, find, fields, before, now, keys[..k + 1])
    ensures Raised(norm, find, fields, before, keys[..k + 1])
            == Raised(norm, find, fields, before, keys[..k])
               + Step(norm, find, keys[k], Entries(fields, keys[k]), Get(before, keys[k])).raised
  {
    hide Step, Entries, Finds, Get;
    assert keys[..k + 1][..k] == keys[..k] && keys[..k + 1] == keys[..k] + [keys[k]];
  }

  lemma AllStepped(norm: string -> string, find: Finder, fields: seq<FieldRow>, before: Table, now: Table, keys: seq<string>)
    requires Finds(find) && Stepped(norm, find, fields, before, now, keys)
    requires forall t :: t in keys <==> !IsFact(t) && RowsOf(fields, t) != []
    ensures Passed(norm, find, fields, before, now)
  {
    hide Step, Entries, Finds, Get, RowsOf, IsFact;
    forall t
      ensures Get(now, t) == Step(norm, find, t, Entries(fields, t), Get(before, t)).rows
    {
      if t !in keys {
        NoEntries(norm, find, fields, t, Get(before, t));
      }
    }
  }

  lemma NoEntries(norm: string -> string, find: Finder, fields: seq<FieldRow>, token: string, rows: seq<Conflict>)
    requires Finds(find) && (IsFact(token) || RowsOf(fields, token) == [])
    ensures Step(norm, find, token, Entries(fields, token), rows) == Outcome(rows, 0)
  {
  }

  // ---------------------------------------------------------------- Runs

  ghost predicate Run(norm: string -> string, states: seq<State>, events: seq<Event>) {
    && |states| == |events| + 1
    && states[0].table == map[]
    && forall i | 0 <= i < |events| :: Next(norm, states[i], events[i], states[i + 1])
  }

  ghost predicate OneCrossSourceEach(table: Table) {
    forall t :: OneCrossSource(Get(table, t))
  }

  lemma NextKeepsOneCrossSource(norm: string -> string, s: State, e: Event, u: State)
    requires Next(norm, s, e, u) && OneCrossSourceEach(s.table)
    ensures OneCrossSourceEach(u.table)
  {
    hide Step, Finds;
    match e
    case Edit(_) =>
    case Decide(token, i, status, value, source) =>
      assert OneCrossSource(Get(s.table, token));
    case ScanRaises(token, candidates, recommended) =>
      assert OneCrossSource(Get(s.table, token));
    case Pass =>
      var find :| Finds(find) && Passed(norm, find, s.fields, s.table, u.table);
      forall t
        ensures OneCrossSource(Get(u.table, t))
      {
        assert OneCrossSource(Get(s.table, t));
        StepKeepsOneCrossSource(norm, find, t, Entries(s.fields, t), Get(s.table, t));
      }
  }

  /** In every run, no token ever has more than one cross-source row. */
  lemma {:induction false} OneCrossSourceInEveryRun(norm: string -> string, states: seq<State>, events: seq<Event>, i: nat)
    requires Run(norm, states, events) && i < |states|
    ensures OneCrossSourceEach(states[i].table)
  {
    hide Next;
    if i > 0 {
      OneCrossSourceInEveryRun(norm, states, events, i - 1);
      NextKeepsOneCrossSource(norm, states[i - 1], events[i - 1], states[i]);
    }
  }

  /**
   * Right after a pass, every token whose sources disagree has an open row showing the current values or a
   * decision about exactly them.
   */
  lemma EveryPassCovers(norm: string -> string, s: State, u: State, token: string)
    requires Next(norm, s, Pass, u) && Disagrees(norm, Entries(u.fields, token))
    ensures var entries := Entries(u.fields, token);
            exists c | c in Get(u.table, token) :: Covers(c, entries) && (Matches(c, Open) ==> Shows(c, entries))
  {
    hide Step, Disagrees, Entries, Finds;
    var find :| Finds(find) && Passed(norm, find, s.fields, s.table, u.table);
    StepCovers(norm, find, token, Entries(u.fields, token), Get(s.table, token));
  }

  ghost predicate NoDocumentRows(table: Table) {
    forall t :: DocumentRows(Get(table, t)) == 0
  }

  lemma NextKeepsNoDocumentRows(norm: string -> string, s: State, e: Event, u: State)
    requires Next(norm, s, e, u) && NoDocumentRows(s.table) && !e.ScanRaises?
    ensures NoDocumentRows(u.table)
  {
    hide Step, Finds, DocumentRows;
    match e
    case Edit(_) =>
    case Decide(token, i, status, value, source) =>
      SettleKeepsDocumentRows(Get(s.table, token), i, status, value, source);
    case Pass =>
      var find :| Finds(find) && Passed(norm, find, s.fields, s.table, u.table);
      forall t
        ensures DocumentRows(Get(u.table, t)) == 0
      {
        PassBalances(norm, find, t, Entries(s.fields, t), Get(s.table, t));
      }
  }

  lemma SettleKeepsDocumentRows(rows: seq<Conflict>, i: nat, status: Status, value: string, source: Source)
    requires i < |rows|
    ensures DocumentRows(rows[i := Settle(rows[i], status, value, source)]) == DocumentRows(rows)
  {
    hide Count;
    CountUpdate(rows, (c: Conflict) => c.origin == CrossDocument, i, Settle(rows[i], status, value, source));
  }

  lemma {:induction false} NoDocumentRowsWithoutScans(norm: string -> string, states: seq<State>, events: seq<Event>, i: nat)
    requires Run(norm, states, events) && i < |states|
    requires forall e | e in events :: !e.ScanRaises?
    ensures NoDocumentRows(states[i].table)
  {
    hide Next;
    if i > 0 {
      NoDocumentRowsWithoutScans(norm, states, events, i - 1);
      assert events[i - 1] in events;
      NextKeepsNoDocumentRows(norm, states[i - 1], events[i - 1], states[i]);
    }
  }

  lemma {:induction false} AllCrossSource(rows: seq<Conflict>)
    requires DocumentRows(rows) == 0
    ensures forall i | 0 <= i < |rows| :: rows[i].origin == CrossSource
  {
    if rows != [] {
      AllCrossSource(rows[..|rows| - 1]);
    }
  }

  /**
   * In a run without questions from document scans, a pass leaves no stale decision on a token whose
   * sources disagree, and a second pass, with no edit between, changes and raises nothing at all.
   */
  lemma PassesConvergeWithoutScans(norm: string -> string, states: seq<State>, events: seq<Event>, i: nat, again: State)
    requires Run(norm, states, events) && 0 < i < |states| && i <= |events| && events[i - 1] == Pass
    requires forall e | e in events :: !e.ScanRaises?
    requires Next(norm, states[i], Pass, again)
    ensures var s := states[i];
            && (forall token | Disagrees(norm, Entries(s.fields, token)) ::
                  NoneStale(Get(s.table, token), Entries(s.fields, token)))
            && (forall token :: Get(again.table, token) == Get(s.table, token))
            && (forall find | Finds(find) :: Raised(norm, find, s.fields, s.table, Keys(s.fields)) == 0)
  {
    hide Step, Disagrees, Entries, Finds, Quiet, NoneStale, Run, Next, Get, Raised, Keys;
    RunStep(norm, states, events, i - 1);
    var s := states[i];
    forall token: string
      ensures Quiet(norm, Entries(s.fields, token), Get(s.table, token))
      ensures Disagrees(norm, Entries(s.fields, token)) ==> NoneStale(Get(s.table, token), Entries(s.fields, token))
      ensures Get(again.table, token) == Get(s.table, token)
    {
      AtMostOneRow(norm, states, events, i - 1, token);
      PassSettlesOneRow(norm, states[i - 1], s, again, token);
    }
    forall find | Finds(find)
      ensures Raised(norm, find, s.fields, s.table, Keys(s.fields)) == 0
    {
      QuietRaisesNothing(norm, find, s.fields, s.table, Keys(s.fields));
    }
  }

  lemma RunStep(norm: string -> string, states: seq<State>, events: seq<Event>, i: nat)
    requires Run(norm, states, events) && i + 1 < |states|
    ensures i < |events| && Next(norm, states[i], events[i], states[i + 1])
  {
  }

  lemma FirstTwo(rows: seq<Conflict>)
    requires OneCrossSource(rows)
    ensures |rows| > 1 ==> rows[0].origin == CrossDocument || rows[1].origin == CrossDocument
  {
  }

  lemma AtMostOneRow(norm: string -> string, states: seq<State>, events: seq<Event>, i: nat, token: string)
    requires Run(norm, states, events) && i < |states|
    requires forall e | e in events :: !e.ScanRaises?
    ensures |Get(states[i].table, token)| <= 1
  {
    hide Run, DocumentRows;
    assert i < |states|;
    OneCrossSourceInEveryRun(norm, states, events, i);
    NoDocumentRowsWithoutScans(norm, states, events, i);
    AllCrossSource(Get(states[i].table, token));
    var rows := Get(states[i].table, token);
    FirstTwo(rows);
  }

  lemma PassSettlesOneRow(norm: string -> string, s: State, u: State, again: State, token: string)
    requires Next(norm, s, Pass, u) && Next(norm, u, Pass, again) && |Get(s.table, token)| <= 1
    ensures var entries := Entries(u.fields, token);
            && (Disagrees(norm, entries) ==> NoneStale(Get(u.table, token), entries))
            && Quiet(norm, entries, Get(u.table, token))
            && Get(again.table, token) == Get(u.table, token)
  {
    hide Step, Disagrees, Entries, Finds, Quiet, NoneStale;
    var entries := Entries(u.fields, token);
    var find :| Finds(find) && Passed(norm, find, s.fields, s.table, u.table);
    var other :| Finds(other) && Passed(norm, other, u.fields, u.table, again.table);
    NoStaleDecisionExactly(norm, token, entries, Get(s.table, token));
    SettlingIsQuiet(norm, find, token, entries, Get(s.table, token));
    QuietIsIdle(norm, other, token, entries, Get(u.table, token));
  }

  /** When every token is quiet, a pass raises nothing. */
  lemma {:induction false} QuietRaisesNothing(norm: string -> string, find: Finder, fields: seq<FieldRow>,
                                              table: Table, keys: seq<string>)
    requires Finds(find) && forall t | t in keys :: Quiet(norm, Entries(fields, t), Get(table, t))
    ensures Raised(norm, find, fields, table, keys) == 0
  {
    hide Step, Quiet, Entries, Finds, Get;
    if keys != [] {
      var last := keys[|keys| - 1];
      QuietRaisesNothing(norm, find, fields, table, keys[..|keys| - 1]);
      QuietIsIdle(norm, find, last, Entries(fields, last), Get(table, last));
    }
  }

  // ---------------------------------------------------------------- Decisions that outlive their question

  function Row(value: string, source: Source): FieldRow {
    FieldRow("t", Some(value), None, None, source, None, false)
  }

  lemma RowsOfTwo(a: FieldRow, b: FieldRow, t: string)
    requires a.token == "t" && b.token == "t"
    ensures RowsOf([a, b], t) == if t == "t" then [a, b] else []
  {
    assert [a][..0] == [] && RowsOf([a], t) == if t == "t" then [a] else [];
    assert [a, b][..1] == [a];
  }

  lemma WithValuesOfTwo(a: FieldRow, b: FieldRow)
    requires DisplayValue(a).Some? && DisplayValue(b).Some?
    ensures WithValues([a, b]) == [Entry(DisplayValue(a).value, a.source), Entry(DisplayValue(b).value, b.source)]
    ensures WithValues([]) == []
  {
    hide DisplayValue;
    assert [a][..0] == [] && WithValues([a]) == [Entry(DisplayValue(a).value, a.source)];
    assert [a, b][..1] == [a];
  }

  lemma TwoSources(a: FieldRow, b: FieldRow)
    requires a.token == "t" && b.token == "t" && DisplayValue(a).Some? && DisplayValue(b).Some?
    ensures Entries([a, b], "t") == [Entry(DisplayValue(a).value, a.source), Entry(DisplayValue(b).value, b.source)]
    ensures forall t | t != "t" :: Entries([a, b], t) == []
  {
    hide DisplayValue, RowsOf, WithValues;
    WithValuesOfTwo(a, b);
    assert |FACT_PREFIX| > |"t"|;
    forall t
      ensures RowsOf([a, b], t) == if t == "t" then [a, b] else []
    {
      RowsOfTwo(a, b, t);
    }
  }

  lemma ValuesOfTwo(a: string, b: string, s: Source, u: Source)
    ensures Values([Entry(a, s), Entry(b, u)]) == {a, b}
  {
    var es := [Entry(a, s), Entry(b, u)];
    assert es[0] in es && es[1] in es;
    assert forall e :: e in es ==> e == es[0] || e == es[1];
  }

  lemma TwoDisagree(norm: string -> string, a: string, b: string, s: Source, u: Source)
    requires norm(a) != norm(b)
    ensures Disagrees(norm, [Entry(a, s), Entry(b, u)])
  {
    var es := [Entry(a, s), Entry(b, u)];
    assert es[1] in es && es[0].value == a;
  }

  /** Two decided rows, both about other values than these: a pass reopens one, and the other stays in force. */
  lemma OneStaysStale(norm: string -> string, find: Finder, token: string, entries: seq<Entry>, rows: seq<Conflict>)
    requires Finds(find) && Disagrees(norm, entries) && |rows| == 2
    requires forall i | 0 <= i < 2 :: Matches(rows[i], Decided) && !Covers(rows[i], entries)
    ensures !NoneStale(Step(norm, find, token, entries, rows).rows, entries)
  {
    hide Step, Disagrees, Covers, Ranked;
    assert rows[0] in rows;
    StepInDisagreement(norm, find, token, entries, rows);
    var after := Step(norm, find, token, entries, rows).rows;
    var i := find(token, rows, Decided).value;
    assert after[1 - i] == rows[1 - i] && after[1 - i] in after;
  }

  /** The run of the next lemma, state by state: each is one event on from the one before. */
  function DecidedTwice(payload: seq<Entry>): seq<State>
    requires payload != []
  {
    var first := [Row("A", KarbonClient), Row("B", PriorYearDocument)];
    var later := [Row("C", KarbonClient), Row("B", PriorYearDocument)];
    var asked := Conflict(CrossSource, Unresolved, payload, payload[0], None, None);
    var documents := [Entry("B", PriorYearDocument), Entry("D", PriorYearDocument)];
    var scanned := Conflict(CrossDocument, Unresolved, documents, documents[0], None, None);
    var decided := Settle(asked, Resolved, "A", KarbonClient);
    [State([], map[]),
     State(first, map[]),
     State(first, map["t" := [asked]]),
     State(first, map["t" := [decided]]),
     State(first, map["t" := [decided, scanned]]),
     State(first, map["t" := [decided, Settle(scanned, Resolved, "B", PriorYearDocument)]]),
     State(later, map["t" := [decided, Settle(scanned, Resolved, "B", PriorYearDocument)]])]
  }

  const TWO_DECISIONS: seq<Event> := [
    Edit([Row("A", KarbonClient), Row("B", PriorYearDocument)]),
    Pass,
    Decide("t", 0, Resolved, "A", KarbonClient),
    ScanRaises("t", [Entry("B", PriorYearDocument), Entry("D", PriorYearDocument)], Entry("B", PriorYearDocument)),
    Decide("t", 1, Resolved, "B", PriorYearDocument),
    Edit([Row("C", KarbonClient), Row("B", PriorYearDocument)])]

  lemma FirstPass(norm: string -> string, find: Finder, payload: seq<Entry>)
    requires Finds(find) && norm("A") != norm("B")
    requires payload == Ranked([Entry("A", KarbonClient), Entry("B", PriorYearDocument)])
    ensures payload != []
    ensures var states := DecidedTwice(payload); Passed(norm, find, states[1].fields, states[1].table, states[2].table)
  {
    hide Step, Ranked, Disagrees, Entries, Finds;
    var a, b := Row("A", KarbonClient), Row("B", PriorYearDocument);
    TwoSources(a, b);
    TwoDisagree(norm, "A", "B", KarbonClient, PriorYearDocument);
    var entries := [Entry("A", KarbonClient), Entry("B", PriorYearDocument)];
    StepInDisagreement(norm, find, "t", entries, []);
    var states := DecidedTwice(payload);
    forall t
      ensures Get(states[2].table, t) == Step(norm, find, t, Entries([a, b], t), Get(states[1].table, t)).rows
    {
      if t == "t" {
        FirstAsked(norm, find, entries, payload);
      } else {
        NoEntriesNoChange(norm, find, t);
      }
    }
  }

  lemma FirstAsked(norm: string -> string, find: Finder, entries: seq<Entry>, payload: seq<Entry>)
    requires Finds(find) && Disagrees(norm, entries) && payload == Ranked(entries) && payload != []
    ensures Step(norm, find, "t", entries, []).rows == [Conflict(CrossSource, Unresolved, payload, payload[0], None, None)]
  {
    hide Ranked, Values;
    if |Values(entries)| < 2 {
      FewValuesAgree(norm, entries);
    }
  }

  lemma NoEntriesNoChange(norm: string -> string, find: Finder, token: string)
    requires Finds(find)
    ensures Step(norm, find, token, [], []).rows == []
  {
  }

  lemma DecidedTwiceIsARun(norm: string -> string, find: Finder, payload: seq<Entry>)
    requires Finds(find) && norm("A") != norm("B")
    requires payload == Ranked([Entry("A", KarbonClient), Entry("B", PriorYearDocument)])
    ensures payload != [] && Run(norm, DecidedTwice(payload), TWO_DECISIONS)
  {
    hide Step, Ranked, Finds;
    FirstPass(norm, find, payload);
    var states := DecidedTwice(payload);
    forall i | 0 <= i < |TWO_DECISIONS|
      ensures Next(norm, states[i], TWO_DECISIONS[i], states[i + 1])
    {
      match i
      case 0 =>
      case 1 => assert Passed(norm, find, states[1].fields, states[1].table, states[2].table);
      case 2 => assert Get(states[3].table, "t") == Get(states[2].table, "t")[0 := Get(states[3].table, "t")[0]];
      case 3 => assert Get(states[4].table, "t") == Get(states[3].table, "t") + [Get(states[4].table, "t")[1]];
      case 4 => assert Get(states[5].table, "t") == Get(states[4].table, "t")[1 := Get(states[5].table, "t")[1]];
      case 5 =>
    }
  }

  lemma RunGoesOn(norm: string -> string, states: seq<State>, events: seq<Event>, e: Event, u: State)
    requires Run(norm, states, events) && Next(norm, states[|states| - 1], e, u)
    ensures Run(norm, states + [u], events + [e])
  {
    hide Next;
  }

  /** A pass over two sources of one token. */
  lemma PassOverTwo(norm: string -> string, find: Finder, a: FieldRow, b: FieldRow, s: State) returns (u: State)
    requires Finds(find) && a.token == "t" && b.token == "t" && DisplayValue(a).Some? && DisplayValue(b).Some?
    requires s.fields == [a, b] && s.table.Keys == {"t"}
    ensures Next(norm, s, Pass, u) && u.fields == s.fields
    ensures Get(u.table, "t") == Step(norm, find, "t", Entries(s.fields, "t"), Get(s.table, "t")).rows
  {
    hide Step, Entries, Finds, DisplayValue;
    TwoSources(a, b);
    u := State(s.fields, map["t" := Step(norm, find, "t", Entries(s.fields, "t"), Get(s.table, "t")).rows]);
    forall t
      ensures Get(u.table, t) == Step(norm, find, t, Entries(s.fields, t), Get(s.table, t)).rows
    {
      if t != "t" {
        NoEntriesNoChange(norm, find, t);
      }
    }
    assert Passed(norm, find, s.fields, s.table, u.table);
  }

  /**
   * A run in which two questions about one token are decided, one of them a document scan's, and a source then
   * changes: whichever rows the queries return, the next pass reopens one decision and leaves the other in force.
   */
  lemma SecondDecisionStaysInForce(norm: string -> string, find: Finder) returns (states: seq<State>)
    requires Finds(find) && norm("A") != norm("B") && norm("C") != norm("B")
    ensures Run(norm, states, TWO_DECISIONS + [Pass])
    ensures var s := states[|states| - 1];
            var entries := Entries(s.fields, "t");
            Disagrees(norm, entries) && !NoneStale(Get(s.table, "t"), entries)
  {
    hide Step, Ranked, Finds, Disagrees, Entries, Values, Run, NoneStale, Next;
    var before := [Entry("A", KarbonClient), Entry("B", PriorYearDocument)];
    var payload := Ranked(before);
    DecidedTwiceIsARun(norm, find, payload);
    states := DecidedTwice(payload);
    var s := states[6];
    var entries := [Entry("C", KarbonClient), Entry("B", PriorYearDocument)];
    TwoSources(Row("C", KarbonClient), Row("B", PriorYearDocument));
    TwoDisagree(norm, "C", "B", KarbonClient, PriorYearDocument);
    RankedSame(before);
    ValuesOfTwo("A", "B", KarbonClient, PriorYearDocument);
    ValuesOfTwo("B", "D", PriorYearDocument, PriorYearDocument);
    ValuesOfTwo("C", "B", KarbonClient, PriorYearDocument);
    assert "A" !in {"C", "B"} && "D" !in {"C", "B"};
    OneStaysStale(norm, find, "t", entries, Get(s.table, "t"));
    var u := PassOverTwo(norm, find, Row("C", KarbonClient), Row("B", PriorYearDocument), s);
    RunGoesOn(norm, states, TWO_DECISIONS, Pass, u);
    states := states + [u];
  }

  // ---------------------------------------------------------------- What prints

  /** The conflict rows of one token as the effective values read them. */
  function AsRead(token: string, rows: seq<Conflict>): seq<ConflictRow> {
    seq(|rows|, i requires 0 <= i < |rows| =>
      ConflictRow(token, Decision(rows[i].status, rows[i].resolvedValue, rows[i].resolvedSource)))
  }

  /**
   * When the sources of a token have come to agree, a pass leaves its one decision standing, and the decision is
   * what prints: whatever the sources now say, if none is overridden and no date or fee is calculated for it.
   */
  lemma StandingDecisionPrints(norm: string -> string, find: Finder, order: string -> real, tables: Tables,
                               token: string, decided: Conflict)
    requires Finds(find) && !Disagrees(norm, Entries(tables.fields, token))
    requires Matches(decided, Decided) && OrEmpty(decided.resolvedValue) != ""
    requires tables.conflicts == AsRead(token, Step(norm, find, token, Entries(tables.fields, token), [decided]).rows)
    requires RowsOf(tables.fields, token) != [] && forall row | row in RowsOf(tables.fields, token) :: row.manualOverride.None?
    requires LastDate(tables.dates, token).None? && LastFee(tables.fees, token).None?
    ensures var v := Layered(order, tables, token);
            v.Some? && v.value.value == decided.resolvedValue.value && v.value.origin == FromField
  {
    hide Step, Entries, Disagrees, RowsOf, LastDate, LastFee, CandidatesOf, First, Filter;
    StepInAgreement(norm, find, token, Entries(tables.fields, token), [decided]);
    NothingCleared([decided]);
    assert tables.conflicts == AsRead(token, [decided]);
    var row := tables.conflicts[0];
    assert tables.conflicts == [row];
    LastOfOne(row);
    var cs := CandidatesOf(RowsOf(tables.fields, token));
    CandidatesHave(RowsOf(tables.fields, token));
    NothingOverridden(order, cs, Some(row.decision));
  }

  /**
   * What a person chose last prints, under the source it was chosen from, unless a row is overridden or a date or fee
   * is calculated.
   */
  lemma ChoicePrints(order: string -> real, tables: Tables, token: string, asked: seq<Conflict>, value: string,
                     source: Source)
    requires asked != [] && value != ""
    requires var i := |asked| - 1;
             tables.conflicts == AsRead(token, asked[i := Settle(asked[i], Resolved, value, source)])
    requires RowsOf(tables.fields, token) != [] && forall row | row in RowsOf(tables.fields, token) :: row.manualOverride.None?
    requires LastDate(tables.dates, token).None? && LastFee(tables.fees, token).None?
    ensures Layered(order, tables, token) == Some(Effective(value, FromField, Some(source), Some(ConflictResolution)))
  {
    hide RowsOf, LastDate, LastFee, CandidatesOf, First, Filter;
    var decision := LastDecision(tables.conflicts, token);
    assert decision == Some(Decision(Resolved, Some(value), Some(source)));
    var cs := CandidatesOf(RowsOf(tables.fields, token));
    CandidatesHave(RowsOf(tables.fields, token));
    NothingOverridden(order, cs, decision);
  }

  lemma LastOfOne(row: ConflictRow)
    ensures LastDecision([row], row.token) == Some(row.decision)
  {
  }

  lemma NothingOverridden(order: string -> real, cs: seq<Candidate>, d: Option<Decision>)
    requires Decides(d) && forall c | c in cs :: !Overridden(c)
    ensures var r := ResolveFieldValue(order, cs, d);
            && r.Some? && r.value.value == OrEmpty(d.value.resolvedValue) && r.value.basis == ConflictResolution
            && (d.value.resolvedSource.Some? ==> r.value.source == d.value.resolvedSource.value)
  {
    hide Filter, First;
    FilterHas(cs, HasValue);
    FilterHas(Filter(cs, HasValue), Overridden);
    SomeOrNone(Filter(Filter(cs, HasValue), Overridden));
  }

  /** So a decision for A prints A after both sources have come to say B. */
  lemma AgreedSourcesPrintOldDecision(norm: string -> string, find: Finder, order: string -> real)
    requires Finds(find)
    ensures var fields := [Row("B", KarbonClient), Row("B", PriorYearDocument)];
            var entries := Entries(fields, "t");
            var decided := Conflict(CrossSource, Resolved, [Entry("A", KarbonClient), Entry("B", PriorYearDocument)],
                                    Entry("A", KarbonClient), Some("A"), Some(KarbonClient));
            var after := Step(norm, find, "t", entries, [decided]).rows;
            var v := Layered(order, Tables(fields, AsRead("t", after), [], [], None), "t");
            && Values(entries) == {"B"} && !NoneStale(after, entries)
            && v.Some? && v.value.value == "A"
  {
    hide Step, Layered, Ranked, RowsOf, Entries, Values, AsRead, LastDate, LastFee, Disagrees;
    var fields := [Row("B", KarbonClient), Row("B", PriorYearDocument)];
    var decided := Conflict(CrossSource, Resolved, [Entry("A", KarbonClient), Entry("B", PriorYearDocument)],
                            Entry("A", KarbonClient), Some("A"), Some(KarbonClient));
    var entries := Entries(fields, "t");
    TwoSources(fields[0], fields[1]);
    ValuesOfTwo("B", "B", KarbonClient, PriorYearDocument);
    ValuesOfTwo("A", "B", KarbonClient, PriorYearDocument);
    TwoAlike(norm, "B", KarbonClient, PriorYearDocument);
    assert "A" !in {"B"} && {"B", "B"} == {"B"};
    var after := Step(norm, find, "t", entries, [decided]).rows;
    StepInAgreement(norm, find, "t", entries, [decided]);
    NothingCleared([decided]);
    FirstIsIn([decided]);
    RowsOfTwo(fields[0], fields[1], "t");
    NoDates();
    NoFees();
    StandingDecisionPrints(norm, find, order, Tables(fields, AsRead("t", after), [], [], None), "t", decided);
  }

  lemma TwoAlike(norm: string -> string, a: string, s: Source, u: Source)
    ensures !Disagrees(norm, [Entry(a, s), Entry(a, u)])
  {
  }
}
