/** The single reader: one effective value per token, out of the four tables that can supply one. */
module EffectiveValues {
  import opened Basics
  import opened IsoText
  import opened FieldValues

  datatype FieldRow = FieldRow(
    token: string,
    value: Option<string>,
    valueDecimal: Option<string>,
    valueDate: Option<int>,
    source: Source,
    manualOverride: Option<string>,
    confirmed: bool)

  datatype ConflictRow = ConflictRow(token: string, decision: Decision)

  datatype DateRow = DateRow(token: string, result: Option<int>, manualOverride: Option<int>)

  datatype FeeRow = FeeRow(kind: string, roundedFee: Option<string>)

  /** A decimal and the tax year are carried as the text they print as. */
  datatype Tables = Tables(
    fields: seq<FieldRow>,
    conflicts: seq<ConflictRow>,
    dates: seq<DateRow>,
    fees: seq<FeeRow>,
    taxYear: Option<string>)

  datatype Origin = FromField | FromCalculatedDate | FromCalculatedFee | FromEngagement

  datatype Effective = Effective(value: string, origin: Origin, source: Option<Source>, basis: Option<Basis>)

  const COMPILATION_FEE := "pricing.compilation_fee"
  const TAX_YEAR := "engagement.tax_year"

  function FeeToken(kind: string): Option<string> {
    if kind == "T1_PREPARATION" then Some("pricing.t1_fee")
    else if kind == "T2_PREPARATION" then Some("pricing.t2_fee")
    else if kind == "T3_PREPARATION" then Some("pricing.t3_fee")
    else if kind == "CSRS_4200_COMPILATION" then Some(COMPILATION_FEE)
    else None
  }

  // ---------------------------------------------------------------- What each table says about a token

  function CandidateOf(row: FieldRow): Candidate {
    Candidate(if row.valueDecimal.Some? then row.valueDecimal
              else if row.valueDate.Some? then Some(ToIsoDate(row.valueDate.value))
              else row.value,
              row.source, row.manualOverride, row.confirmed)
  }

  function CandidatesOf(rows: seq<FieldRow>): (cs: seq<Candidate>)
    ensures |cs| == |rows|
  {
    seq(|rows|, i requires 0 <= i < |rows| => CandidateOf(rows[i]))
  }

  function RowsOf(fields: seq<FieldRow>, token: string): seq<FieldRow> {
    if fields == [] then []
    else
      var last := fields[|fields| - 1];
      RowsOf(fields[..|fields| - 1], token) + (if last.token == token then [last] else [])
  }

  function LastDecision(conflicts: seq<ConflictRow>, token: string): Option<Decision> {
    if conflicts == [] then None
    else
      var last := conflicts[|conflicts| - 1];
      if last.token == token then Some(last.decision) else LastDecision(conflicts[..|conflicts| - 1], token)
  }

  function Settled(row: DateRow): Option<int> {
    if row.manualOverride.Some? then row.manualOverride else row.result
  }

  function LastDate(dates: seq<DateRow>, token: string): Option<int> {
    if dates == [] then None
    else
      var last := dates[|dates| - 1];
      if last.token == token && Settled(last).Some? then Settled(last) else LastDate(dates[..|dates| - 1], token)
  }

  function LastFee(fees: seq<FeeRow>, token: string): Option<string> {
    if fees == [] then None
    else
      var last := fees[|fees| - 1];
      if FeeToken(last.kind) == Some(token) && last.roundedFee.Some? then last.roundedFee
      else LastFee(fees[..|fees| - 1], token)
  }

  // ---------------------------------------------------------------- The layers

  function FieldLayer(order: string -> real, tables: Tables, token: string): Option<Effective> {
    var rows := RowsOf(tables.fields, token);
    if rows == [] then None
    else
      var r := ResolveFieldValue(order, CandidatesOf(rows), LastDecision(tables.conflicts, token));
      if r.None? then None else Some(Effective(r.value.value, FromField, Some(r.value.source), Some(r.value.basis)))
  }

  function OverDate(under: Option<Effective>, date: Option<int>): Option<Effective> {
    if date.None? then under else Some(Effective(ToIsoDate(date.value), FromCalculatedDate, None, None))
  }

  function OverFee(under: Option<Effective>, fee: Option<string>): Option<Effective> {
    if fee.None? then under else Some(Effective(fee.value, FromCalculatedFee, None, None))
  }

  function UnderTaxYear(over: Option<Effective>, taxYear: Option<string>, token: string): Option<Effective> {
    if over.None? && token == TAX_YEAR && taxYear.Some? then Some(Effective(taxYear.value, FromEngagement, None, None))
    else over
  }

  /** The layered lookup: the fee, else the settled date, else the field rows, else the engagement's year. */
  function Layered(order: string -> real, tables: Tables, token: string): Option<Effective> {
    UnderTaxYear(
      OverFee(
        OverDate(FieldLayer(order, tables, token), LastDate(tables.dates, token)),
        LastFee(tables.fees, token)),
      tables.taxYear, token)
  }

  // ---------------------------------------------------------------- The code that fills the map

  /** The map holds exactly what a lookup answers about the wanted tokens. */
  ghost predicate Holds(effective: map<string, Effective>, tokens: seq<string>, lookup: string -> Option<Effective>) {
    forall t :: (t in effective <==> t in tokens && lookup(t).Some?) && (t in effective ==> lookup(t) == Some(effective[t]))
  }

  lemma HoldsAfterPut(effective: map<string, Effective>, tokens: seq<string>, before: string -> Option<Effective>,
                      after: string -> Option<Effective>, token: string, v: Effective)
    requires Holds(effective, tokens, before) && token in tokens && after(token) == Some(v)
    requires forall t | t != token && t in tokens :: after(t) == before(t)
    ensures Holds(effective[token := v], tokens, after)
  {
  }

  lemma HoldsUnchanged(effective: map<string, Effective>, tokens: seq<string>, before: string -> Option<Effective>,
                       after: string -> Option<Effective>)
    requires Holds(effective, tokens, before)
    requires forall t | t in tokens :: after(t) == before(t)
    ensures Holds(effective, tokens, after)
  {
  }

  lemma RowsExtend(fields: seq<FieldRow>, i: nat)
    requires i < |fields|
    ensures forall t :: RowsOf(fields[..i + 1], t)
                        == RowsOf(fields[..i], t) + if fields[i].token == t then [fields[i]] else []
  {
    assert fields[..i + 1][..i] == fields[..i];
  }

  lemma NoRows()
    ensures forall t :: RowsOf([], t) == []
  {
  }

  method FillRows(tokens: seq<string>, fields: seq<FieldRow>)
    returns (keys: seq<string>, rowsByToken: map<string, seq<FieldRow>>)
    ensures forall t :: t in keys <==> t in rowsByToken
    ensures forall t :: t in rowsByToken <==> t in tokens && RowsOf(fields, t) != []
    ensures forall t | t in rowsByToken :: rowsByToken[t] == RowsOf(fields, t)
  {
    hide RowsOf;
    keys, rowsByToken := [], map[];
    NoRows();
    assert fields[..0] == [];
    var i := 0;
    while i < |fields|
      invariant 0 <= i <= |fields|
      invariant forall t :: t in keys <==> t in rowsByToken
      invariant forall t :: t in rowsByToken <==> t in tokens && RowsOf(fields[..i], t) != []
      invariant forall t | t in rowsByToken :: rowsByToken[t] == RowsOf(fields[..i], t)
    {
      var field := fields[i];
      RowsExtend(fields, i);
      if field.token in tokens {
        var bucket := if field.token in rowsByToken then rowsByToken[field.token] else [];
        if field.token !in rowsByToken {
          keys := keys + [field.token];
        }
        rowsByToken := rowsByToken[field.token := bucket + [field]];
      }
      i := i + 1;
    }
    assert fields[..i] == fields;
  }

  method FieldValuesOf(order: string -> real, tokens: seq<string>, tables: Tables)
    returns (effective: map<string, Effective>)
    ensures Holds(effective, tokens, t => FieldLayer(order, tables, t))
  {
    hide ResolveFieldValue;
    var keys, rowsByToken := FillRows(tokens, tables.fields);
    effective := map[];
    var i := 0;
    while i < |keys|
      invariant 0 <= i <= |keys|
      invariant forall t :: t in effective ==> t in keys[..i]
      invariant forall t | t in keys[..i] ::
        (t in effective <==> FieldLayer(order, tables, t).Some?)
        && (t in effective ==> FieldLayer(order, tables, t) == Some(effective[t]))
    {
      var token := keys[i];
      assert token in keys;
      var resolved := ResolveFieldValue(order, CandidatesOf(rowsByToken[token]), LastDecision(tables.conflicts, token));
      if resolved.Some? {
        effective := effective[token := Effective(resolved.value.value, FromField,
                                                  Some(resolved.value.source), Some(resolved.value.basis))];
      }
      assert keys[..i + 1] == keys[..i] + [token];
      i := i + 1;
    }
    assert keys[..i] == keys;
  }

  lemma NoDates()
    ensures forall t :: LastDate([], t) == None
  {
  }

  lemma NoFees()
    ensures forall t :: LastFee([], t) == None
  {
  }

  lemma DatesExtend(dates: seq<DateRow>, i: nat)
    requires i < |dates|
    ensures forall t :: LastDate(dates[..i + 1], t)
                        == if dates[i].token == t && Settled(dates[i]).Some? then Settled(dates[i])
                          else LastDate(dates[..i], t)
  {
    var longer := dates[..i + 1];
    assert longer[..i] == dates[..i] && longer[i] == dates[i];
    forall t: string
      ensures LastDate(longer, t)
              == if dates[i].token == t && Settled(dates[i]).Some? then Settled(dates[i]) else LastDate(dates[..i], t)
    {
    }
  }

  lemma FeesExtend(fees: seq<FeeRow>, i: nat)
    requires i < |fees|
    ensures forall t :: LastFee(fees[..i + 1], t)
                        == if FeeToken(fees[i].kind) == Some(t) && fees[i].roundedFee.Some? then fees[i].roundedFee
                           else LastFee(fees[..i], t)
  {
    hide FeeToken;
    assert fees[..i + 1][..i] == fees[..i];
  }

  method LayDates(tokens: seq<string>, dates: seq<DateRow>, start: map<string, Effective>,
                  ghost under: string -> Option<Effective>)
    returns (effective: map<string, Effective>)
    requires Holds(start, tokens, under)
    ensures Holds(effective, tokens, t => OverDate(under(t), LastDate(dates, t)))
  {
    hide Holds, LastDate, Settled, ToIsoDate;
    effective := start;
    var i := 0;
    NoDates();
    assert dates[..0] == [];
    HoldsUnchanged(effective, tokens, under, t => OverDate(under(t), LastDate(dates[..0], t)));
    while i < |dates|
      invariant 0 <= i <= |dates|
      invariant Holds(effective, tokens, t => OverDate(under(t), LastDate(dates[..i], t)))
    {
      var date := dates[i];
      ghost var before := t => OverDate(under(t), LastDate(dates[..i], t));
      ghost var after := t => OverDate(under(t), LastDate(dates[..i + 1], t));
      DatesExtend(dates, i);
      if date.token in tokens && Settled(date).Some? {
        var v := Effective(ToIsoDate(Settled(date).value), FromCalculatedDate, None, None);
        HoldsAfterPut(effective, tokens, before, after, date.token, v);
        effective := effective[date.token := v];
      } else {
        HoldsUnchanged(effective, tokens, before, after);
      }
      i := i + 1;
    }
    assert dates[..i] == dates;
    HoldsUnchanged(effective, tokens,
                   t => OverDate(under(t), LastDate(dates[..i], t)), t => OverDate(under(t), LastDate(dates, t)));
  }

  method LayFees(tokens: seq<string>, fees: seq<FeeRow>, start: map<string, Effective>,
                 ghost under: string -> Option<Effective>)
    returns (effective: map<string, Effective>)
    requires Holds(start, tokens, under)
    ensures Holds(effective, tokens, t => OverFee(under(t), LastFee(fees, t)))
  {
    hide Holds, FeeToken, LastFee;
    effective := start;
    var i := 0;
    NoFees();
    assert fees[..0] == [];
    HoldsUnchanged(effective, tokens, under, t => OverFee(under(t), LastFee(fees[..0], t)));
    while i < |fees|
      invariant 0 <= i <= |fees|
      invariant Holds(effective, tokens, t => OverFee(under(t), LastFee(fees[..i], t)))
    {
      var fee := fees[i];
      var token := FeeToken(fee.kind);
      ghost var before := t => OverFee(under(t), LastFee(fees[..i], t));
      ghost var after := t => OverFee(under(t), LastFee(fees[..i + 1], t));
      FeesExtend(fees, i);
      if token.Some? && token.value in tokens && fee.roundedFee.Some? {
        var v := Effective(fee.roundedFee.value, FromCalculatedFee, None, None);
        HoldsAfterPut(effective, tokens, before, after, token.value, v);
        effective := effective[token.value := v];
      } else {
        HoldsUnchanged(effective, tokens, before, after);
      }
      i := i + 1;
    }
    assert fees[..i] == fees;
    HoldsUnchanged(effective, tokens,
                   t => OverFee(under(t), LastFee(fees[..i], t)), t => OverFee(under(t), LastFee(fees, t)));
  }

  /** Successive overwriting of one map comes to the layered lookup, for every wanted token and no other. */
  method ResolveEffectiveValues(order: string -> real, tokens: seq<string>, tables: Tables)
    returns (effective: map<string, Effective>)
    ensures forall t :: t in effective <==> t in tokens && Layered(order, tables, t).Some?
    ensures forall t | t in effective :: Some(effective[t]) == Layered(order, tables, t)
  {
    hide FieldLayer, LastDate, LastFee;
    effective := FieldValuesOf(order, tokens, tables);
    ghost var field := t => FieldLayer(order, tables, t);
    effective := LayDates(tokens, tables.dates, effective, field);
    ghost var dated := t => OverDate(field(t), LastDate(tables.dates, t));
    effective := LayFees(tokens, tables.fees, effective, dated);
    ghost var priced := t => OverFee(dated(t), LastFee(tables.fees, t));
    ghost var full := t => Layered(order, tables, t);
    if TAX_YEAR in tokens && tables.taxYear.Some? && TAX_YEAR !in effective {
      var v := Effective(tables.taxYear.value, FromEngagement, None, None);
      HoldsAfterPut(effective, tokens, priced, full, TAX_YEAR, v);
      effective := effective[TAX_YEAR := v];
    } else {
      HoldsUnchanged(effective, tokens, priced, full);
    }
    assert Holds(effective, tokens, full);
  }

  // ---------------------------------------------------------------- Order of reading

  function Verdict(d: Option<Decision>): Option<FieldValue> {
    if Decides(d) then
      Some(FieldValue(OrEmpty(d.value.resolvedValue),
                      if d.value.resolvedSource.Some? then d.value.resolvedSource.value else ManualEntry,
                      ConflictResolution))
    else None
  }

  /** A token whose conflict rows the lookup never consults: something above them speaks, or nothing below them does. */
  predicate ConflictsUnread(tables: Tables, token: string) {
    || LastFee(tables.fees, token).Some?
    || LastDate(tables.dates, token).Some?
    || RowsOf(tables.fields, token) == []
    || exists row :: row in RowsOf(tables.fields, token) && Overridden(CandidateOf(row))
  }

  predicate OneVerdict(conflicts: seq<ConflictRow>, token: string) {
    forall c, d | c in conflicts && d in conflicts && c.token == token && d.token == token ::
      Verdict(Some(c.decision)) == Verdict(Some(d.decision))
  }

  lemma CandidatesHave(rows: seq<FieldRow>)
    ensures forall row | row in rows :: CandidateOf(row) in CandidatesOf(rows)
    ensures forall c | c in CandidatesOf(rows) :: exists row :: row in rows && CandidateOf(row) == c
  {
    forall row | row in rows
      ensures CandidateOf(row) in CandidatesOf(rows)
    {
      var i :| 0 <= i < |rows| && rows[i] == row;
      assert CandidatesOf(rows)[i] == CandidateOf(row);
    }
    forall c | c in CandidatesOf(rows)
      ensures exists row :: row in rows && CandidateOf(row) == c
    {
      var i :| 0 <= i < |rows| && CandidatesOf(rows)[i] == c;
      assert rows[i] in rows;
    }
  }

  /** What a decision can change: nothing once a row is overridden, and otherwise exactly its verdict. */
  lemma DecisionMatters(order: string -> real, cs: seq<Candidate>, d: Option<Decision>, e: Option<Decision>)
    ensures ResolveFieldValue(order, cs, d) == ResolveFieldValue(order, cs, e)
            <==> (exists c | c in cs :: Overridden(c)) || Verdict(d) == Verdict(e)
  {
    hide Filter, First;
    FilterHas(cs, HasValue);
    FilterHas(Filter(cs, HasValue), Overridden);
    SomeOrNone(Filter(Filter(cs, HasValue), Overridden));
    if c :| c in cs && Overridden(c) {
      assert c in Filter(Filter(cs, HasValue), Overridden);
    }
  }

  lemma {:induction false} LastDecisionIsOne(conflicts: seq<ConflictRow>, token: string)
    ensures var d := LastDecision(conflicts, token);
            && (d.Some? ==> ConflictRow(token, d.value) in conflicts)
            && (d.None? ==> forall c | c in conflicts :: c.token != token)
  {
    if conflicts != [] {
      var n := |conflicts| - 1;
      assert conflicts == conflicts[..n] + [conflicts[n]];
      LastDecisionIsOne(conflicts[..n], token);
    }
  }

  function MovedLast(conflicts: seq<ConflictRow>, i: nat): (r: seq<ConflictRow>)
    requires i < |conflicts|
    ensures multiset(r) == multiset(conflicts)
  {
    assert conflicts == conflicts[..i] + [conflicts[i]] + conflicts[i + 1..];
    conflicts[..i] + conflicts[i + 1..] + [conflicts[i]]
  }

  lemma LayeredDependsOnVerdict(order: string -> real, tables: Tables, conflicts: seq<ConflictRow>, token: string)
    ensures var other := tables.(conflicts := conflicts);
            Layered(order, other, token) == Layered(order, tables, token)
            <==> ConflictsUnread(tables, token)
                 || Verdict(LastDecision(conflicts, token)) == Verdict(LastDecision(tables.conflicts, token))
  {
    hide ResolveFieldValue, LastDate, LastFee, RowsOf, LastDecision, CandidatesOf, ToIsoDate;
    var rows := RowsOf(tables.fields, token);
    var cs := CandidatesOf(rows);
    CandidatesHave(rows);
    DecisionMatters(order, cs, LastDecision(conflicts, token), LastDecision(tables.conflicts, token));
    assert (exists row :: row in rows && Overridden(CandidateOf(row))) <==> exists c | c in cs :: Overridden(c);
  }

  /** The stored order of the conflict rows shows exactly when two of a consulted token's rows give different verdicts. */
  lemma ConflictOrderIrrelevantExactly(order: string -> real, tables: Tables, token: string)
    ensures (forall other | multiset(other) == multiset(tables.conflicts) ::
               Layered(order, tables.(conflicts := other), token) == Layered(order, tables, token))
            <==> ConflictsUnread(tables, token) || OneVerdict(tables.conflicts, token)
  {
    hide Layered, ConflictsUnread, Verdict;
    var conflicts := tables.conflicts;
    if ConflictsUnread(tables, token) || OneVerdict(conflicts, token) {
      forall other | multiset(other) == multiset(conflicts)
        ensures Layered(order, tables.(conflicts := other), token) == Layered(order, tables, token)
      {
        LayeredDependsOnVerdict(order, tables, other, token);
        SameMembers(other, conflicts);
        LastDecisionIsOne(other, token);
        LastDecisionIsOne(conflicts, token);
      }
    } else {
      var c, d :| c in conflicts && d in conflicts && c.token == token && d.token == token
                  && Verdict(Some(c.decision)) != Verdict(Some(d.decision));
      var i :| 0 <= i < |conflicts| && conflicts[i] == c;
      var j :| 0 <= j < |conflicts| && conflicts[j] == d;
      LayeredDependsOnVerdict(order, tables, MovedLast(conflicts, i), token);
      LayeredDependsOnVerdict(order, tables, MovedLast(conflicts, j), token);
    }
  }

  /** One row on its own, with nothing above it: a decision if there is one, else the row. */
  lemma OneRowAlone(order: string -> real, row: FieldRow, conflicts: seq<ConflictRow>, token: string)
    requires row.token == token && row.valueDecimal.None? && row.valueDate.None? && row.value.Some? && row.value.value != ""
    requires row.manualOverride.None? && !row.confirmed
    ensures var d := LastDecision(conflicts, token);
            Layered(order, Tables([row], conflicts, [], [], None), token)
            == Some(if Decides(d)
                    then Effective(Verdict(d).value.value, FromField, Some(Verdict(d).value.source), Some(ConflictResolution))
                    else Effective(row.value.value, FromField, Some(row.source), Some(HighestPrioritySource)))
  {
    hide LastDecision, FeeToken, ToIsoDate;
    assert [row][..0] == [] && RowsOf([row], token) == [row];
    var c := CandidateOf(row);
    assert CandidatesOf([row]) == [c];
    OneCandidateAlone(order, c, LastDecision(conflicts, token));
  }

  lemma OneCandidateAlone(order: string -> real, c: Candidate, d: Option<Decision>)
    requires HasValue(c) && !Overridden(c) && !c.confirmed
    ensures ResolveFieldValue(order, [c], d)
            == Some(if Decides(d) then Verdict(d).value else FieldValue(OrEmpty(c.value), c.source, HighestPrioritySource))
  {
    hide Filter, First;
    var confirmed := (c: Candidate) => c.confirmed;
    KeepOne(c, HasValue);
    KeepOne(c, Overridden);
    KeepOne(c, confirmed);
    FirstOfNone(order);
    FirstOfOne(order, c);
  }

  lemma KeepOne(c: Candidate, p: Candidate -> bool)
    ensures Filter([c], p) == if p(c) then [c] else []
  {
    assert [c][1..] == [];
  }

  lemma FirstOfNone(order: string -> real)
    ensures First(order, []) == None
  {
  }

  lemma FirstOfOne(order: string -> real, c: Candidate)
    ensures First(order, [c]) == Some(c)
  {
    assert [c][..0] == [];
  }

  /** Two conflict rows for one token, one decided and one open: the decision applies only when its row is read last. */
  lemma DecisionLostBehindOpenRow(order: string -> real)
    ensures var row := FieldRow("client.name", Some("Old"), None, None, PriorYearDocument, None, false);
            var decided := ConflictRow("client.name", Decision(Resolved, Some("New"), Some(KarbonClient)));
            var open := ConflictRow("client.name", Decision(Unresolved, None, None));
            var first, second := Layered(order, Tables([row], [decided, open], [], [], None), "client.name"),
                                 Layered(order, Tables([row], [open, decided], [], [], None), "client.name");
            first.Some? && second.Some? && first.value.value == "Old" && second.value.value == "New"
  {
    hide Layered;
    var row := FieldRow("client.name", Some("Old"), None, None, PriorYearDocument, None, false);
    var decided := ConflictRow("client.name", Decision(Resolved, Some("New"), Some(KarbonClient)));
    var open := ConflictRow("client.name", Decision(Unresolved, None, None));
    OneRowAlone(order, row, [decided, open], "client.name");
    OneRowAlone(order, row, [open, decided], "client.name");
  }

  /** The assumption the tables are read under: one row per token and source, per token, and per fee. */
  ghost predicate OneRowEach(tables: Tables) {
    && (forall a, b | a in tables.fields && b in tables.fields :: a.token == b.token && a.source == b.source ==> a == b)
    && (forall a, b | a in tables.conflicts && b in tables.conflicts :: a.token == b.token ==> a == b)
    && (forall a, b | a in tables.dates && b in tables.dates :: a.token == b.token ==> a == b)
    && (forall a, b | a in tables.fees && b in tables.fees :: a.kind == b.kind ==> a == b)
  }

  ghost predicate Reordered(a: Tables, b: Tables) {
    && multiset(a.fields) == multiset(b.fields)
    && multiset(a.conflicts) == multiset(b.conflicts)
    && multiset(a.dates) == multiset(b.dates)
    && multiset(a.fees) == multiset(b.fees)
    && a.taxYear == b.taxYear
  }

  lemma {:induction false} RowsHave(fields: seq<FieldRow>, token: string)
    ensures forall row :: row in RowsOf(fields, token) <==> row in fields && row.token == token
  {
    if fields != [] {
      var n := |fields| - 1;
      assert fields == fields[..n] + [fields[n]];
      RowsHave(fields[..n], token);
    }
  }

  lemma {:induction false} LastDateIsOne(dates: seq<DateRow>, token: string)
    ensures var d := LastDate(dates, token);
            && (d.Some? ==> exists row :: row in dates && row.token == token && Settled(row) == d)
            && (d.None? ==> forall row | row in dates && row.token == token :: Settled(row).None?)
  {
    if dates != [] {
      var n := |dates| - 1;
      assert dates == dates[..n] + [dates[n]];
      LastDateIsOne(dates[..n], token);
      if LastDate(dates[..n], token).Some? {
        var row :| row in dates[..n] && row.token == token && Settled(row) == LastDate(dates[..n], token);
        assert row in dates;
      }
      assert dates[n] in dates;
    }
  }

  lemma KindsApart(a: string, b: string)
    requires FeeToken(a).Some? && FeeToken(a) == FeeToken(b)
    ensures a == b
  {
    assert "pricing.t1_fee"[9] == '1' && "pricing.t2_fee"[9] == '2' && "pricing.t3_fee"[9] == '3'
      && COMPILATION_FEE[9] == 'o';
  }

  lemma {:induction false} LastFeeIsOne(fees: seq<FeeRow>, token: string)
    ensures var d := LastFee(fees, token);
            && (d.Some? ==> exists row :: row in fees && FeeToken(row.kind) == Some(token) && row.roundedFee == d)
            && (d.None? ==> forall row | row in fees && FeeToken(row.kind) == Some(token) :: row.roundedFee.None?)
  {
    hide FeeToken;
    if fees != [] {
      var n := |fees| - 1;
      assert fees == fees[..n] + [fees[n]];
      LastFeeIsOne(fees[..n], token);
      if LastFee(fees[..n], token).Some? {
        var row :| row in fees[..n] && FeeToken(row.kind) == Some(token) && row.roundedFee == LastFee(fees[..n], token);
        assert row in fees;
      }
      assert fees[n] in fees;
    }
  }

  /** With one row each, the same rows in any order give every token the same value. */
  lemma LayeredIgnoresOrder(order: string -> real, a: Tables, b: Tables, token: string)
    requires OneRowEach(a) && Reordered(a, b)
    ensures Layered(order, a, token) == Layered(order, b, token)
  {
    hide FieldLayer, ToIsoDate, FeeToken;
    FieldLayerIgnoresOrder(order, a, b, token);
    SameMembers(a.dates, b.dates);
    LastDateIsOne(a.dates, token);
    LastDateIsOne(b.dates, token);
    SameMembers(a.fees, b.fees);
    LastFeeIsOne(a.fees, token);
    LastFeeIsOne(b.fees, token);
    assert LastFee(a.fees, token) == LastFee(b.fees, token) by {
      forall x, y | x in a.fees && y in a.fees && FeeToken(x.kind) == Some(token) && FeeToken(y.kind) == Some(token)
        ensures x == y
      {
        KindsApart(x.kind, y.kind);
      }
    }
  }

  lemma SameCandidates(a: seq<FieldRow>, b: seq<FieldRow>, token: string)
    requires multiset(a) == multiset(b)
    requires forall x, y | x in a && y in a :: x.token == y.token && x.source == y.source ==> x == y
    ensures RowsOf(a, token) == [] <==> RowsOf(b, token) == []
    ensures forall c :: c in CandidatesOf(RowsOf(a, token)) <==> c in CandidatesOf(RowsOf(b, token))
    ensures OnePerSource(CandidatesOf(RowsOf(a, token)))
  {
    hide CandidatesOf, ToIsoDate, RowsOf;
    var rows, others := RowsOf(a, token), RowsOf(b, token);
    SameMembers(a, b);
    RowsHave(a, token);
    RowsHave(b, token);
    CandidatesHave(rows);
    CandidatesHave(others);
    if rows != [] {
      assert rows[0] in others;
    }
    if others != [] {
      assert others[0] in rows;
    }
  }

  lemma SameDecision(a: seq<ConflictRow>, b: seq<ConflictRow>, token: string)
    requires multiset(a) == multiset(b)
    requires forall x, y | x in a && y in a :: x.token == y.token ==> x == y
    ensures LastDecision(a, token) == LastDecision(b, token)
  {
    SameMembers(a, b);
    LastDecisionIsOne(a, token);
    LastDecisionIsOne(b, token);
  }

  lemma FieldLayerIgnoresOrder(order: string -> real, a: Tables, b: Tables, token: string)
    requires OneRowEach(a) && Reordered(a, b)
    ensures FieldLayer(order, a, token) == FieldLayer(order, b, token)
  {
    hide ResolveFieldValue, CandidatesOf, LastDecision, RowsOf;
    SameCandidates(a.fields, b.fields, token);
    SameDecision(a.conflicts, b.conflicts, token);
    ResolutionIgnoresOrder(order, CandidatesOf(RowsOf(a.fields, token)), CandidatesOf(RowsOf(b.fields, token)),
                           LastDecision(a.conflicts, token));
  }

  /** A field row never contributes an empty value, so a token with only blank rows is not effective at all. */
  lemma FieldValueIsNeverEmpty(order: string -> real, tables: Tables, token: string)
    ensures var r := Layered(order, tables, token);
            r.Some? && r.value.origin == FromField ==> r.value.value != ""
  {
    hide ResolveFieldValue, CandidatesOf, ToIsoDate, RowsOf;
    NeverEmpty(order, CandidatesOf(RowsOf(tables.fields, token)), LastDecision(tables.conflicts, token));
  }
}
