/** Which table's value prints, said of the rows themselves. */
module EffectiveLaws {
  import opened Basics
  import opened IsoText
  import opened FieldValues
  import opened EffectiveValues

  /** The fees that own a token, each by the kind of fee it is. */
  predicate FeeOwns(kind: string, token: string) {
    (kind, token) in {("T1_PREPARATION", "pricing.t1_fee"), ("T2_PREPARATION", "pricing.t2_fee"),
                      ("T3_PREPARATION", "pricing.t3_fee"), ("CSRS_4200_COMPILATION", "pricing.compilation_fee")}
  }

  predicate FeeSpeaks(row: FeeRow, token: string) {
    FeeOwns(row.kind, token) && row.roundedFee.Some?
  }

  predicate DateSpeaks(row: DateRow, token: string) {
    row.token == token && (row.manualOverride.Some? || row.result.Some?)
  }

  /** The last row of a list that a test picks. */
  predicate IsLast<T>(rows: seq<T>, i: int, speaks: T -> bool) {
    0 <= i < |rows| && speaks(rows[i]) && forall j | i < j < |rows| :: !speaks(rows[j])
  }

  lemma FeeTokenOwns(kind: string, token: string)
    ensures FeeToken(kind) == Some(token) <==> FeeOwns(kind, token)
  {
  }

  lemma {:induction false} LastFeeIs(fees: seq<FeeRow>, token: string, i: int)
    ensures IsLast(fees, i, (f: FeeRow) => FeeSpeaks(f, token)) ==> LastFee(fees, token) == fees[i].roundedFee
    ensures (forall f | f in fees :: !FeeSpeaks(f, token)) ==> LastFee(fees, token) == None
  {
    hide FeeToken, FeeOwns;
    if fees != [] {
      var n := |fees| - 1;
      assert fees == fees[..n] + [fees[n]];
      FeeTokenOwns(fees[n].kind, token);
      LastFeeIs(fees[..n], token, i);
      assert fees[n] in fees && forall f | f in fees[..n] :: f in fees;
      if IsLast(fees, i, (f: FeeRow) => FeeSpeaks(f, token)) && i < n {
        assert !FeeSpeaks(fees[n], token);
        assert IsLast(fees[..n], i, (f: FeeRow) => FeeSpeaks(f, token));
      }
    }
  }

  lemma {:induction false} LastDateIs(dates: seq<DateRow>, token: string, i: int)
    ensures IsLast(dates, i, (d: DateRow) => DateSpeaks(d, token)) ==>
              LastDate(dates, token) == if dates[i].manualOverride.Some? then dates[i].manualOverride else dates[i].result
    ensures (forall d | d in dates :: !DateSpeaks(d, token)) ==> LastDate(dates, token) == None
  {
    if dates != [] {
      var n := |dates| - 1;
      assert dates == dates[..n] + [dates[n]];
      LastDateIs(dates[..n], token, i);
      assert dates[n] in dates && forall d | d in dates[..n] :: d in dates;
      if IsLast(dates, i, (d: DateRow) => DateSpeaks(d, token)) && i < n {
        assert !DateSpeaks(dates[n], token);
        assert IsLast(dates[..n], i, (d: DateRow) => DateSpeaks(d, token));
      }
    }
  }

  lemma {:induction false} LastDecisionIs(conflicts: seq<ConflictRow>, token: string, i: int)
    ensures IsLast(conflicts, i, (c: ConflictRow) => c.token == token) ==>
              LastDecision(conflicts, token) == Some(conflicts[i].decision)
    ensures (forall c | c in conflicts :: c.token != token) ==> LastDecision(conflicts, token) == None
  {
    if conflicts != [] {
      var n := |conflicts| - 1;
      assert conflicts == conflicts[..n] + [conflicts[n]];
      LastDecisionIs(conflicts[..n], token, i);
      assert conflicts[n] in conflicts && forall c | c in conflicts[..n] :: c in conflicts;
      if IsLast(conflicts, i, (c: ConflictRow) => c.token == token) && i < n {
        assert conflicts[n].token != token;
        assert IsLast(conflicts[..n], i, (c: ConflictRow) => c.token == token);
      }
    }
  }

  /** A calculated fee prints before everything else: the last one of the kind that owns the token. */
  lemma FeePrintsFirst(order: string -> real, tables: Tables, token: string, i: int)
    requires IsLast(tables.fees, i, (f: FeeRow) => FeeSpeaks(f, token))
    ensures Layered(order, tables, token)
            == Some(Effective(tables.fees[i].roundedFee.value, FromCalculatedFee, None, None))
  {
    hide FieldLayer, LastDate, LastFee;
    LastFeeIs(tables.fees, token, i);
  }

  /** Without one, the last settled date of the token does, a person's own before the calculated. */
  lemma DatePrintsNext(order: string -> real, tables: Tables, token: string, i: int)
    requires forall f | f in tables.fees :: !FeeSpeaks(f, token)
    requires IsLast(tables.dates, i, (d: DateRow) => DateSpeaks(d, token))
    ensures var row := tables.dates[i];
            var day := if row.manualOverride.Some? then row.manualOverride.value else row.result.value;
            Layered(order, tables, token) == Some(Effective(ToIsoDate(day), FromCalculatedDate, None, None))
  {
    hide FieldLayer, LastDate, LastFee, ToIsoDate;
    LastFeeIs(tables.fees, token, -1);
    LastDateIs(tables.dates, token, i);
  }

  /** Without either, the field rows as the precedence between them resolves, the decision being the token's last. */
  lemma FieldPrintsThen(order: string -> real, tables: Tables, token: string, decision: Option<Decision>)
    requires forall f | f in tables.fees :: !FeeSpeaks(f, token)
    requires forall d | d in tables.dates :: !DateSpeaks(d, token)
    requires match decision
             case None => forall c | c in tables.conflicts :: c.token != token
             case Some(d) => exists i ::
               IsLast(tables.conflicts, i, (c: ConflictRow) => c.token == token) && tables.conflicts[i].decision == d
    requires exists f | f in tables.fields :: f.token == token
    ensures var r := ResolveFieldValue(order, CandidatesOf(RowsOf(tables.fields, token)), decision);
            && (r.Some? ==> Layered(order, tables, token)
                            == Some(Effective(r.value.value, FromField, Some(r.value.source), Some(r.value.basis))))
            && (r.None? ==> Layered(order, tables, token) == YearOf(tables, token))
  {
    hide CandidatesOf, ResolveFieldValue, RowsOf, LastDate, LastFee, LastDecision;
    LastFeeIs(tables.fees, token, -1);
    LastDateIs(tables.dates, token, -1);
    if decision.Some? {
      var i :| IsLast(tables.conflicts, i, (c: ConflictRow) => c.token == token)
               && tables.conflicts[i].decision == decision.value;
      LastDecisionIs(tables.conflicts, token, i);
    } else {
      LastDecisionIs(tables.conflicts, token, -1);
    }
    RowsHave(tables.fields, token);
    var f :| f in tables.fields && f.token == token;
    assert f in RowsOf(tables.fields, token);
  }

  /** The engagement's year, for its own token only. */
  function YearOf(tables: Tables, token: string): Option<Effective> {
    if token == "engagement.tax_year" && tables.taxYear.Some?
    then Some(Effective(tables.taxYear.value, FromEngagement, None, None)) else None
  }

  /** With nothing in any table only the engagement's year is left. */
  lemma YearPrintsLast(order: string -> real, tables: Tables, token: string)
    requires forall f | f in tables.fees :: !FeeSpeaks(f, token)
    requires forall d | d in tables.dates :: !DateSpeaks(d, token)
    requires forall f | f in tables.fields :: f.token != token
    ensures Layered(order, tables, token) == YearOf(tables, token)
  {
    hide CandidatesOf, ResolveFieldValue, RowsOf, LastDate, LastFee;
    LastFeeIs(tables.fees, token, -1);
    LastDateIs(tables.dates, token, -1);
    RowsHave(tables.fields, token);
    if RowsOf(tables.fields, token) != [] {
      FirstIsIn(RowsOf(tables.fields, token));
    }
  }

  /** What a row contributes: its decimal, else its date, else its text; its own override and confirmation. */
  lemma RowContributes(row: FieldRow)
    ensures var c := CandidateOf(row);
            && c.source == row.source && c.manualOverride == row.manualOverride && c.confirmed == row.confirmed
            && (row.valueDecimal.Some? ==> c.value == row.valueDecimal)
            && (row.valueDecimal.None? && row.valueDate.Some? ==> c.value == Some(ToIsoDate(row.valueDate.value)))
            && (row.valueDecimal.None? && row.valueDate.None? ==> c.value == row.value)
  {
  }
}
