/**
 * What a pass compares against what the letter would use.
 *
 * A pass reads a row's stored text before its decimal and date; the effective value reads them the other way
 * round. Here is when that can change whether the sources agree, and two rows about one day for which it does.
 */
module ShownValues {
  import opened Basics
  import opened Gregorian
  import opened IsoText
  import opened FieldValues
  import opened EffectiveValues
  import opened Reconcile

  // ---------------------------------------------------------------- The normalisation

  /** White space, commas and full stops, of which any run is one space. */
  predicate IsGap(c: char) {
    IsSpace(c) || c == ',' || c == '.'
  }

  /** Curly quotes and long dashes in their plain form. */
  function Plain(c: char): char {
    var n := c as int;
    if n == 0x2018 || n == 0x2019 then '\''
    else if n == 0x201C || n == 0x201D then '\"'
    else if n == 0x2013 || n == 0x2014 then '-'
    else c
  }

  function Squeezed(s: string): string {
    if s == [] then []
    else
      var front := Squeezed(s[..|s| - 1]);
      if !IsGap(s[|s| - 1]) then front + [Plain(s[|s| - 1])]
      else if |s| >= 2 && IsGap(s[|s| - 2]) then front
      else front + " "
  }

  /** `valuesAgree` compares texts after this. */
  function Normalised(lower: string -> string, s: string): string {
    lower(Trim(Squeezed(s)))
  }

  lemma {:induction false} GapSqueezed(s: string, gap: string)
    requires gap != "" && forall c | c in gap :: IsGap(c)
    ensures Squeezed(s + gap) == if s != "" && IsGap(s[|s| - 1]) then Squeezed(s) else Squeezed(s) + " "
  {
    hide IsGap;
    var n := |gap| - 1;
    assert (s + gap)[..|s + gap| - 1] == s + gap[..n] && gap == gap[..n] + [gap[n]];
    if n > 0 {
      GapSqueezed(s, gap[..n]);
    } else {
      assert s + gap[..n] == s;
    }
  }

  /** What a gap is made of, and how long it is, makes no difference to agreement. */
  lemma {:induction false} GapsAgree(before: string, gap: string, other: string, behind: string)
    requires gap != "" && forall c | c in gap :: IsGap(c)
    requires other != "" && forall c | c in other :: IsGap(c)
    ensures Squeezed(before + gap + behind) == Squeezed(before + other + behind)
  {
    hide IsGap;
    if behind == "" {
      assert before + gap + behind == before + gap && before + other + behind == before + other;
      GapSqueezed(before, gap);
      GapSqueezed(before, other);
    } else {
      var n := |behind| - 1;
      var s, t := before + gap + behind, before + other + behind;
      assert s[..|s| - 1] == before + gap + behind[..n] && t[..|t| - 1] == before + other + behind[..n];
      GapsAgree(before, gap, other, behind[..n]);
      LastOfThree(before, gap, behind[..n]);
      LastOfThree(before, other, behind[..n]);
    }
  }

  lemma LastOfThree(before: string, gap: string, behind: string)
    requires gap != "" && forall c | c in gap :: IsGap(c)
    ensures var s := before + gap + behind;
            IsGap(s[|s| - 1]) <==> behind == "" || IsGap(behind[|behind| - 1])
  {
  }

  /** A quotation mark or dash and its plain form. */
  predicate PlainFormOf(c: char, plain: char) {
    (c as int, plain) in {(0x2018, '\''), (0x2019, '\''), (0x201C, '\"'), (0x201D, '\"'), (0x2013, '-'), (0x2014, '-')}
  }

  lemma PlainFormIs(c: char, plain: char)
    requires PlainFormOf(c, plain)
    ensures !IsGap(c) && !IsGap(plain) && Plain(c) == plain && Plain(plain) == plain
  {
  }

  /** Nor does writing a quotation mark or a dash in its plain form. */
  lemma {:induction false} PlainFormsAgree(before: string, c: char, plain: char, behind: string)
    requires PlainFormOf(c, plain)
    ensures Squeezed(before + [c] + behind) == Squeezed(before + [plain] + behind)
  {
    hide IsGap, Plain, PlainFormOf;
    PlainFormIs(c, plain);
    var s, t := before + [c] + behind, before + [plain] + behind;
    if behind == "" {
      assert s[..|s| - 1] == before && t[..|t| - 1] == before;
    } else {
      var n := |behind| - 1;
      assert s[..|s| - 1] == before + [c] + behind[..n] && t[..|t| - 1] == before + [plain] + behind[..n];
      PlainFormsAgree(before, c, plain, behind[..n]);
      if n > 0 {
        assert s[|s| - 2] == behind[n - 1] && t[|t| - 2] == behind[n - 1];
      }
    }
  }

  // ---------------------------------------------------------------- The rows as the letter uses them

  /** The row with nothing but the text it would contribute. */
  function AsUsedRow(row: FieldRow): FieldRow {
    row.(value := UsedValue(row), valueDecimal := None, valueDate := None, manualOverride := None)
  }

  function AsUsed(fields: seq<FieldRow>): seq<FieldRow> {
    if fields == [] then [] else AsUsed(fields[..|fields| - 1]) + [AsUsedRow(fields[|fields| - 1])]
  }

  /** What the row shows and what it contributes read alike. */
  predicate Alike(norm: string -> string, row: FieldRow) {
    match (DisplayValue(row), UsedValue(row))
    case (None, None) => true
    case (Some(shown), Some(used)) => norm(shown) == norm(used)
    case _ => false
  }

  lemma UsedRowShowsIt(row: FieldRow)
    ensures DisplayValue(AsUsedRow(row)) == UsedValue(row)
  {
  }

  lemma {:induction false} RowsAsUsed(fields: seq<FieldRow>, token: string)
    ensures RowsOf(AsUsed(fields), token) == AsUsed(RowsOf(fields, token))
    ensures forall f :: f in RowsOf(fields, token) <==> f in fields && f.token == token
  {
    hide UsedValue;
    if fields != [] {
      var n := |fields| - 1;
      assert fields == fields[..n] + [fields[n]];
      RowsAsUsed(fields[..n], token);
      var front, used := RowsOf(fields[..n], token), AsUsed(fields[..n]);
      assert (front + [fields[n]])[..|front|] == front && front + [] == front;
      assert (used + [AsUsedRow(fields[n])])[..|used|] == used;
    }
  }

  /** The two lists of entries, one beside the other. */
  lemma {:induction false} EntriesAlike(norm: string -> string, rows: seq<FieldRow>)
    requires forall f | f in rows :: Alike(norm, f)
    ensures var shown, used := WithValues(rows), WithValues(AsUsed(rows));
            |shown| == |used| && forall i | 0 <= i < |shown| :: norm(shown[i].value) == norm(used[i].value)
  {
    hide DisplayValue, UsedValue, AsUsedRow;
    if rows != [] {
      var n := |rows| - 1;
      assert forall f | f in rows[..n] :: f in rows;
      assert rows[n] in rows;
      EntriesAlike(norm, rows[..n]);
      UsedRowShowsIt(rows[n]);
    }
  }

  lemma AlikeAgree(norm: string -> string, shown: seq<Entry>, used: seq<Entry>)
    requires |shown| == |used| && forall i | 0 <= i < |shown| :: norm(shown[i].value) == norm(used[i].value)
    ensures Disagrees(norm, shown) ==> Disagrees(norm, used)
  {
    if Disagrees(norm, shown) {
      var e :| e in shown && norm(e.value) != norm(shown[0].value);
      var i :| 0 <= i < |shown| && shown[i] == e;
      assert used[i] in used;
    }
  }

  /** A row whose stored text is all it holds. */
  function TextRow(token: string, text: string): FieldRow {
    FieldRow(token, Some(text), None, None, KarbonClient, None, false)
  }

  /**
   * Exactly when a row cannot change whether a pass finds agreement, whatever rows that read alike stand beside
   * it: when what it shows and what it contributes read alike.
   */
  lemma RowIsHarmlessExactly(norm: string -> string, row: FieldRow)
    requires !IsFact(row.token) && row.valueDecimal != Some("") && norm("1") != norm("2")
    ensures Alike(norm, row) <==>
            forall fields: seq<FieldRow> | (forall f | f in fields && f != row :: Alike(norm, f)) ::
              Disagrees(norm, Entries(fields, row.token)) == Disagrees(norm, Entries(AsUsed(fields), row.token))
  {
    hide Disagrees, Alike, WithValues, RowsOf, AsUsed;
    if Alike(norm, row) {
      forall fields: seq<FieldRow> | forall f | f in fields && f != row :: Alike(norm, f)
        ensures Disagrees(norm, Entries(fields, row.token)) == Disagrees(norm, Entries(AsUsed(fields), row.token))
      {
        AlikeRowsAreHarmless(norm, fields, row.token);
      }
    } else {
      var other := Misled(norm, row);
      var fields := [row, other];
      assert forall f | f in fields && f != row :: Alike(norm, f);
    }
  }

  /** Rows that all read alike: a pass finds agreement exactly when the values the letter would use agree. */
  lemma AlikeRowsAreHarmless(norm: string -> string, fields: seq<FieldRow>, token: string)
    requires forall f | f in fields && f.token == token :: Alike(norm, f)
    ensures Disagrees(norm, Entries(fields, token)) == Disagrees(norm, Entries(AsUsed(fields), token))
  {
    hide Disagrees, Alike, WithValues, RowsOf, AsUsed;
    RowsAsUsed(fields, token);
    var rows := RowsOf(fields, token);
    if !IsFact(token) {
      EntriesAlike(norm, rows);
      AlikeAgree(norm, WithValues(rows), WithValues(AsUsed(rows)));
      AlikeAgree(norm, WithValues(AsUsed(rows)), WithValues(rows));
    }
  }

  lemma EntriesOfTwo(a: FieldRow, b: FieldRow)
    requires a.token == b.token && !IsFact(a.token)
    requires DisplayValue(b).Some?
    ensures Entries([a, b], a.token)
            == (if DisplayValue(a).Some? then [Entry(DisplayValue(a).value, a.source)] else [])
               + [Entry(DisplayValue(b).value, b.source)]
    ensures AsUsed([a, b]) == [AsUsedRow(a), AsUsedRow(b)]
  {
    hide DisplayValue, AsUsedRow;
    assert [a, b][..1] == [a] && [a][..0] == [];
    assert RowsOf([a], a.token) == [a] && RowsOf([a, b], a.token) == [a, b];
    assert WithValues([a]) == if DisplayValue(a).Some? then [Entry(DisplayValue(a).value, a.source)] else [];
    assert AsUsed([a]) == [AsUsedRow(a)];
  }

  /** A row can only fail to read alike by showing something. */
  lemma OnlyShownMisleads(norm: string -> string, row: FieldRow)
    requires row.valueDecimal != Some("") && !Alike(norm, row)
    ensures DisplayValue(row).Some? && DisplayValue(row).value != ""
  {
    if row.valueDate.Some? {
      assert |ToIsoDate(row.valueDate.value)| == 10;
    }
  }

  lemma TextRowIsAlike(norm: string -> string, token: string, text: string)
    requires text != ""
    ensures DisplayValue(TextRow(token, text)) == UsedValue(TextRow(token, text)) == Some(text)
    ensures Alike(norm, TextRow(token, text))
  {
  }

  /** A companion beside which a row that does not read alike misleads a pass. */
  lemma Misled(norm: string -> string, row: FieldRow) returns (other: FieldRow)
    requires !IsFact(row.token) && row.valueDecimal != Some("") && norm("1") != norm("2") && !Alike(norm, row)
    ensures Alike(norm, other)
    ensures Disagrees(norm, Entries([row, other], row.token))
            != Disagrees(norm, Entries(AsUsed([row, other]), row.token))
  {
    hide DisplayValue, UsedValue, Entries, AsUsed;
    OnlyShownMisleads(norm, row);
    var shown := DisplayValue(row).value;
    var text := if UsedValue(row).Some? then shown else if norm(shown) == norm("1") then "2" else "1";
    other := TextRow(row.token, text);
    TextRowIsAlike(norm, row.token, text);
    UsedRowShowsIt(row);
    UsedRowShowsIt(other);
    EntriesOfTwo(row, other);
    EntriesOfTwo(AsUsedRow(row), AsUsedRow(other));
    TwoDisagree(norm, Entry(shown, row.source), Entry(text, other.source));
    if UsedValue(row).Some? {
      TwoDisagree(norm, Entry(UsedValue(row).value, row.source), Entry(text, other.source));
    }
  }

  lemma TwoDisagree(norm: string -> string, a: Entry, b: Entry)
    ensures Disagrees(norm, [a, b]) <==> norm(a.value) != norm(b.value)
    ensures !Disagrees(norm, [b])
  {
    assert b in [a, b];
  }

  // ---------------------------------------------------------------- One day, written two ways

  const YEAR_END := "corporation.year_end"

  /** The year-end as a scan of a letter stores it: the words it read, and the day they name. */
  function LetterRow(day: int): FieldRow {
    FieldRow(YEAR_END, Some("December 31, 2025"), None, Some(day), PriorYearDocument, None, false)
  }

  /** The year-end as it is recorded for the client: the day alone. */
  function ClientRow(day: int): FieldRow {
    FieldRow(YEAR_END, None, None, Some(day), KarbonClient, None, false)
  }

  predicate IsWord(s: string) {
    forall c | c in s :: !IsGap(c) && Plain(c) == c
  }

  lemma {:induction false} WordStands(s: string, word: string)
    requires IsWord(word)
    ensures Squeezed(s + word) == Squeezed(s) + word
  {
    if word == [] {
      assert s + word == s;
    } else {
      var n := |word| - 1;
      assert (s + word)[..|s + word| - 1] == s + word[..n] && word == word[..n] + [word[n]];
      WordStands(s, word[..n]);
    }
  }

  lemma {:induction false} GapIsSpace(s: string, gap: string)
    requires s != "" && !IsGap(s[|s| - 1])
    requires gap != "" && forall c | c in gap :: IsGap(c)
    ensures Squeezed(s + gap) == Squeezed(s) + " "
  {
    var n := |gap| - 1;
    assert (s + gap)[..|s + gap| - 1] == s + gap[..n] && gap == gap[..n] + [gap[n]];
    if n > 0 {
      GapIsSpace(s, gap[..n]);
    } else {
      assert s + gap[..n] == s;
    }
  }

  lemma DateSqueezed(month: string, day: string, year: string)
    requires month != "" && day != "" && IsWord(month) && IsWord(day) && IsWord(year)
    ensures Squeezed(month + " " + day + ", " + year) == month + " " + day + " " + year
  {
    hide Squeezed;
    NothingSqueezed();
    WordStands("", month);
    assert "" + month == month;
    GapIsSpace(month, " ");
    WordStands(month + " ", day);
    GapIsSpace(month + " " + day, ", ");
    WordStands(month + " " + day + ", ", year);
  }

  lemma LettersAndDigits()
    ensures forall c: char | '0' <= c <= '9' || 'A' <= c <= 'Z' || 'a' <= c <= 'z' || c == '-' ::
              !IsGap(c) && !IsSpace(c) && Plain(c) == c
  {
  }

  lemma WordsOfTheDay()
    ensures IsWord("December") && IsWord("31") && IsWord("2025") && IsWord("2025-12-31")
    ensures Tight("December 31 2025") && Tight("2025-12-31")
  {
    hide IsGap, IsSpace, Plain;
    LettersAndDigits();
  }

  lemma LetterReads(lower: string -> string)
    ensures Normalised(lower, "December 31, 2025") == lower("December 31 2025")
  {
    hide Squeezed, Trim, IsWord, Tight;
    WordsOfTheDay();
    DateSqueezed("December", "31", "2025");
    assert "December" + " " + "31" + ", " + "2025" == "December 31, 2025";
    assert "December" + " " + "31" + " " + "2025" == "December 31 2025";
    TightIsTrimmed("December 31 2025");
  }

  lemma NothingSqueezed()
    ensures Squeezed("") == ""
  {
  }

  lemma DayReads(lower: string -> string)
    ensures Normalised(lower, "2025-12-31") == lower("2025-12-31")
  {
    hide Squeezed, Trim, IsWord, Tight;
    WordsOfTheDay();
    NothingSqueezed();
    WordStands("", "2025-12-31");
    assert "" + "2025-12-31" == "2025-12-31";
    TightIsTrimmed("2025-12-31");
  }

  lemma YearEndPrints()
    ensures ToIsoDate(DayNumber(2025, 12, 31)) == "2025-12-31"
  {
    hide ToIsoDate, DayNumber;
    var s := "2025-12-31";
    assert LooksIso(s) && Written(s) == Civil(2025, 12, 31);
    assert UtcDate(2025, 12, 31) == DayNumber(2025, 12, 31);
    RealTextSurvives(s, Civil(2025, 12, 31));
  }

  lemma WhatTheyHold(day: int)
    requires day == DayNumber(2025, 12, 31)
    ensures !IsFact(YEAR_END)
    ensures DisplayValue(ClientRow(day)) == UsedValue(ClientRow(day)) == UsedValue(LetterRow(day)) == Some("2025-12-31")
    ensures DisplayValue(LetterRow(day)) == Some("December 31, 2025")
  {
    hide ToIsoDate, DayNumber;
    YearEndPrints();
    assert YEAR_END[0] == 'c' && FACT_PREFIX[0] == 'f';
    assert |"2025-12-31"| == 10;
  }

  /**
   * The letter's words and the client's day name one year-end, and either row would put the same text in the
   * letter. The pass compares the words with the day all the same, and asks which of the two is right.
   */
  lemma OneDayIsAskedAbout(lower: string -> string, find: Finder, day: int)
    requires Finds(find) && day == DayNumber(2025, 12, 31)
    requires lower("December 31 2025") != lower("2025-12-31")
    ensures var norm := (s: string) => Normalised(lower, s);
            var fields := [ClientRow(day), LetterRow(day)];
            && UsedValue(LetterRow(day)) == UsedValue(ClientRow(day)) == Some("2025-12-31")
            && DisplayValue(LetterRow(day)) == Some("December 31, 2025")
            && !Disagrees(norm, Entries(AsUsed(fields), YEAR_END))
            && Disagrees(norm, Entries(fields, YEAR_END))
            && Step(norm, find, YEAR_END, Entries(fields, YEAR_END), []).raised == 1
  {
    hide Squeezed, Trim, ToIsoDate, DayNumber, Entries, AsUsed, Step, Ranked, DisplayValue, UsedValue, Disagrees;
    var norm := (s: string) => Normalised(lower, s);
    var a, b := ClientRow(day), LetterRow(day);
    WhatTheyHold(day);
    UsedRowShowsIt(a);
    UsedRowShowsIt(b);
    EntriesOfTwo(a, b);
    EntriesOfTwo(AsUsedRow(a), AsUsedRow(b));
    var was, said := Entry("2025-12-31", KarbonClient), Entry("December 31, 2025", PriorYearDocument);
    var same := Entry("2025-12-31", PriorYearDocument);
    assert Entries([a, b], YEAR_END) == [was, said] && Entries(AsUsed([a, b]), YEAR_END) == [was, same];
    LetterReads(lower);
    DayReads(lower);
    TwoDisagree(norm, was, said);
    TwoDisagree(norm, was, same);
    StepInDisagreement(norm, find, YEAR_END, Entries([a, b], YEAR_END), []);
  }
}
