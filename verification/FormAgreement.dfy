/** Two readers of the effective values: the review form's outstanding list and the letter's missing list. */
module FormAgreement {
  import opened Basics
  import opened EffectiveValues
  import opened FieldValues

  datatype DataType = StringType | MultilineType | DateType | MoneyType | YearType | BooleanType | EnumType

  datatype FieldDefinition = FieldDefinition(token: string, dataType: DataType, required: bool, requiredWhenSection: string)

  datatype Section = Section(key: string, controlledBy: string, requiredFields: seq<string>)

  datatype Manifest = Manifest(fields: seq<FieldDefinition>, sections: seq<Section>)

  datatype Selection = Selection(code: string, isSelected: bool)

  const COMPILATION := "csrs_4200"
  const NOT_APPLICABLE := "Not applicable"

  // ---------------------------------------------------------------- Which sections apply

  /** Several rows for a code leave the last one's answer. */
  function Selected(selections: seq<Selection>, code: string): bool {
    if selections == [] then false
    else
      var last := selections[|selections| - 1];
      if last.code == code then last.isSelected else Selected(selections[..|selections| - 1], code)
  }

  function SelectedKeys(sections: seq<Section>, selections: seq<Selection>): seq<string> {
    if sections == [] then []
    else
      var last := sections[|sections| - 1];
      SelectedKeys(sections[..|sections| - 1], selections)
      + (if Selected(selections, last.controlledBy) then [last.key] else [])
  }

  function WithoutFirst(keys: seq<string>, key: string): seq<string> {
    if keys == [] then [] else if keys[0] == key then keys[1..] else [keys[0]] + WithoutFirst(keys[1..], key)
  }

  predicate HasCompilation(manifest: Manifest) {
    exists s | s in manifest.sections :: s.key == COMPILATION
  }

  /** The selected sections, with the compilation section following the accountant's confirmation instead. */
  function Included(manifest: Manifest, selections: seq<Selection>, confirmed: bool): seq<string> {
    var keys := SelectedKeys(manifest.sections, selections);
    if !HasCompilation(manifest) then keys
    else if confirmed && COMPILATION !in keys then keys + [COMPILATION]
    else if !confirmed then WithoutFirst(keys, COMPILATION)
    else keys
  }

  method IncludedSections(manifest: Manifest, selections: seq<Selection>, compilation: Option<bool>)
    returns (included: seq<string>)
    ensures included == Included(manifest, selections, compilation == Some(true))
  {
    included := [];
    var i := 0;
    while i < |manifest.sections|
      invariant 0 <= i <= |manifest.sections|
      invariant included == SelectedKeys(manifest.sections[..i], selections)
    {
      assert manifest.sections[..i + 1][..i] == manifest.sections[..i];
      if Selected(selections, manifest.sections[i].controlledBy) {
        included := included + [manifest.sections[i].key];
      }
      i := i + 1;
    }
    assert manifest.sections[..i] == manifest.sections;
    if exists s | s in manifest.sections :: s.key == COMPILATION {
      var index := IndexOf(included, COMPILATION);
      if compilation == Some(true) && index == |included| {
        included := included + [COMPILATION];
      }
      if compilation != Some(true) {
        SpliceIsWithoutFirst(included, COMPILATION, index);
        if index != |included| {
          included := included[..index] + included[index + 1..];
        }
      }
    }
  }

  method IndexOf(keys: seq<string>, key: string) returns (i: nat)
    ensures i <= |keys| && key !in keys[..i]
    ensures i < |keys| ==> keys[i] == key
  {
    i := 0;
    while i < |keys| && keys[i] != key
      invariant i <= |keys| && key !in keys[..i]
    {
      i := i + 1;
    }
  }

  lemma {:induction false} SpliceIsWithoutFirst(keys: seq<string>, key: string, i: nat)
    requires i <= |keys| && key !in keys[..i] && (i < |keys| ==> keys[i] == key)
    ensures WithoutFirst(keys, key) == if i < |keys| then keys[..i] + keys[i + 1..] else keys
  {
    if i > 0 {
      assert keys[..i][0] == keys[0] && keys[..i][1..] == keys[1..][..i - 1];
      SpliceIsWithoutFirst(keys[1..], key, i - 1);
    }
  }

  function Times(keys: seq<string>, key: string): nat {
    multiset(keys)[key]
  }

  lemma {:induction false} WithoutFirstTimes(keys: seq<string>, key: string)
    ensures multiset(WithoutFirst(keys, key)) == multiset(keys) - multiset{key}
  {
    if keys != [] {
      assert keys == [keys[0]] + keys[1..];
      if keys[0] != key {
        WithoutFirstTimes(keys[1..], key);
      }
    }
  }

  /**
   * The compilation section applies exactly when the accountant confirmed it, except in a manifest that
   * declares the section twice with both copies selected: only the first copy is taken out again.
   */
  lemma CompilationFollowsConfirmationExactly(manifest: Manifest, selections: seq<Selection>, confirmed: bool)
    requires HasCompilation(manifest)
    ensures (COMPILATION in Included(manifest, selections, confirmed) <==> confirmed)
            <==> confirmed || Times(SelectedKeys(manifest.sections, selections), COMPILATION) <= 1
  {
    var keys := SelectedKeys(manifest.sections, selections);
    WithoutFirstTimes(keys, COMPILATION);
    assert COMPILATION in WithoutFirst(keys, COMPILATION) <==> COMPILATION in multiset(WithoutFirst(keys, COMPILATION));
    assert COMPILATION in Included(manifest, selections, confirmed)
           <==> COMPILATION in multiset(Included(manifest, selections, confirmed));
  }

  // ---------------------------------------------------------------- Which tokens are required

  predicate RequiredField(f: FieldDefinition, included: seq<string>) {
    if f.requiredWhenSection != "" then f.requiredWhenSection in included else f.required
  }

  function RequiredTokens(manifest: Manifest, included: seq<string>): set<string> {
    (set f | f in manifest.fields && RequiredField(f, included) :: f.token)
    + (set s, t | s in manifest.sections && s.key in included && t in s.requiredFields :: t)
  }

  predicate Declares(manifest: Manifest, token: string) {
    exists f | f in manifest.fields :: f.token == token
  }

  // ---------------------------------------------------------------- The form

  function Outstanding(order: string -> real, tables: Tables, required: set<string>, definitions: seq<string>): seq<string> {
    if definitions == [] then []
    else
      var last := definitions[|definitions| - 1];
      Outstanding(order, tables, required, definitions[..|definitions| - 1])
      + (if last in required && Layered(order, tables, last).None? then [last] else [])
  }

  /** The outstanding list of `formFor`, in the order of the definitions. */
  method FormFor(order: string -> real, definitions: seq<string>, manifest: Manifest, tables: Tables,
                 selections: seq<Selection>, compilation: Option<bool>)
    returns (outstanding: seq<string>)
    ensures outstanding == Outstanding(order, tables,
                             RequiredTokens(manifest, Included(manifest, selections, compilation == Some(true))),
                             definitions)
  {
    hide Layered, Included, RequiredTokens;
    var included := IncludedSections(manifest, selections, compilation);
    var required := RequiredTokens(manifest, included);
    var effective := ResolveEffectiveValues(order, definitions, tables);
    outstanding := [];
    var i := 0;
    while i < |definitions|
      invariant 0 <= i <= |definitions|
      invariant outstanding == Outstanding(order, tables, required, definitions[..i])
    {
      assert definitions[..i + 1][..i] == definitions[..i];
      if definitions[i] in required && definitions[i] !in effective {
        outstanding := outstanding + [definitions[i]];
      }
      i := i + 1;
    }
    assert definitions[..i] == definitions;
  }

  // ---------------------------------------------------------------- The letter

  /** Formatting for print, by data type. */
  type Format = (string, DataType) -> string

  function DefinitionOf(fields: seq<FieldDefinition>, token: string): Option<FieldDefinition> {
    if fields == [] then None
    else
      var last := fields[|fields| - 1];
      if last.token == token then Some(last) else DefinitionOf(fields[..|fields| - 1], token)
  }

  /** A calculated value prints by where it came from, not by the declared type; the tax year as it stands. */
  function Shown(format: Format, v: Effective, declared: DataType): string {
    match v.origin
    case FromEngagement => v.value
    case FromCalculatedDate => format(v.value, DateType)
    case FromCalculatedFee => format(v.value, MoneyType)
    case FromField => format(v.value, declared)
  }

  predicate NotApplicable(manifest: Manifest, confirmed: bool, token: string) {
    token == COMPILATION_FEE && HasCompilation(manifest) && !confirmed && Declares(manifest, token)
  }

  /** What the letter prints for a token, if anything. */
  function Printed(order: string -> real, format: Format, manifest: Manifest, tables: Tables, confirmed: bool, token: string)
    : Option<string>
  {
    if NotApplicable(manifest, confirmed, token) then Some(NOT_APPLICABLE)
    else
      var definition := DefinitionOf(manifest.fields, token);
      var v := Layered(order, tables, token);
      if definition.None? || v.None? then None else Some(Shown(format, v.value, definition.value.dataType))
  }

  /** The value prints as more than blanks. */
  predicate Shows(format: Format, manifest: Manifest, token: string, v: Effective) {
    var definition := DefinitionOf(manifest.fields, token);
    definition.Some? && !Blank(Shown(format, v, definition.value.dataType))
  }

  lemma {:induction false} DeclaredHasDefinition(fields: seq<FieldDefinition>, token: string)
    ensures DefinitionOf(fields, token).Some? <==> exists f | f in fields :: f.token == token
  {
    if fields != [] {
      var n := |fields| - 1;
      assert fields == fields[..n] + [fields[n]];
      DeclaredHasDefinition(fields[..n], token);
    }
  }

  function Tokens(fields: seq<FieldDefinition>): seq<string> {
    seq(|fields|, i requires 0 <= i < |fields| => fields[i].token)
  }

  lemma TokensDeclared(fields: seq<FieldDefinition>)
    ensures forall t :: t in Tokens(fields) <==> exists f | f in fields :: f.token == t
  {
    forall f | f in fields
      ensures f.token in Tokens(fields)
    {
      var i :| 0 <= i < |fields| && fields[i] == f;
      assert Tokens(fields)[i] == f.token;
    }
  }

  method BuildValues(order: string -> real, format: Format, manifest: Manifest, tables: Tables,
                     selections: seq<Selection>, compilation: Option<bool>)
    returns (values: map<string, string>, included: seq<string>)
    ensures included == Included(manifest, selections, compilation == Some(true))
    ensures forall t :: t in values <==> Printed(order, format, manifest, tables, compilation == Some(true), t).Some?
    ensures forall t | t in values ::
              Printed(order, format, manifest, tables, compilation == Some(true), t) == Some(values[t])
  {
    hide Layered, Included, Shown, HasCompilation;
    var tokens := Tokens(manifest.fields);
    TokensDeclared(manifest.fields);
    var effective := ResolveEffectiveValues(order, tokens, tables);
    values := map[];
    var left := effective.Keys;
    while left != {}
      invariant left <= effective.Keys
      invariant forall t :: t in values <==> t in effective.Keys - left
      invariant forall t | t in values ::
        DefinitionOf(manifest.fields, t).Some?
        && values[t] == Shown(format, effective[t], DefinitionOf(manifest.fields, t).value.dataType)
      decreases left
    {
      var token :| token in left;
      left := left - {token};
      DeclaredHasDefinition(manifest.fields, token);
      var definition := DefinitionOf(manifest.fields, token);
      if definition.Some? {
        values := values[token := Shown(format, effective[token], definition.value.dataType)];
      }
    }
    included := IncludedSections(manifest, selections, compilation);
    DeclaredHasDefinition(manifest.fields, COMPILATION_FEE);
    forall t
      ensures DefinitionOf(manifest.fields, t).Some? <==> t in tokens
    {
      DeclaredHasDefinition(manifest.fields, t);
    }
    if HasCompilation(manifest) && compilation != Some(true) && Declares(manifest, COMPILATION_FEE) {
      values := values[COMPILATION_FEE := NOT_APPLICABLE];
    }
  }

  /** The missing list of `evaluateGate`. */
  method MissingRequiredFields(order: string -> real, format: Format, manifest: Manifest, tables: Tables,
                               selections: seq<Selection>, compilation: Option<bool>)
    returns (missing: set<string>)
    ensures missing == Missing(order, format, manifest, tables, selections, compilation == Some(true))
  {
    hide Printed, Included;
    var values, included := BuildValues(order, format, manifest, tables, selections, compilation);
    missing := set t | t in RequiredTokens(manifest, included) && (t !in values || Trim(values[t]) == "");
    forall t | t in values
      ensures Trim(values[t]) == "" <==> Blank(values[t])
    {
      TrimEmptyExactly(values[t]);
    }
  }

  function Missing(order: string -> real, format: Format, manifest: Manifest, tables: Tables,
                   selections: seq<Selection>, confirmed: bool): set<string>
  {
    set t | t in RequiredTokens(manifest, Included(manifest, selections, confirmed))
            && (var p := Printed(order, format, manifest, tables, confirmed, t); p.None? || Blank(p.value))
  }

  // ---------------------------------------------------------------- Do they agree?

  lemma {:induction false} OutstandingHas(order: string -> real, tables: Tables, required: set<string>,
                                          definitions: seq<string>, t: string)
    ensures t in Outstanding(order, tables, required, definitions)
            <==> t in definitions && t in required && Layered(order, tables, t).None?
  {
    hide Layered;
    if definitions != [] {
      var n := |definitions| - 1;
      assert definitions == definitions[..n] + [definitions[n]];
      OutstandingHas(order, tables, required, definitions[..n], t);
    }
  }

  /**
   * When the form calls a required token outstanding just as the letter calls it missing. Three families
   * differ: a token no field declares, the compilation fee printed as not applicable while it has no
   * value, and a value that formats to nothing.
   */
  lemma AgreeOnTokenExactly(order: string -> real, format: Format, definitions: seq<string>, manifest: Manifest,
                            tables: Tables, selections: seq<Selection>, confirmed: bool, t: string)
    requires t in definitions <==> Declares(manifest, t)
    requires t in RequiredTokens(manifest, Included(manifest, selections, confirmed))
    ensures var required := RequiredTokens(manifest, Included(manifest, selections, confirmed));
            var v := Layered(order, tables, t);
            (t in Outstanding(order, tables, required, definitions)
             <==> t in Missing(order, format, manifest, tables, selections, confirmed))
            <==> && Declares(manifest, t)
                 && (NotApplicable(manifest, confirmed, t) ==> v.Some?)
                 && (!NotApplicable(manifest, confirmed, t) && v.Some? ==> Shows(format, manifest, t, v.value))
  {
    hide Layered, Included, RequiredTokens, Shown;
    OutstandingHas(order, tables, RequiredTokens(manifest, Included(manifest, selections, confirmed)), definitions, t);
    DeclaredHasDefinition(manifest.fields, t);
    assert !Blank(NOT_APPLICABLE) by {
      assert NOT_APPLICABLE[0] in NOT_APPLICABLE;
    }
  }

  /**
   * A required field holding only blanks, as the client system's values are stored untrimmed: filled as far as
   * the form can tell, missing from the letter.
   */
  lemma BlankFieldPassesTheForm(order: string -> real, format: Format)
    requires format(" ", StringType) == ""
    ensures var manifest := Manifest([FieldDefinition("t", StringType, true, "")], []);
            var tables := Tables([FieldRow("t", Some(" "), None, None, KarbonClient, None, false)], [], [], [], None);
            var required := RequiredTokens(manifest, Included(manifest, [], false));
            && "t" !in Outstanding(order, tables, required, ["t"])
            && "t" in Missing(order, format, manifest, tables, [], false)
  {
    var field := FieldDefinition("t", StringType, true, "");
    var row := FieldRow("t", Some(" "), None, None, KarbonClient, None, false);
    var manifest, tables := Manifest([field], []), Tables([row], [], [], [], None);
    var included := Included(manifest, [], false);
    assert field in manifest.fields && field.token in RequiredTokens(manifest, included);
    OneRowAlone(order, row, [], "t");
    OutstandingHas(order, tables, RequiredTokens(manifest, included), ["t"], "t");
    assert [field][..0] == [] && DefinitionOf(manifest.fields, "t") == Some(field);
  }

  /**
   * A manifest like the published ones: every field a section requires is declared, the compilation fee is
   * required by nothing but the compilation section, and no section key occurs twice.
   */
  ghost predicate WellFormed(manifest: Manifest) {
    && (forall s, t | s in manifest.sections && t in s.requiredFields :: Declares(manifest, t))
    && (forall f | f in manifest.fields && f.token == COMPILATION_FEE :: f.requiredWhenSection == COMPILATION)
    && (forall s | s in manifest.sections && COMPILATION_FEE in s.requiredFields :: s.key == COMPILATION)
    && (forall i, j | 0 <= i < j < |manifest.sections| :: manifest.sections[i].key != manifest.sections[j].key)
  }

  lemma {:induction false} KeysOccurOnce(sections: seq<Section>, selections: seq<Selection>, key: string)
    requires forall i, j | 0 <= i < j < |sections| :: sections[i].key != sections[j].key
    ensures Times(SelectedKeys(sections, selections), key) <= 1
    ensures key in SelectedKeys(sections, selections) ==> exists s | s in sections :: s.key == key
  {
    if sections != [] {
      var n := |sections| - 1;
      var front := sections[..n];
      assert sections == front + [sections[n]];
      KeysOccurOnce(front, selections, key);
      forall s | s in front
        ensures s.key != sections[n].key
      {
        var i :| 0 <= i < n && front[i] == s;
        assert sections[i].key != sections[n].key;
      }
    }
  }

  lemma FeeRequiredMeansConfirmed(manifest: Manifest, selections: seq<Selection>, confirmed: bool)
    requires WellFormed(manifest) && HasCompilation(manifest)
    requires COMPILATION_FEE in RequiredTokens(manifest, Included(manifest, selections, confirmed))
    ensures confirmed
  {
    hide Included, Times, SelectedKeys;
    CompilationFollowsConfirmationExactly(manifest, selections, confirmed);
    KeysOccurOnce(manifest.sections, selections, COMPILATION);
  }

  /** For a well-formed manifest whose values format to something, the form and the letter list the same tokens. */
  lemma FormMatchesLetter(order: string -> real, format: Format, definitions: seq<string>, manifest: Manifest,
                          tables: Tables, selections: seq<Selection>, confirmed: bool)
    requires WellFormed(manifest)
    requires forall t :: t in definitions <==> Declares(manifest, t)
    requires forall t | Declares(manifest, t) && Layered(order, tables, t).Some? ::
               Shows(format, manifest, t, Layered(order, tables, t).value)
    ensures var required := RequiredTokens(manifest, Included(manifest, selections, confirmed));
            forall t :: t in Outstanding(order, tables, required, definitions)
                        <==> t in Missing(order, format, manifest, tables, selections, confirmed)
  {
    hide Layered, Included, Shows;
    var required := RequiredTokens(manifest, Included(manifest, selections, confirmed));
    forall t
      ensures t in Outstanding(order, tables, required, definitions)
              <==> t in Missing(order, format, manifest, tables, selections, confirmed)
    {
      if t in required {
        assert Declares(manifest, t);
        DeclaredHasDefinition(manifest.fields, t);
        if NotApplicable(manifest, confirmed, t) {
          FeeRequiredMeansConfirmed(manifest, selections, confirmed);
        }
        AgreeOnTokenExactly(order, format, definitions, manifest, tables, selections, confirmed, t);
      } else {
        OutstandingHas(order, tables, required, definitions, t);
      }
    }
  }
}
