/** Which sections apply, what they require and how a value prints, said of the manifest and the answers. */
module FormLaws {
  import opened Basics
  import opened EffectiveValues
  import opened EffectiveLaws
  import opened FormAgreement

  /** A service is selected as its last answer says, and not without one. */
  lemma {:induction false} SelectedIsLastAnswer(selections: seq<Selection>, code: string, i: int)
    ensures IsLast(selections, i, (s: Selection) => s.code == code) ==> Selected(selections, code) == selections[i].isSelected
    ensures (forall s | s in selections :: s.code != code) ==> !Selected(selections, code)
  {
    if selections != [] {
      var n := |selections| - 1;
      assert selections == selections[..n] + [selections[n]];
      SelectedIsLastAnswer(selections[..n], code, i);
      assert selections[n] in selections && forall s | s in selections[..n] :: s in selections;
      if IsLast(selections, i, (s: Selection) => s.code == code) && i < n {
        assert selections[n].code != code;
        assert IsLast(selections[..n], i, (s: Selection) => s.code == code);
      }
    }
  }

  lemma {:induction false} SelectedKeysHave(sections: seq<Section>, selections: seq<Selection>, key: string)
    ensures key in SelectedKeys(sections, selections)
            <==> exists s | s in sections :: s.key == key && Selected(selections, s.controlledBy)
  {
    if sections != [] {
      var n := |sections| - 1;
      assert sections == sections[..n] + [sections[n]];
      SelectedKeysHave(sections[..n], selections, key);
    }
  }

  /** Every section but the compilation one applies exactly when its service is selected, confirmed or not. */
  lemma SectionAppliesExactly(manifest: Manifest, selections: seq<Selection>, confirmed: bool, key: string)
    requires key != "csrs_4200"
    ensures key in Included(manifest, selections, confirmed)
            <==> exists s | s in manifest.sections :: s.key == key && Selected(selections, s.controlledBy)
  {
    SelectedKeysHave(manifest.sections, selections, key);
    var keys := SelectedKeys(manifest.sections, selections);
    WithoutFirstTimes(keys, COMPILATION);
    assert key in WithoutFirst(keys, COMPILATION) <==> key in multiset(WithoutFirst(keys, COMPILATION));
    assert key in keys <==> key in multiset(keys);
  }

  /** The compilation section applies only where it is declared, and declared once, exactly when it is confirmed. */
  lemma CompilationAppliesExactly(manifest: Manifest, selections: seq<Selection>, confirmed: bool)
    requires forall i, j | 0 <= i < j < |manifest.sections| :: manifest.sections[i].key != manifest.sections[j].key
    ensures "csrs_4200" in Included(manifest, selections, confirmed)
            <==> confirmed && exists s | s in manifest.sections :: s.key == "csrs_4200"
  {
    hide Times;
    SelectedKeysHave(manifest.sections, selections, COMPILATION);
    if HasCompilation(manifest) {
      CompilationFollowsConfirmationExactly(manifest, selections, confirmed);
      OnceEach(manifest.sections, selections, COMPILATION);
    }
  }

  lemma {:induction false} OnceEach(sections: seq<Section>, selections: seq<Selection>, key: string)
    requires forall i, j | 0 <= i < j < |sections| :: sections[i].key != sections[j].key
    ensures Times(SelectedKeys(sections, selections), key) <= 1
  {
    if sections != [] {
      var n := |sections| - 1;
      OnceEach(sections[..n], selections, key);
      SelectedKeysHave(sections[..n], selections, key);
      if sections[n].key == key {
        assert key !in SelectedKeys(sections[..n], selections);
      }
    }
  }

  /** What is required: a field that names a section when that applies, any other as declared, and what sections list. */
  lemma RequiredExactly(manifest: Manifest, included: seq<string>, token: string)
    ensures token in RequiredTokens(manifest, included) <==>
            || (exists f | f in manifest.fields ::
                  && f.token == token
                  && (f.requiredWhenSection == "" ==> f.required)
                  && (f.requiredWhenSection != "" ==> f.requiredWhenSection in included))
            || (exists s | s in manifest.sections :: s.key in included && token in s.requiredFields)
  {
  }

  /** A calculated date prints as a date and a fee as money, whatever is declared; the year as it stands. */
  lemma PrintsByOrigin(format: Format, v: Effective, declared: DataType)
    ensures v.origin == FromCalculatedDate ==> Shown(format, v, declared) == format(v.value, DateType)
    ensures v.origin == FromCalculatedFee ==> Shown(format, v, declared) == format(v.value, MoneyType)
    ensures v.origin == FromEngagement ==> Shown(format, v, declared) == v.value
    ensures v.origin == FromField ==> Shown(format, v, declared) == format(v.value, declared)
  {
  }

  /** A declared compilation fee prints as not applicable exactly where the section is declared and not confirmed. */
  lemma CompilationFeePrints(order: string -> real, format: Format, manifest: Manifest, tables: Tables, confirmed: bool)
    requires exists f | f in manifest.fields :: f.token == "pricing.compilation_fee"
    requires (exists s | s in manifest.sections :: s.key == "csrs_4200") && !confirmed
    ensures Printed(order, format, manifest, tables, confirmed, "pricing.compilation_fee") == Some("Not applicable")
  {
    hide Layered, Shown;
  }
}
