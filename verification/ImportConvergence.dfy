/** What imports keep, how their counts reconcile, and that running one again adds nothing. */
module ImportConvergence {
  import opened Basics
  import opened EntityNames
  import opened ClientImport

  /** The vendor answers about a key with the client that has it. */
  ghost predicate Echoes(im: Import) {
    forall key :: im.read(key).Found? ==> im.read(key).client.entityKey == key
  }

  // ---------------------------------------------------------------- Nothing a person entered is lost

  /** Every column that held more than blanks holds the same text, and every contact is still there. */
  ghost predicate Kept(before: Client, after: Client) {
    && (forall c: Column :: !Blank(Text(before.columns, c)) ==> Text(after.columns, c) == Text(before.columns, c))
    && before.contacts <= after.contacts
  }

  ghost predicate KeptAll(before: Store, after: Store) {
    forall k | k in before :: k in after && Kept(before[k], after[k])
  }

  lemma FillingKeeps(here: Client, there: KarbonClient)
    ensures Kept(here, Filled(here, there))
  {
  }

  lemma TurnKeeps(im: Import, known: set<string>, key: string, p: Progress)
    ensures KeptAll(p.store, Turn(im, known, key, p).store)
  {
    hide Filled, Blank, BackfillOf, Compare, NewClient, Named, Kept;
    SameIsKept(p.store);
    if im.read(key).Found? && key in p.store {
      FillingKeeps(p.store[key], Named(im, key, im.read(key).client));
    }
  }

  lemma SameIsKept(store: Store)
    ensures forall k | k in store :: Kept(store[k], store[k])
  {
  }

  lemma KeptTwice(a: Store, b: Store, c: Store)
    requires KeptAll(a, b) && KeptAll(b, c)
    ensures KeptAll(a, c)
  {
    forall k | k in a
      ensures k in c && Kept(a[k], c[k])
    {
      assert Kept(a[k], b[k]) && Kept(b[k], c[k]);
    }
  }

  lemma {:induction false} TurnsKeep(im: Import, known: set<string>, keys: seq<string>, p: Progress)
    ensures KeptAll(p.store, Turns(im, known, keys, p).store)
  {
    hide Turn, Kept;
    if keys == [] {
      SameIsKept(p.store);
    } else {
      var q := Turns(im, known, keys[..|keys| - 1], p);
      TurnsKeep(im, known, keys[..|keys| - 1], p);
      TurnKeeps(im, known, keys[|keys| - 1], q);
      KeptTwice(p.store, q.store, Turn(im, known, keys[|keys| - 1], q).store);
    }
  }

  /** The store after several imports, each of whatever the vendor held by then. */
  function AfterImports(store: Store, runs: seq<(Import, seq<string>)>): Store {
    if runs == [] then store
    else ImportAll(runs[|runs| - 1].0, runs[|runs| - 1].1, AfterImports(store, runs[..|runs| - 1])).store
  }

  /** Across any imports no client is removed, no non-blank detail changed and no contact removed. */
  lemma {:induction false} ImportsKeepEverything(store: Store, runs: seq<(Import, seq<string>)>)
    ensures KeptAll(store, AfterImports(store, runs))
  {
    hide Turns, Kept;
    SameIsKept(store);
    if runs != [] {
      var n := |runs| - 1;
      var mid := AfterImports(store, runs[..n]);
      var im, keys := runs[n].0, runs[n].1;
      ImportsKeepEverything(store, runs[..n]);
      RefreshKeeps(im, keys, mid);
      TurnsKeep(im, mid.Keys, keys, Start(Refreshed(im, keys, mid)));
      KeptTwice(mid, Refreshed(im, keys, mid), AfterImports(store, runs));
      KeptTwice(store, mid, AfterImports(store, runs));
    }
  }

  lemma RefreshKeeps(im: Import, keys: seq<string>, store: Store)
    ensures KeptAll(store, Refreshed(im, keys, store))
  {
  }

  /** Looking only changes nothing, the mirror included. */
  lemma {:induction false} DryRunChangesNothing(im: Import, known: set<string>, keys: seq<string>, p: Progress)
    requires im.dryRun
    ensures Turns(im, known, keys, p).store == p.store
    ensures !p.aborted ==> !Turns(im, known, keys, p).aborted
  {
    hide Filled, Blank, BackfillOf, Compare, NewClient, Named;
    if keys != [] {
      DryRunChangesNothing(im, known, keys[..|keys| - 1], p);
    }
  }

  // ---------------------------------------------------------------- What is reported, and names

  /** Reported differences are exactly the compared details that both sides hold and that read differently. */
  lemma {:induction false} DifferencesAreExactly(lower: string -> string, here: Client, there: KarbonClient,
                                                 columns: seq<Column>, c: Column)
    ensures (exists d | d in Compare(lower, here, there, columns) :: d.field == c)
            <==> c in columns && !Blank(Text(here.columns, c)) && !Blank(Text(there.columns, c))
                 && lower(Trim(Text(here.columns, c))) != lower(Trim(Text(there.columns, c)))
  {
    hide Blank, Trim, Text;
    if columns != [] {
      var n := |columns| - 1;
      var front := Compare(lower, here, there, columns[..n]);
      assert columns == columns[..n] + [columns[n]];
      DifferencesAreExactly(lower, here, there, columns[..n], c);
      var all := Compare(lower, here, there, columns);
      assert forall d :: d in front ==> d in all;
      assert forall d :: d in all ==> d in front || d.field == columns[n];
      if Differs(lower, here, there, columns[n]) && !Fills(here, there, columns[n]) {
        assert all[|front|] in all;
      }
    }
  }

  /** What an import reports as left alone is left alone: filling the blanks does not touch it. */
  lemma DifferencesAreLeftAlone(lower: string -> string, here: Client, there: KarbonClient, d: Difference)
    requires d in Compare(lower, here, there, COMPARED)
    ensures Text(Filled(here, there).columns, d.field) == Text(here.columns, d.field)
  {
    hide Filled, Compare, Blank;
    DifferencesAreExactly(lower, here, there, COMPARED, d.field);
    FillingKeeps(here, there);
  }

  /** The trading name is the client's display name, or is in the full name stored beside it. */
  ghost predicate KeepsTradeName(client: Client, trade: string) {
    || (DisplayName in client.columns && client.columns[DisplayName] == trade)
    || (client.karbonFullName.Some? && Occurs(trade, client.karbonFullName.value))
  }

  /**
   * A trading name a created client carries, its own or one split off the listed name, is kept exactly when the
   * client brings no display name, or brings that one, or was found on the client list under a name it is in.
   */
  lemma SeparatedNameIsKeptExactly(im: Import, key: string, there: KarbonClient)
    requires Named(im, key, there).tradeName.Some?
    ensures var trade := Named(im, key, there).tradeName.value;
            KeepsTradeName(NewClient(im, key, Named(im, key, there)), trade)
            <==> || DisplayName !in there.columns
                 || there.columns[DisplayName] == trade
                 || (key in im.summaries && Occurs(trade, im.summaries[key].fullName))
  {
    hide Blank, Trim, SplitEntityName, Occurs;
  }

  /**
   * A trading name separated off the listed name, by the import or by whoever read the client under that name,
   * is kept whatever display name the client brings.
   */
  lemma ListedTradeNameIsKept(im: Import, key: string, there: KarbonClient)
    requires key in im.summaries && Named(im, key, there).tradeName.Some?
    requires there.tradeName.None? || there.tradeName == SplitEntityName(im.summaries[key].fullName).tradeName
    ensures KeepsTradeName(NewClient(im, key, Named(im, key, there)), Named(im, key, there).tradeName.value)
  {
    hide Blank, Trim, SplitEntityName, Occurs;
    var listed, named := im.summaries[key].fullName, Named(im, key, there);
    SplittingKeepsBoth(listed);
    if there.tradeName.None? {
      SplittingKeepsBoth(Trim(listed));
      TrimOccurs(listed);
      OccursWithin(named.tradeName.value, Trim(listed), listed);
    }
    SeparatedNameIsKeptExactly(im, key, there);
  }

  /** A client that takes its name from the list takes the legal half of it, and the trading half if it has none. */
  lemma ListedNameIsSplit(im: Import, key: string, there: KarbonClient)
    requires key in im.summaries && Blank(Text(there.columns, LegalName)) && !Blank(im.summaries[key].fullName)
    ensures var split := SplitEntityName(Trim(im.summaries[key].fullName));
            var named := Named(im, key, there);
            && Text(NewClient(im, key, named).columns, LegalName) == split.legalName
            && named.tradeName == if there.tradeName.Some? then there.tradeName else split.tradeName
  {
    hide Blank, Trim, SplitEntityName;
  }

  /** A client whose name was separated where it was read, and which brings another display name. */
  const JC := KarbonClient("K", "Organization", map[LegalName := "2140071 Alberta Ltd.", DisplayName := "JC"],
                           Some("JC Spa and Wellness"), None, None, [])

  /**
   * It loses the trading name when found through its work, and when the list gives it no name, so that its key
   * stands for one.
   */
  lemma TradeNameLost(im: Import)
    requires "K" !in im.summaries || im.summaries["K"].fullName == "K"
    ensures var client := NewClient(im, "K", Named(im, "K", JC));
            && Named(im, "K", JC).tradeName == Some("JC Spa and Wellness")
            && !KeepsTradeName(client, "JC Spa and Wellness")
            && Text(client.columns, LegalName) == "2140071 Alberta Ltd." && Text(client.columns, DisplayName) == "JC"
            && client.karbonFullName == if "K" in im.summaries then Some("K") else None
  {
    hide Trim, SplitEntityName;
    assert Text(JC.columns, LegalName)[0] == '2' && !IsSpace('2');
    if "K" in im.summaries {
      assert !Occurs("JC Spa and Wellness", "K");
    }
    SeparatedNameIsKeptExactly(im, "K", JC);
    assert |"JC"| != |"JC Spa and Wellness"|;
  }

  lemma TurnKeepsMirror(im: Import, known: set<string>, key: string, p: Progress, k: string)
    requires k in p.store
    ensures var q := Turn(im, known, key, p);
            k in q.store && q.store[k].karbonFullName == p.store[k].karbonFullName
  {
    hide Blank, BackfillOf, Compare, NewClient, Named;
  }

  lemma {:induction false} TurnsKeepMirror(im: Import, known: set<string>, keys: seq<string>, p: Progress, k: string)
    requires k in p.store
    ensures var q := Turns(im, known, keys, p);
            k in q.store && q.store[k].karbonFullName == p.store[k].karbonFullName
  {
    hide Turn;
    if keys != [] {
      var n := |keys| - 1;
      TurnsKeepMirror(im, known, keys[..n], p, k);
      TurnKeepsMirror(im, known, keys[n], Turns(im, known, keys[..n], p), k);
    }
  }

  /** The full name the last real import to list a client gave it, if any did. */
  function LastListed(runs: seq<(Import, seq<string>)>, key: string): Option<string> {
    if runs == [] then None
    else
      var (im, keys) := runs[|runs| - 1];
      if !im.dryRun && key in keys && key in im.summaries then Some(im.summaries[key].fullName)
      else LastListed(runs[..|runs| - 1], key)
  }

  lemma {:induction false} MirrorIsLastListed(store: Store, runs: seq<(Import, seq<string>)>, key: string)
    requires key in store
    ensures var after := AfterImports(store, runs);
            && key in after
            && after[key].karbonFullName
               == if LastListed(runs, key).Some? then LastListed(runs, key) else store[key].karbonFullName
  {
    hide Turns;
    if runs != [] {
      var n := |runs| - 1;
      var mid := AfterImports(store, runs[..n]);
      var im, keys := runs[n].0, runs[n].1;
      MirrorIsLastListed(store, runs[..n], key);
      TurnsKeepMirror(im, mid.Keys, keys, Start(Refreshed(im, keys, mid)), key);
    }
  }

  /**
   * A trading name once kept stays kept over any imports exactly when it is the client's display name by then, which
   * no import changes once there is one, or no real import listed the client, or the last to list it gave a name it is in.
   */
  lemma TradeNameStaysExactly(store: Store, runs: seq<(Import, seq<string>)>, key: string, trade: string)
    requires key in store && KeepsTradeName(store[key], trade) && !Blank(trade)
    ensures var after := AfterImports(store, runs);
            && key in after
            && (KeepsTradeName(after[key], trade) <==>
                || Text(after[key].columns, DisplayName) == trade
                || LastListed(runs, key).None?
                || Occurs(trade, LastListed(runs, key).value))
            && (!Blank(Text(store[key].columns, DisplayName)) ==>
                Text(after[key].columns, DisplayName) == Text(store[key].columns, DisplayName))
  {
    hide AfterImports, LastListed, Occurs, Blank, KeepsTradeName, Kept;
    MirrorIsLastListed(store, runs, key);
    ImportsKeepEverything(store, runs);
    KeptNameStays(store[key], AfterImports(store, runs)[key], trade, LastListed(runs, key));
  }

  lemma KeptNameStays(before: Client, after: Client, trade: string, listed: Option<string>)
    requires KeepsTradeName(before, trade) && !Blank(trade) && Kept(before, after)
    requires after.karbonFullName == if listed.Some? then listed else before.karbonFullName
    ensures KeepsTradeName(after, trade) <==>
            Text(after.columns, DisplayName) == trade || listed.None? || Occurs(trade, listed.value)
    ensures !Blank(Text(before.columns, DisplayName)) ==>
              Text(after.columns, DisplayName) == Text(before.columns, DisplayName)
  {
    hide Occurs, Blank;
    NothingIsBlank();
    assert !Blank(Text(before.columns, DisplayName)) ==>
             Text(after.columns, DisplayName) == Text(before.columns, DisplayName);
  }

  /** A trading name kept only in the listed name goes when a later import lists the client without one. */
  lemma TradeNameGoesLater(im: Import)
    requires !im.dryRun && "K" in im.summaries && im.summaries["K"].fullName == "K"
    ensures var listed := "2140071 Alberta Ltd. (JC Spa and Wellness)";
            var before := Client(map[LegalName := "2140071 Alberta Ltd.", DisplayName := "JC"], "Organization", "Canada",
                                 [], Some(listed), None);
            var after := AfterImports(map["K" := before], [(im, ["K"])]);
            && KeepsTradeName(before, "JC Spa and Wellness")
            && "K" in after && !KeepsTradeName(after["K"], "JC Spa and Wellness")
  {
    hide AfterImports, LastListed, Blank;
    var listed, trade := "2140071 Alberta Ltd. (JC Spa and Wellness)", "JC Spa and Wellness";
    var before := Client(map[LegalName := "2140071 Alberta Ltd.", DisplayName := "JC"], "Organization", "Canada",
                         [], Some(listed), None);
    assert listed == "2140071 Alberta Ltd. (" + trade + ")";
    assert Occurs(trade, listed);
    var runs := [(im, ["K"])];
    OneListing(im);
    TradeNameIsText();
    assert |"JC"| != |trade|;
    TradeNameStaysExactly(map["K" := before], runs, "K", trade);
  }

  lemma OneListing(im: Import)
    requires !im.dryRun && "K" in im.summaries && im.summaries["K"].fullName == "K"
    ensures LastListed([(im, ["K"])], "K") == Some("K")
  {
    assert "K" in ["K"];
  }

  lemma TradeNameIsText()
    ensures !Blank("JC Spa and Wellness") && !Blank("JC") && !Occurs("JC Spa and Wellness", "K")
  {
    assert "JC Spa and Wellness"[0] == 'J' && "JC"[0] == 'J' && !IsSpace('J');
  }

  /** A client read back with a name keeps that name, whatever the list calls it. */
  lemma OwnNameStands(im: Import, key: string, there: KarbonClient)
    requires !Blank(Text(there.columns, LegalName))
    ensures Text(NewClient(im, key, Named(im, key, there)).columns, LegalName) == Text(there.columns, LegalName)
  {
    hide Blank;
  }

  // ---------------------------------------------------------------- The counts

  predicate AmongBackfilled(bs: seq<Backfill>, key: string) {
    exists b | b in bs :: b.entityKey == key
  }

  /** How many differing clients also had blanks filled, as the summary line works it out. */
  function InBoth(differing: seq<Differing>, bs: seq<Backfill>): nat {
    if differing == [] then 0
    else
      InBoth(differing[..|differing| - 1], bs)
      + if AmongBackfilled(bs, differing[|differing| - 1].entityKey) then 1 else 0
  }

  function Tally(p: Progress): int {
    |p.created| + |p.failed| + p.matching + |p.backfilled| + |p.differing| - InBoth(p.differing,
        p.backfilled) + p.notCompared
  }

  ghost predicate KeysWithin(p: Progress, keys: seq<string>) {
    (forall b | b in p.backfilled :: b.entityKey in keys) && (forall d | d in p.differing :: d.entityKey in keys)
  }

  lemma {:induction false} BothAfterBackfill(differing: seq<Differing>, bs: seq<Backfill>, b: Backfill)
    requires forall d | d in differing :: d.entityKey != b.entityKey
    ensures InBoth(differing, bs + [b]) == InBoth(differing, bs)
  {
    if differing != [] {
      var n := |differing| - 1;
      assert differing == differing[..n] + [differing[n]];
      BothAfterBackfill(differing[..n], bs, b);
      assert differing[n] in differing;
      assert AmongBackfilled(bs + [b], differing[n].entityKey) <==> AmongBackfilled(bs, differing[n].entityKey);
    }
  }

  lemma BothAfterDiffering(differing: seq<Differing>, bs: seq<Backfill>, d: Differing)
    ensures InBoth(differing + [d], bs) == InBoth(differing, bs) + if AmongBackfilled(bs, d.entityKey) then 1 else 0
  {
    assert (differing + [d])[..|differing|] == differing;
  }

  lemma RevisitCounts(im: Import, key: string, there: KarbonClient, p: Progress, seen: seq<string>)
    requires key in p.store && there.entityKey == key && KeysWithin(p, seen) && key !in seen
    ensures Tally(Revisit(im, key, there, p)) == Tally(p) + 1
    ensures KeysWithin(Revisit(im, key, there, p), seen + [key])
  {
    hide Filled, Compare, InBoth, NewContacts, FilledColumns;
    var here := p.store[key];
    var backfill := BackfillOf(here, there);
    var differences := Compare(im.lower, here, there, COMPARED);
    var bs := p.backfilled + (if backfill.Some? then [backfill.value] else []);
    var d := Differing(key, Text(here.columns, LegalName), differences);
    if backfill.Some? {
      BothAfterBackfill(p.differing, p.backfilled, backfill.value);
      assert backfill.value in bs && AmongBackfilled(bs, key);
    } else {
      assert bs == p.backfilled && !AmongBackfilled(bs, key);
    }
    BothAfterDiffering(p.differing, bs, d);
    assert p.differing + [] == p.differing;
  }

  lemma NamedKeepsKey(im: Import, key: string, there: KarbonClient)
    ensures Named(im, key, there).entityKey == there.entityKey
  {
  }

  lemma TurnCounts(im: Import, known: set<string>, key: string, p: Progress, seen: seq<string>)
    requires Echoes(im) && KeysWithin(p, seen) && key !in seen && !p.aborted
    ensures var q := Turn(im, known, key, p);
            !q.aborted && Tally(q) == Tally(p) + 1 && KeysWithin(q, seen + [key])
  {
    hide Revisit, InBoth, NewClient, Named, Blank;
    if im.read(key).Found? {
      NamedKeepsKey(im, key, im.read(key).client);
      var there := Named(im, key, im.read(key).client);
      if key in p.store {
        RevisitCounts(im, key, there, p, seen);
        RevisitCounts(im, key, there, p.(compared := p.compared + 1), seen);
        RevisitGoesOn(im, key, there, p);
        RevisitGoesOn(im, key, there, p.(compared := p.compared + 1));
      }
    }
  }

  lemma RevisitGoesOn(im: Import, key: string, there: KarbonClient, p: Progress)
    requires key in p.store
    ensures Revisit(im, key, there, p).aborted == p.aborted
  {
  }

  lemma {:induction false} TurnsCount(im: Import, known: set<string>, keys: seq<string>, p: Progress)
    requires Echoes(im) && Distinct(keys) && Tally(p) == 0 && KeysWithin(p, []) && !p.aborted
    ensures var q := Turns(im, known, keys, p);
            !q.aborted && Tally(q) == |keys| && KeysWithin(q, keys)
  {
    hide Turn, Tally, KeysWithin, Echoes;
    if keys != [] {
      var n := |keys| - 1;
      TurnsCount(im, known, keys[..n], p);
      TurnCounts(im, known, keys[n], Turns(im, known, keys[..n], p), keys[..n]);
      assert keys == keys[..n] + [keys[n]];
    } else {
      assert keys == [];
    }
  }

  /**
   * Every client found is counted once: created, failed, matching, filled or differing, less those counted in
   * both, or not compared.
   */
  lemma FoundReconciles(im: Import, keys: seq<string>, store: Store)
    requires Echoes(im) && Distinct(keys)
    ensures var r := ImportAll(im, keys, store);
            && !r.aborted
            && |keys| == |r.created| + |r.failed| + r.matching + |r.backfilled| + |r.differing|
                         - InBoth(r.differing, r.backfilled) + r.notCompared
            && (!im.dryRun ==> r.notCompared == 0)
  {
    hide Turns, Refreshed;
    var p := Start(Refreshed(im, keys, store));
    TurnsCount(im, store.Keys, keys, p);
    RealRunsCompareAll(im, store.Keys, keys, p);
  }

  lemma {:induction false} RealRunsCompareAll(im: Import, known: set<string>, keys: seq<string>, p: Progress)
    requires p.notCompared == 0
    ensures !im.dryRun ==> Turns(im, known, keys, p).notCompared == 0
  {
    hide Filled, Blank, BackfillOf, Compare, NewClient, Named;
    if keys != [] {
      RealRunsCompareAll(im, known, keys[..|keys| - 1], p);
    }
  }

  // ---------------------------------------------------------------- Running again

  /** A further import of the same answers would have nothing to add about this key. */
  ghost predicate Settled(im: Import, key: string, store: Store) {
    im.read(key).Found? ==>
      var there := Named(im, key, im.read(key).client);
      if key in store then NothingToFill(store[key], there) else Blank(Text(there.columns, LegalName))
  }

  ghost predicate NothingToFill(here: Client, there: KarbonClient) {
    (forall contact | contact in there.contacts :: !IsNew(here, contact)) && (forall c: Column :: !Fills(here, there, c))
  }

  lemma {:induction false} NewContactsAre(here: Client, there: seq<KarbonContact>)
    ensures NewContacts(here, there) == [] <==> forall contact | contact in there :: !IsNew(here, contact)
    ensures forall contact | contact in there && IsNew(here, contact) ::
              Contact(Some(contact.key), contact.person) in NewContacts(here, there)
  {
    if there != [] {
      var n := |there| - 1;
      assert there == there[..n] + [there[n]];
      NewContactsAre(here, there[..n]);
      assert there[n] in there;
    }
  }

  lemma {:induction false} FilledColumnsAre(here: Client, there: KarbonClient, columns: seq<Column>)
    ensures FilledColumns(here, there, columns) == [] <==> forall c | c in columns :: !Fills(here, there, c)
  {
    if columns != [] {
      var n := |columns| - 1;
      assert columns == columns[..n] + [columns[n]];
      FilledColumnsAre(here, there, columns[..n]);
      assert columns[n] in columns;
    }
  }

  lemma EveryColumnIsBackfillable(c: Column)
    ensures c in BACKFILLABLE
  {
    assert LegalName == BACKFILLABLE[0] && DisplayName == BACKFILLABLE[1] && BusinessNumber == BACKFILLABLE[2]
           && AddressLine1 == BACKFILLABLE[3] && AddressLine2 == BACKFILLABLE[4] && City == BACKFILLABLE[5]
           && Province == BACKFILLABLE[6] && PostalCode == BACKFILLABLE[7];
  }

  /** There is a backfill exactly when there is something to fill. */
  lemma BackfillExactly(here: Client, there: KarbonClient)
    ensures BackfillOf(here, there).None? <==> NothingToFill(here, there)
  {
    hide Fills, IsNew;
    NewContactsAre(here, there.contacts);
    FilledColumnsAre(here, there, BACKFILLABLE);
    forall c: Column
      ensures c in BACKFILLABLE
    {
      EveryColumnIsBackfillable(c);
    }
  }

  lemma FilledHasNothingToFill(here: Client, there: KarbonClient)
    ensures NothingToFill(Filled(here, there), there)
  {
    hide Blank, Trim;
    NewContactsAre(here, there.contacts);
    var after := Filled(here, there);
    forall contact | contact in there.contacts
      ensures !IsNew(after, contact)
    {
      if IsNew(here, contact) {
        assert Contact(Some(contact.key), contact.person) in after.contacts;
      } else if contact.key != "" {
        var c :| c in here.contacts && c.key == Some(contact.key);
        assert c in after.contacts;
      }
    }
    forall c: Column
      ensures !Fills(after, there, c)
    {
      NothingIsBlank();
      TrimEmptyExactly(Text(there.columns, c));
    }
  }

  lemma CreatedHasNothingToFill(im: Import, key: string, there: KarbonClient)
    ensures NothingToFill(NewClient(im, key, there), there)
  {
    hide Blank;
    var after := NewClient(im, key, there);
    forall contact | contact in there.contacts
      ensures !IsNew(after, contact)
    {
      var i :| 0 <= i < |there.contacts| && there.contacts[i] == contact;
      assert after.contacts[i] in after.contacts;
    }
    assert forall c: Column :: c in there.columns ==> Text(after.columns, c) == Text(there.columns, c);
    NothingIsBlank();
  }

  lemma TurnSettles(im: Import, known: set<string>, key: string, p: Progress)
    requires !im.dryRun && Echoes(im) && !p.aborted
    ensures Settled(im, key, Turn(im, known, key, p).store)
    ensures forall k | k != key :: Settled(im, k, p.store) ==> Settled(im, k, Turn(im, known, key, p).store)
  {
    hide Filled, Blank, BackfillOf, Compare, NewClient, Named, NothingToFill;
    if im.read(key).Found? {
      NamedKeepsKey(im, key, im.read(key).client);
      var there := Named(im, key, im.read(key).client);
      if key in p.store {
        BackfillExactly(p.store[key], there);
        FilledHasNothingToFill(p.store[key], there);
      } else {
        CreatedHasNothingToFill(im, key, there);
      }
    }
  }

  lemma {:induction false} TurnsSettle(im: Import, known: set<string>, keys: seq<string>, p: Progress)
    requires !im.dryRun && Echoes(im) && Distinct(keys) && Tally(p) == 0 && KeysWithin(p, []) && !p.aborted
    ensures forall k | k in keys :: Settled(im, k, Turns(im, known, keys, p).store)
  {
    hide Turn, Settled, Echoes, Tally, KeysWithin;
    if keys != [] {
      var n := |keys| - 1;
      TurnsSettle(im, known, keys[..n], p);
      TurnsCount(im, known, keys[..n], p);
      TurnSettles(im, known, keys[n], Turns(im, known, keys[..n], p));
      assert keys == keys[..n] + [keys[n]];
    }
  }

  lemma SettledTurnIdle(im: Import, known: set<string>, key: string, p: Progress)
    requires !im.dryRun && Settled(im, key, p.store)
    ensures var q := Turn(im, known, key, p);
            q.store == p.store && q.created == p.created && q.backfilled == p.backfilled && (!p.aborted ==> !q.aborted)
  {
    hide Filled, Blank, BackfillOf, Compare, NewClient, Named, NothingToFill;
    if im.read(key).Found? && key in p.store {
      BackfillExactly(p.store[key], Named(im, key, im.read(key).client));
    }
  }

  lemma {:induction false} SettledTurnsIdle(im: Import, known: set<string>, keys: seq<string>, p: Progress)
    requires !im.dryRun && forall k | k in keys :: Settled(im, k, p.store)
    ensures var q := Turns(im, known, keys, p);
            q.store == p.store && q.created == p.created && q.backfilled == p.backfilled && (!p.aborted ==> !q.aborted)
  {
    hide Turn, Settled;
    if keys != [] {
      var n := |keys| - 1;
      SettledTurnsIdle(im, known, keys[..n], p);
      SettledTurnIdle(im, known, keys[n], Turns(im, known, keys[..n], p));
    }
  }

  lemma RefreshKeepsSettled(im: Import, key: string, keys: seq<string>, store: Store)
    ensures Settled(im, key, Refreshed(im, keys, store)) == Settled(im, key, store)
  {
    hide Named, Blank;
    if key in store && im.read(key).Found? {
      var there := Named(im, key, im.read(key).client);
      var r := Refreshed(im, keys, store)[key];
      assert r.contacts == store[key].contacts && r.columns == store[key].columns;
      assert forall c :: IsNew(r, c) == IsNew(store[key], c);
      assert forall c: Column :: Fills(r, there, c) == Fills(store[key], there, c);
    }
  }

  /** The same import again creates nothing and fills nothing; all it can write is the mirror of the vendor's record. */
  lemma RerunAddsNothing(im: Import, keys: seq<string>, store: Store)
    requires !im.dryRun && Echoes(im) && Distinct(keys)
    ensures var first := ImportAll(im, keys, store);
            var second := ImportAll(im, keys, first.store);
            && second.created == [] && second.backfilled == [] && !second.aborted
            && second.store == Refreshed(im, keys, first.store)
  {
    hide Turns, Refreshed, Settled, Echoes;
    var first := ImportAll(im, keys, store);
    TurnsSettle(im, store.Keys, keys, Start(Refreshed(im, keys, store)));
    forall k | k in keys
      ensures Settled(im, k, Refreshed(im, keys, first.store))
    {
      RefreshKeepsSettled(im, k, keys, first.store);
    }
    SettledTurnsIdle(im, first.store.Keys, keys, Start(Refreshed(im, keys, first.store)));
  }

  // ---------------------------------------------------------------- The mirror

  predicate SameMirror(a: Client, b: Client) {
    a.karbonFullName == b.karbonFullName && a.karbonContactType == b.karbonContactType
  }

  /** The mirror fields after a run: untouched on a client that was here, the list's over the detail's on a new one. */
  ghost predicate Mirrored(im: Import, start: Store, now: Store) {
    forall k | k in now ::
      if k in start then SameMirror(start[k], now[k])
      else im.read(k).Found? && SameMirror(now[k], NewClient(im, k, Named(im, k, im.read(k).client)))
  }

  lemma TurnMirrors(im: Import, known: set<string>, key: string, p: Progress, start: Store)
    requires Echoes(im) && Mirrored(im, start, p.store) && start.Keys <= p.store.Keys
    ensures Mirrored(im, start, Turn(im, known, key, p).store) && start.Keys <= Turn(im, known, key, p).store.Keys
  {
    hide Blank, BackfillOf, Compare, NewClient, Named;
    if im.read(key).Found? {
      NamedKeepsKey(im, key, im.read(key).client);
    }
  }

  lemma {:induction false} TurnsMirror(im: Import, known: set<string>, keys: seq<string>, p: Progress)
    requires Echoes(im)
    ensures Mirrored(im, p.store, Turns(im, known, keys, p).store)
    ensures p.store.Keys <= Turns(im, known, keys, p).store.Keys
    ensures forall k | k in Turns(im, known, keys, p).store :: k in p.store || k in keys
  {
    hide Turn, Echoes, NewClient, Named;
    if keys != [] {
      var n := |keys| - 1;
      TurnsMirror(im, known, keys[..n], p);
      TurnMirrors(im, known, keys[n], Turns(im, known, keys[..n], p), p.store);
      TurnAddsOnlyItsKey(im, known, keys[n], Turns(im, known, keys[..n], p));
      assert keys == keys[..n] + [keys[n]];
    }
  }

  lemma TurnAddsOnlyItsKey(im: Import, known: set<string>, key: string, p: Progress)
    requires Echoes(im)
    ensures forall k | k in Turn(im, known, key, p).store :: k in p.store || k == key
  {
    hide Filled, Blank, BackfillOf, Compare, NewClient, Named;
    if im.read(key).Found? {
      NamedKeepsKey(im, key, im.read(key).client);
    }
  }

  /**
   * The second run leaves the store exactly as the first did unless the first created a client to whom the
   * client list gives no contact type while the client itself has one: the refresh then takes it away again.
   */
  lemma RerunWritesNothingExactly(im: Import, keys: seq<string>, store: Store)
    requires !im.dryRun && Echoes(im) && Distinct(keys)
    ensures var first := ImportAll(im, keys, store);
            ImportAll(im, keys, first.store).store == first.store
            <==> forall k | k in first.store && k !in store && k in im.summaries && im.read(k).Found? ::
                   im.summaries[k].contactType.Some? || im.read(k).client.contactType.None?
  {
    hide Turns, Echoes, Blank;
    var p := Start(Refreshed(im, keys, store));
    var first := ImportAll(im, keys, store);
    RerunAddsNothing(im, keys, store);
    TurnsMirror(im, store.Keys, keys, p);
    forall k | k in first.store
      ensures k !in store ==> im.read(k).Found?
      ensures Refreshed(im, keys, first.store)[k] == first.store[k]
              <==> (k !in store && k in im.summaries ==> im.summaries[k].contactType.Some? || im.read(k).client.contactType.None?)
    {
      RefreshedRow(im, keys, store, first.store, k);
    }
  }

  lemma RefreshedRow(im: Import, keys: seq<string>, store: Store, first: Store, k: string)
    requires !im.dryRun && k in first && Mirrored(im, Refreshed(im, keys, store), first) && (k in store || k in keys)
    ensures Refreshed(im, keys, first)[k] == first[k]
            <==> (k !in store && k in im.summaries ==> im.summaries[k].contactType.Some? || im.read(k).client.contactType.None?)
    ensures k !in store ==> im.read(k).Found?
  {
    hide Blank;
    var start := Refreshed(im, keys, store);
    if k in store {
      assert SameMirror(start[k], first[k]);
    } else {
      assert SameMirror(first[k], NewClient(im, k, Named(im, k, im.read(k).client)));
    }
  }
}
