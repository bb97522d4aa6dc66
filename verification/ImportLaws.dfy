/** What one key of an import comes to, and how much a preview reads, said of the vendor's answers. */
module ImportLaws {
  import opened Basics
  import opened EntityNames
  import opened ClientImport
  import opened ImportConvergence

  /** A reported difference says what is held here and, without its blanks, what the vendor holds. */
  lemma {:induction false} DifferencesSay(lower: string -> string, here: Client, there: KarbonClient, columns: seq<Column>)
    ensures forall d | d in Compare(lower, here, there, columns) ::
              d.field in here.columns && d.here == Some(here.columns[d.field])
              && d.inKarbon == Trim(Text(there.columns, d.field))
  {
    hide Blank, Trim;
    if columns != [] {
      var n := |columns| - 1;
      DifferencesSay(lower, here, there, columns[..n]);
      NothingIsBlank();
    }
  }

  /** A client is created with what the vendor gives, in Canada where it names no country, its contacts under their keys. */
  lemma CreatedClientSays(im: Import, key: string, there: KarbonClient)
    ensures var client := NewClient(im, key, there);
            && client.country == (match there.country case Some(c) => c case None => "Canada")
            && client.entityType == there.entityType
            && |client.contacts| == |there.contacts|
            && (forall i | 0 <= i < |there.contacts| ::
                  client.contacts[i] == Contact(Some(there.contacts[i].key), there.contacts[i].person))
            && (forall c: Column | c != DisplayName ::
                  (c in client.columns <==> c in there.columns) && Text(client.columns, c) == Text(there.columns, c))
  {
  }

  /** The client the vendor gives for a key, with the name a list can supply. */
  function Given(im: Import, key: string): Option<KarbonClient> {
    if im.read(key).Found? then Some(Named(im, key, im.read(key).client)) else None
  }

  /**
   * One key of a real import. A key that cannot be read is a failure with the vendor's reason; a client known here is
   * filled and reported; a new one without a name is a failure; any other is created, unless its own key is taken.
   */
  lemma RealTurnSays(im: Import, known: set<string>, key: string, p: Progress)
    requires !im.dryRun && !p.aborted
    ensures var q, given := Turn(im, known, key, p), Given(im, key);
            && (given.None? ==>
                 exists reason :: im.read(key) in {Threw(reason), NotFound(reason)}
                                  && q == p.(failed := p.failed + [Failure(key, reason)]))
            && (given.Some? && key in p.store ==>
                 q.store == p.store[key := Filled(p.store[key], given.value)]
                 || (q.store == p.store && BackfillOf(p.store[key], given.value) == None))
            && (given.Some? && key !in p.store && Blank(Text(given.value.columns, LegalName)) ==>
                 q == p.(failed := p.failed + [Failure(key, "Karbon returned no name for this client")]))
            && (given.Some? && key !in p.store && !Blank(Text(given.value.columns, LegalName)) ==>
                 && q.created == p.created + [Added(key, Text(given.value.columns, LegalName))]
                 && q.aborted == (given.value.entityKey in p.store)
                 && q.store == if q.aborted then p.store
                               else p.store[given.value.entityKey := NewClient(im, key, given.value)])
  {
    hide Filled, Blank, Compare, NewClient, Named, BackfillOf;
    if Given(im, key).None? {
      assert im.read(key) in {Threw(im.read(key).reason), NotFound(im.read(key).reason)};
    }
  }

  // ---------------------------------------------------------------- Previews

  /** How many of the keys are clients known at the start. */
  function KnownAmong(keys: seq<string>, known: set<string>): nat {
    if keys == [] then 0
    else KnownAmong(keys[..|keys| - 1], known) + if keys[|keys| - 1] in known then 1 else 0
  }

  /** A new client that the list names is previewed under the legal half of that name, without being read. */
  lemma ListedIsPreviewedUnread(im: Import, known: set<string>, key: string, p: Progress)
    requires im.dryRun && !p.aborted && key !in known && key in im.summaries
    ensures Turn(im, known, key, p)
            == p.(created := p.created + [Added(key, SplitEntityName(im.summaries[key].fullName).legalName)])
  {
    hide SplitEntityName;
  }

  /** A preview compares the known clients up to its budget and says of exactly the rest that it did not. */
  lemma {:induction false} PreviewComparesUpToItsBudget(im: Import, known: set<string>, keys: seq<string>, store: Store)
    requires im.dryRun
    ensures var q, n := Turns(im, known, keys, Start(store)), KnownAmong(keys, known);
            q.compared == Min(n, im.budget) && q.notCompared == n - Min(n, im.budget) && !q.aborted
  {
    hide Receive, SplitEntityName;
    DryRunChangesNothing(im, known, keys, Start(store));
    if keys != [] {
      var n := |keys| - 1;
      PreviewComparesUpToItsBudget(im, known, keys[..n], store);
      ReceivingComparesNothing(im, keys[n], Turns(im, known, keys[..n], Start(store)));
      var q := Turns(im, known, keys[..n], Start(store));
      ReceivingComparesNothing(im, keys[n], q.(compared := q.compared + 1));
    }
  }

  lemma ReceivingComparesNothing(im: Import, key: string, p: Progress)
    ensures var q := Receive(im, key, p); q.compared == p.compared && q.notCompared == p.notCompared
  {
    hide Filled, Blank, Compare, NewClient, Named, BackfillOf;
  }
}
