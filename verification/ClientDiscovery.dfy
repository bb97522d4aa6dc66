/** Which clients an import looks at: the client list, less the contact types that are passed over. */
module ClientDiscovery {
  import opened Basics
  import opened ClientImport
  import opened ImportConvergence

  /** `isExcludedContactType`: the types Inactive and Dissolved, however spelled. */
  predicate Excluded(lower: string -> string, s: Summary) {
    s.contactType.Some? && Trim(s.contactType.value) != ""
    && lower(Trim(s.contactType.value)) in {lower("Inactive"), lower("Dissolved")}
  }

  predicate PassedOver(lower: string -> string, includeAll: bool, s: Summary) {
    !includeAll && Excluded(lower, s)
  }

  /** The distinct keys of the entries kept, in the order they are met. */
  function Keys(lower: string -> string, includeAll: bool, clients: seq<Summary>): seq<string> {
    if clients == [] then []
    else
      var keys := Keys(lower, includeAll, clients[..|clients| - 1]);
      var last := clients[|clients| - 1];
      if PassedOver(lower, includeAll, last) || last.entityKey == "" || last.entityKey in keys then keys
      else keys + [last.entityKey]
  }

  /** The last entry kept for a key. */
  function EntryFor(lower: string -> string, includeAll: bool, clients: seq<Summary>, key: string): Option<Summary> {
    if clients == [] then None
    else
      var last := clients[|clients| - 1];
      if !PassedOver(lower, includeAll, last) && last.entityKey != "" && last.entityKey == key then Some(last)
      else EntryFor(lower, includeAll, clients[..|clients| - 1], key)
  }

  /** How many entries were passed over under a type. */
  function SkippedUnder(lower: string -> string, includeAll: bool, clients: seq<Summary>, kind: string): nat {
    if clients == [] then 0
    else
      var last := clients[|clients| - 1];
      SkippedUnder(lower, includeAll, clients[..|clients| - 1], kind)
      + if PassedOver(lower, includeAll, last) && Trim(last.contactType.value) == kind then 1 else 0
  }

  method FromClientList(lower: string -> string, includeAll: bool, clients: seq<Summary>)
    returns (keys: seq<string>, summaries: map<string, Summary>, skipped: map<string, nat>)
    ensures keys == Keys(lower, includeAll, clients)
    ensures forall k :: k in summaries <==> EntryFor(lower, includeAll, clients, k).Some?
    ensures forall k | k in summaries :: EntryFor(lower, includeAll, clients, k) == Some(summaries[k])
    ensures forall kind :: (if kind in skipped then skipped[kind] else 0) == SkippedUnder(lower, includeAll, clients, kind)
  {
    hide Excluded, Trim;
    keys, summaries, skipped := [], map[], map[];
    var i := 0;
    assert clients[..0] == [];
    while i < |clients|
      invariant 0 <= i <= |clients|
      invariant keys == Keys(lower, includeAll, clients[..i])
      invariant forall k :: k in summaries <==> EntryFor(lower, includeAll, clients[..i], k).Some?
      invariant forall k | k in summaries :: EntryFor(lower, includeAll, clients[..i], k) == Some(summaries[k])
      invariant forall kind ::
        (if kind in skipped then skipped[kind] else 0) == SkippedUnder(lower, includeAll, clients[..i], kind)
    {
      var s := clients[i];
      assert clients[..i + 1][..i] == clients[..i];
      if PassedOver(lower, includeAll, s) {
        var kind := ExcludedKind(lower, s);
        skipped := skipped[kind := (if kind in skipped then skipped[kind] else 0) + 1];
      } else if s.entityKey != "" {
        if s.entityKey !in keys {
          keys := keys + [s.entityKey];
        }
        summaries := summaries[s.entityKey := s];
      }
      i := i + 1;
    }
    assert clients[..i] == clients;
  }

  /** An excluded entry always has a type to be counted under, as the vendor spells it. */
  function ExcludedKind(lower: string -> string, s: Summary): (kind: string)
    requires Excluded(lower, s)
    ensures kind != "" && kind == Trim(s.contactType.value)
  {
    Trim(s.contactType.value)
  }

  /**
   * An entry is passed over exactly when its type, blanks and letter case aside, is inactive or dissolved, unless
   * all are wanted.
   */
  lemma PassedOverExactly(lower: string -> string, includeAll: bool, s: Summary)
    ensures PassedOver(lower, includeAll, s) <==>
            && !includeAll && s.contactType.Some? && Trim(s.contactType.value) != ""
            && (lower(Trim(s.contactType.value)) == lower("Inactive")
                || lower(Trim(s.contactType.value)) == lower("Dissolved"))
  {
    hide Trim;
  }

  /** Where in a list the entries are that are passed over under a type. */
  ghost function PlacesSkipped(lower: string -> string, includeAll: bool, clients: seq<Summary>, kind: string): set<int> {
    set i | 0 <= i < |clients| && PassedOver(lower, includeAll, clients[i]) && Trim(clients[i].contactType.value) == kind
  }

  /** The count under a type is how many entries of that type were passed over. */
  lemma {:induction false} SkippedIsCounted(lower: string -> string, includeAll: bool, clients: seq<Summary>, kind: string)
    ensures SkippedUnder(lower, includeAll, clients, kind) == |PlacesSkipped(lower, includeAll, clients, kind)|
  {
    hide Trim;
    if clients != [] {
      var n := |clients| - 1;
      SkippedIsCounted(lower, includeAll, clients[..n], kind);
      var before := PlacesSkipped(lower, includeAll, clients[..n], kind);
      var now := PlacesSkipped(lower, includeAll, clients, kind);
      if PassedOver(lower, includeAll, clients[n]) && Trim(clients[n].contactType.value) == kind {
        assert now == before + {n};
      } else {
        assert now == before;
      }
    }
  }

  /** Each key once, each from an entry that was kept, and a summary for exactly the keys. */
  lemma {:induction false} KeysAreKeptEntries(lower: string -> string, includeAll: bool, clients: seq<Summary>)
    ensures var keys := Keys(lower, includeAll, clients);
            && Distinct(keys)
            && (forall k :: k in keys <==>
                  exists s | s in clients :: !PassedOver(lower, includeAll, s) && s.entityKey == k && k != "")
            && (forall k :: k in keys <==> EntryFor(lower, includeAll, clients, k).Some?)
  {
    hide PassedOver;
    if clients != [] {
      var n := |clients| - 1;
      KeysAreKeptEntries(lower, includeAll, clients[..n]);
      assert clients == clients[..n] + [clients[n]];
      forall k
        ensures k in Keys(lower, includeAll, clients) <==>
                exists s | s in clients :: !PassedOver(lower, includeAll, s) && s.entityKey == k && k != ""
      {
        KeptEntryEither(lower, includeAll, clients[..n], clients[n], k);
      }
    }
  }

  lemma KeptEntryEither(lower: string -> string, includeAll: bool, front: seq<Summary>, last: Summary, k: string)
    ensures (exists s | s in front + [last] :: !PassedOver(lower, includeAll, s) && s.entityKey == k && k != "")
            <==> (exists s | s in front :: !PassedOver(lower, includeAll, s) && s.entityKey == k && k != "")
                 || (!PassedOver(lower, includeAll, last) && last.entityKey == k && k != "")
  {
    hide PassedOver;
    assert last in front + [last];
    forall s | s in front
      ensures s in front + [last]
    {
    }
  }

  /**
   * The discovered keys are what the import loop needs to reconcile its counts: whatever the list holds, each
   * found client is counted once.
   */
  lemma DiscoveredClientsReconcile(im: Import, includeAll: bool, clients: seq<Summary>, store: Store)
    requires Echoes(im)
    ensures var keys := Keys(im.lower, includeAll, clients);
            var r := ImportAll(im, keys, store);
            |keys| == |r.created| + |r.failed| + r.matching + |r.backfilled| + |r.differing|
                      - InBoth(r.differing, r.backfilled) + r.notCompared
  {
    hide ImportAll, Keys, Echoes;
    KeysAreKeptEntries(im.lower, includeAll, clients);
    FoundReconciles(im, Keys(im.lower, includeAll, clients), store);
  }
}
