/**
 * Importing clients: new ones are created, known ones have their blanks filled, and everything else is
 * reported and left alone.
 */
module ClientImport {
  import opened Basics
  import opened EntityNames

  // ---------------------------------------------------------------- Clients here and in Karbon

  datatype Column = LegalName | DisplayName | BusinessNumber | AddressLine1 | AddressLine2 | City | Province | PostalCode

  datatype Person = Person(
    fullName: string,
    firstName: Option<string>,
    email: Option<string>,
    telephone: Option<string>,
    title: Option<string>,
    isPrimary: bool)

  /** A contact entered by hand has no key. */
  datatype Contact = Contact(key: Option<string>, person: Person)

  /** A client here; a column that is not in the map is null. The last two fields mirror the vendor's own record. */
  datatype Client = Client(
    columns: map<Column, string>,
    entityType: string,
    country: string,
    contacts: seq<Contact>,
    karbonFullName: Option<string>,
    karbonContactType: Option<string>)

  datatype KarbonContact = KarbonContact(key: string, person: Person)

  datatype KarbonClient = KarbonClient(
    entityKey: string,
    entityType: string,
    columns: map<Column, string>,
    tradeName: Option<string>,
    country: Option<string>,
    contactType: Option<string>,
    contacts: seq<KarbonContact>)

  datatype Summary = Summary(entityKey: string, fullName: string, contactType: Option<string>)

  /** What reading a client back gives: an error, nothing (with a diagnosis of the key), or a client. */
  datatype Answer = Threw(reason: string) | NotFound(reason: string) | Found(client: KarbonClient)

  type Store = map<string, Client>

  /** One import: what discovery found, and what the vendor answers about each key. */
  datatype Import = Import(
    dryRun: bool,
    budget: nat,
    summaries: map<string, Summary>,
    read: string -> Answer,
    lower: string -> string)

  function Text(columns: map<Column, string>, c: Column): string {
    if c in columns then columns[c] else ""
  }

  // ---------------------------------------------------------------- Filling blanks

  const BACKFILLABLE := [LegalName, DisplayName, BusinessNumber, AddressLine1, AddressLine2, City, Province, PostalCode]

  predicate Fills(here: Client, there: KarbonClient, c: Column) {
    Blank(Text(here.columns, c)) && !Blank(Text(there.columns, c))
  }

  predicate IsNew(here: Client, contact: KarbonContact) {
    contact.key != "" && forall c | c in here.contacts :: c.key != Some(contact.key)
  }

  function NewContacts(here: Client, there: seq<KarbonContact>): seq<Contact> {
    if there == [] then []
    else
      var last := there[|there| - 1];
      NewContacts(here, there[..|there| - 1]) + (if IsNew(here, last) then [Contact(Some(last.key), last.person)] else [])
  }

  function FilledColumns(here: Client, there: KarbonClient, columns: seq<Column>): seq<Column> {
    if columns == [] then []
    else
      var last := columns[|columns| - 1];
      FilledColumns(here, there, columns[..|columns| - 1]) + (if Fills(here, there, last) then [last] else [])
  }

  function Filled(here: Client, there: KarbonClient): Client {
    here.(columns := map c: Column | c in here.columns || Fills(here, there, c) ::
                       if Fills(here, there, c) then Trim(there.columns[c]) else here.columns[c],
          contacts := here.contacts + NewContacts(here, there.contacts))
  }

  datatype Backfill = Backfill(entityKey: string, legalName: string, contactsAdded: nat, fieldsFilled: seq<Column>)

  function BackfillOf(here: Client, there: KarbonClient): Option<Backfill> {
    var contacts, fields := NewContacts(here, there.contacts), FilledColumns(here, there, BACKFILLABLE);
    if contacts == [] && fields == [] then None
    else Some(Backfill(there.entityKey, Text(here.columns, LegalName), |contacts|, fields))
  }

  // ---------------------------------------------------------------- Comparing

  datatype Difference = Difference(field: Column, here: Option<string>, inKarbon: string)

  const COMPARED := [LegalName, BusinessNumber, City, Province, PostalCode]

  predicate Differs(lower: string -> string, here: Client, there: KarbonClient, c: Column) {
    !Blank(Text(there.columns, c)) && lower(Trim(Text(here.columns, c))) != lower(Trim(Text(there.columns, c)))
  }

  function HereOf(here: Client, c: Column): Option<string> {
    if c in here.columns then Some(here.columns[c]) else None
  }

  /** The differences in these columns, without the ones just filled. */
  function Compare(lower: string -> string, here: Client, there: KarbonClient, columns: seq<Column>): seq<Difference> {
    if columns == [] then []
    else
      var c := columns[|columns| - 1];
      Compare(lower, here, there, columns[..|columns| - 1])
      + (if Differs(lower, here, there, c) && !Fills(here, there, c)
         then [Difference(c, HereOf(here, c), Trim(Text(there.columns, c)))] else [])
  }

  // ---------------------------------------------------------------- One client

  /** A client read back without a name takes the one on the client list, split; one with a name keeps it. */
  function Named(im: Import, key: string, there: KarbonClient): KarbonClient {
    if !Blank(Text(there.columns, LegalName)) || key !in im.summaries || Blank(im.summaries[key].fullName) then there
    else
      var split := SplitEntityName(Trim(im.summaries[key].fullName));
      there.(columns := there.columns[LegalName := split.legalName],
             tradeName := if there.tradeName.Some? then there.tradeName else split.tradeName)
  }

  function NewClient(im: Import, key: string, there: KarbonClient): Client {
    Client(if DisplayName !in there.columns && there.tradeName.Some? then there.columns[DisplayName := there.tradeName.value]
           else there.columns,
           there.entityType,
           if there.country.Some? then there.country.value else "Canada",
           seq(|there.contacts|, i requires 0 <= i < |there.contacts| =>
             Contact(Some(there.contacts[i].key), there.contacts[i].person)),
           if key in im.summaries then Some(im.summaries[key].fullName) else None,
           if key in im.summaries && im.summaries[key].contactType.Some? then im.summaries[key].contactType
           else there.contactType)
  }

  datatype Added = Added(entityKey: string, legalName: string)

  datatype Failure = Failure(entityKey: string, reason: string)

  datatype Differing = Differing(entityKey: string, legalName: string, differences: seq<Difference>)

  const NO_NAME := "Karbon returned no name for this client"

  /** The state of a run: the store, the lists of the result, and whether the store refused a duplicate key. */
  datatype Progress = Progress(
    store: Store,
    created: seq<Added>,
    failed: seq<Failure>,
    matching: nat,
    backfilled: seq<Backfill>,
    differing: seq<Differing>,
    compared: nat,
    notCompared: nat,
    aborted: bool)

  /** A client already here. */
  function Revisit(im: Import, key: string, there: KarbonClient, p: Progress): Progress
    requires key in p.store
  {
    var here := p.store[key];
    var backfill := BackfillOf(here, there);
    var differences := Compare(im.lower, here, there, COMPARED);
    p.(store := if im.dryRun || backfill.None? then p.store else p.store[key := Filled(here, there)],
       backfilled := p.backfilled + (if backfill.Some? then [backfill.value] else []),
       differing := p.differing
                    + (if differences != [] then [Differing(key, Text(here.columns, LegalName), differences)] else []),
       matching := p.matching + if differences == [] && backfill.None? then 1 else 0)
  }

  /** A client not here yet. */
  function Add(im: Import, key: string, there: KarbonClient, p: Progress): Progress {
    if Blank(Text(there.columns, LegalName)) then p.(failed := p.failed + [Failure(key, NO_NAME)])
    else
      var q := p.(created := p.created + [Added(key, Text(there.columns, LegalName))]);
      if im.dryRun then q
      else if there.entityKey in p.store then q.(aborted := true)
      else q.(store := p.store[there.entityKey := NewClient(im, key, there)])
  }

  function Receive(im: Import, key: string, p: Progress): Progress {
    match im.read(key)
    case Threw(reason) => p.(failed := p.failed + [Failure(key, reason)])
    case NotFound(reason) => p.(failed := p.failed + [Failure(key, reason)])
    case Found(client) =>
      var there := Named(im, key, client);
      if key in p.store then Revisit(im, key, there, p) else Add(im, key, there, p)
  }

  /** One key of the run, given which clients were here at its start. */
  function Turn(im: Import, known: set<string>, key: string, p: Progress): Progress {
    if p.aborted then p
    else if im.dryRun && key !in known && key in im.summaries then
      p.(created := p.created + [Added(key, SplitEntityName(im.summaries[key].fullName).legalName)])
    else if im.dryRun && key in known && p.compared >= im.budget then p.(notCompared := p.notCompared + 1)
    else Receive(im, key, if im.dryRun && key in known then p.(compared := p.compared + 1) else p)
  }

  function Turns(im: Import, known: set<string>, keys: seq<string>, p: Progress): Progress {
    if keys == [] then p else Turn(im, known, keys[|keys| - 1], Turns(im, known, keys[..|keys| - 1], p))
  }

  /** A real import first brings the mirror fields of the clients already here up to date. */
  function Refreshed(im: Import, keys: seq<string>, store: Store): Store {
    if im.dryRun then store
    else
      map k | k in store ::
        if k in keys && k in im.summaries
        then store[k].(karbonFullName := Some(im.summaries[k].fullName), karbonContactType := im.summaries[k].contactType)
        else store[k]
  }

  function Start(store: Store): Progress {
    Progress(store, [], [], 0, [], [], 0, 0, false)
  }

  function ImportAll(im: Import, keys: seq<string>, store: Store): Progress {
    Turns(im, store.Keys, keys, Start(Refreshed(im, keys, store)))
  }

  // ---------------------------------------------------------------- The code

  class ClientImporter {
    var store: Store
    var created: seq<Added>
    var failed: seq<Failure>
    var matching: nat
    var backfilled: seq<Backfill>
    var differing: seq<Differing>
    var compared: nat
    var notCompared: nat
    var aborted: bool

    ghost function Now(): Progress
      reads this
    {
      Progress(store, created, failed, matching, backfilled, differing, compared, notCompared, aborted)
    }

    constructor (clients: Store)
      ensures Now() == Start(clients)
    {
      store, created, failed, matching, backfilled, differing := clients, [], [], 0, [], [];
      compared, notCompared, aborted := 0, 0, false;
    }

    /** `backfillFromKarbon`: fills the blanks of a client here, unless the run only looks. */
    method BackfillFromKarbon(key: string, there: KarbonClient, dryRun: bool) returns (backfill: Option<Backfill>)
      requires key in store
      modifies `store
      ensures backfill == BackfillOf(old(store)[key], there)
      ensures store == if dryRun || backfill.None? then old(store) else old(store)[key := Filled(old(store)[key], there)]
    {
      hide Filled, Blank;
      var here := store[key];
      var contacts: seq<Contact>, fields: seq<Column> := [], [];
      var i := 0;
      assert there.contacts[..0] == [];
      while i < |there.contacts|
        invariant 0 <= i <= |there.contacts|
        invariant contacts == NewContacts(here, there.contacts[..i])
      {
        var contact := there.contacts[i];
        assert there.contacts[..i + 1][..i] == there.contacts[..i];
        if IsNew(here, contact) {
          contacts := contacts + [Contact(Some(contact.key), contact.person)];
        }
        i := i + 1;
      }
      assert there.contacts[..i] == there.contacts;
      i := 0;
      while i < |BACKFILLABLE|
        invariant 0 <= i <= |BACKFILLABLE|
        invariant fields == FilledColumns(here, there, BACKFILLABLE[..i])
      {
        var c := BACKFILLABLE[i];
        assert BACKFILLABLE[..i + 1][..i] == BACKFILLABLE[..i];
        if Fills(here, there, c) {
          fields := fields + [c];
        }
        i := i + 1;
      }
      assert BACKFILLABLE[..i] == BACKFILLABLE;
      if contacts == [] && fields == [] {
        return None;
      }
      if !dryRun {
        store := store[key := Filled(here, there)];
      }
      backfill := Some(Backfill(there.entityKey, Text(here.columns, LegalName), |contacts|, fields));
    }

    /** One key of the loop in `run`. */
    method ImportOne(im: Import, known: set<string>, key: string)
      requires !aborted
      modifies this
      ensures Now() == Turn(im, known, key, old(Now()))
    {
      hide Filled, Blank, BackfillOf, Compare, NewClient, Named;
      if im.dryRun && key !in known && key in im.summaries {
        created := created + [Added(key, SplitEntityName(im.summaries[key].fullName).legalName)];
        return;
      }
      if im.dryRun && key in known && compared >= im.budget {
        notCompared := notCompared + 1;
        return;
      }
      if im.dryRun && key in known {
        compared := compared + 1;
      }
      var answer := im.read(key);
      match answer {
        case Threw(reason) =>
          failed := failed + [Failure(key, reason)];
        case NotFound(reason) =>
          failed := failed + [Failure(key, reason)];
        case Found(client) =>
          var there := Named(im, key, client);
          if key in store {
            var here := store[key];
            var backfill := BackfillFromKarbon(key, there, im.dryRun);
            if backfill.Some? {
              backfilled := backfilled + [backfill.value];
            }
            var differences := Compare(im.lower, here, there, COMPARED);
            if differences != [] {
              differing := differing + [Differing(key, Text(here.columns, LegalName), differences)];
            } else if backfill.None? {
              matching := matching + 1;
            }
          } else if Blank(Text(there.columns, LegalName)) {
            failed := failed + [Failure(key, NO_NAME)];
          } else {
            created := created + [Added(key, Text(there.columns, LegalName))];
            if !im.dryRun {
              if there.entityKey in store {
                aborted := true;
              } else {
                store := store[there.entityKey := NewClient(im, key, there)];
              }
            }
          }
      }
    }

    /** `run`, after discovery: refreshes the mirror, then takes each key in turn. */
    method Run(im: Import, keys: seq<string>)
      requires Now() == Start(store)
      modifies this
      ensures Now() == ImportAll(im, keys, old(store))
    {
      hide Turn;
      var known := store.Keys;
      store := Refreshed(im, keys, store);
      ghost var start := Now();
      var i := 0;
      while i < |keys| && !aborted
        invariant 0 <= i <= |keys|
        invariant Now() == Turns(im, known, keys[..i], start)
      {
        assert keys[..i + 1][..i] == keys[..i];
        ImportOne(im, known, keys[i]);
        i := i + 1;
      }
      if aborted {
        AbortedStays(im, known, keys, start, i);
      } else {
        assert keys[..i] == keys;
      }
    }
  }

  lemma {:induction false} AbortedStays(im: Import, known: set<string>, keys: seq<string>, p: Progress, i: nat)
    requires i <= |keys| && Turns(im, known, keys[..i], p).aborted
    ensures Turns(im, known, keys, p) == Turns(im, known, keys[..i], p)
  {
    hide Receive;
    if i < |keys| {
      var front := keys[..|keys| - 1];
      assert front[..i] == keys[..i];
      AbortedStays(im, known, front, p, i);
    } else {
      assert keys[..i] == keys;
    }
  }
}
