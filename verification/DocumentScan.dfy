/**
 * Reading a client's documents scope by scope under one cap, and when the read may be called complete.
 *
 * What the vendor answers is a function of the position of the scope, so a scope met twice may answer
 * differently. A download that throws ends the scan without a result.
 */
module DocumentScan {
  import opened Basics

  datatype Scope = WorkItemScope(key: string) | ClientScope(key: string)

  datatype Document = Document(documentId: string, fileName: string)

  datatype Listing = Listed(documents: seq<Document>) | NotListed(reason: string)

  datatype File = File(documentId: string, fileName: string, content: string)

  datatype Refusal = Refusal(documentId: string, reason: string)

  datatype Download = Batch(files: seq<File>, failures: seq<Refusal>) | DownloadThrew

  /** What reading a file comes to: no text, text that is refused, or text that is accepted. */
  datatype Verdict = NoText | Refused | Accepted

  datatype Failure =
    | SearchFailed(reason: string)
    | ScopeFailed(scope: Scope, reason: string)
    | FileFailed(scope: Scope, why: Refusal)

  datatype Vendor = Vendor(
    list: nat -> Listing,
    download: (nat, seq<string>) -> Download,
    verdict: (nat, File) -> Verdict)

  /** Everything else a scan depends on: the tax year, the year a file name names, and the collation of names. */
  datatype Reading = Reading(taxYear: int, yearIn: string -> Option<int>, order: string -> real)

  const LIMIT := 60

  // ---------------------------------------------------------------- Which documents, in which order

  function LowerLetter(c: char): char {
    if 'A' <= c <= 'Z' then (c as int + 32) as char else c
  }

  predicate EndsWith(name: string, ending: string) {
    |name| >= |ending| && forall i | 0 <= i < |ending| :: LowerLetter(name[|name| - |ending| + i]) == ending[i]
  }

  predicate IsReadable(d: Document) {
    EndsWith(d.fileName, ".docx") || EndsWith(d.fileName, ".pdf")
  }

  function YearRank(r: Reading, year: Option<int>): nat {
    if year == Some(r.taxYear - 1) then 0
    else if year.Some? && year.value >= r.taxYear - 3 then 1
    else if year.None? then 2
    else 3
  }

  /** Not after, in the order the cap reads them. */
  predicate Before(r: Reading, a: Document, b: Document) {
    var x, y := YearRank(r, r.yearIn(a.fileName)), YearRank(r, r.yearIn(b.fileName));
    x < y || (x == y && r.order(a.fileName) <= r.order(b.fileName))
  }

  function Insert(r: Reading, sorted: seq<Document>, d: Document): seq<Document> {
    if sorted == [] || Before(r, sorted[|sorted| - 1], d) then sorted + [d]
    else Insert(r, sorted[..|sorted| - 1], d) + [sorted[|sorted| - 1]]
  }

  /** The readable documents of a listing, most relevant first. */
  function Sorted(r: Reading, listing: seq<Document>): seq<Document> {
    if listing == [] then []
    else
      var rest := Sorted(r, listing[..|listing| - 1]);
      var last := listing[|listing| - 1];
      if IsReadable(last) then Insert(r, rest, last) else rest
  }

  lemma {:induction false} InsertHas(r: Reading, sorted: seq<Document>, d: Document)
    ensures forall x :: x in Insert(r, sorted, d) <==> x in sorted || x == d
  {
    hide Before;
    if !(sorted == [] || Before(r, sorted[|sorted| - 1], d)) {
      var n := |sorted| - 1;
      assert sorted == sorted[..n] + [sorted[n]];
      InsertHas(r, sorted[..n], d);
    }
  }

  /** A readable document is listed exactly when it is in the sorted order. */
  lemma {:induction false} SortedHas(r: Reading, listing: seq<Document>)
    ensures forall d :: d in Sorted(r, listing) <==> d in listing && IsReadable(d)
  {
    hide IsReadable, Insert;
    if listing != [] {
      var n := |listing| - 1;
      assert listing == listing[..n] + [listing[n]];
      SortedHas(r, listing[..n]);
      InsertHas(r, Sorted(r, listing[..n]), listing[n]);
    }
  }

  /** A full stop and docx, in any mix of letter case. */
  predicate DocxEnding(e: string) {
    |e| == 5 && e[0] == '.' && e[1] in {'d', 'D'} && e[2] in {'o', 'O'} && e[3] in {'c', 'C'} && e[4] in {'x', 'X'}
  }

  /** A full stop and pdf, in any mix of letter case. */
  predicate PdfEnding(e: string) {
    |e| == 4 && e[0] == '.' && e[1] in {'p', 'P'} && e[2] in {'d', 'D'} && e[3] in {'f', 'F'}
  }

  /** Some base name and one of the two endings. */
  ghost predicate NamesReadable(name: string) {
    exists base, ending :: name == base + ending && (DocxEnding(ending) || PdfEnding(ending))
  }

  lemma LowersTo(c: char, l: char)
    requires 'a' <= l <= 'z'
    ensures LowerLetter(c) == '.' <==> c == '.'
    ensures LowerLetter(c) == l <==> c == l || c as int == l as int - 32
  {
  }

  lemma EndsLetterByLetter(name: string, ending: string)
    requires |name| >= |ending|
    ensures EndsWith(name, ending) <==>
            forall i | 0 <= i < |ending| :: LowerLetter(name[|name| - |ending|..][i]) == ending[i]
  {
  }

  lemma FiveLetters(e: string, ending: string)
    requires |e| == |ending| == 5
    ensures (forall i | 0 <= i < |ending| :: LowerLetter(e[i]) == ending[i]) <==>
            LowerLetter(e[0]) == ending[0] && LowerLetter(e[1]) == ending[1] && LowerLetter(e[2]) == ending[2]
            && LowerLetter(e[3]) == ending[3] && LowerLetter(e[4]) == ending[4]
  {
    hide LowerLetter;
  }

  lemma FourLetters(e: string, ending: string)
    requires |e| == |ending| == 4
    ensures (forall i | 0 <= i < |ending| :: LowerLetter(e[i]) == ending[i]) <==>
            LowerLetter(e[0]) == ending[0] && LowerLetter(e[1]) == ending[1] && LowerLetter(e[2]) == ending[2]
            && LowerLetter(e[3]) == ending[3]
  {
    hide LowerLetter;
  }

  lemma EndsInDocx(name: string)
    requires |name| >= 5
    ensures EndsWith(name, ".docx") <==> DocxEnding(name[|name| - 5..])
  {
    hide LowerLetter, EndsWith;
    var e := name[|name| - 5..];
    EndsLetterByLetter(name, ".docx");
    FiveLetters(e, ".docx");
    LowersTo(e[0], 'd');
    LowersTo(e[1], 'd');
    LowersTo(e[2], 'o');
    LowersTo(e[3], 'c');
    LowersTo(e[4], 'x');
  }

  lemma EndsInPdf(name: string)
    requires |name| >= 4
    ensures EndsWith(name, ".pdf") <==> PdfEnding(name[|name| - 4..])
  {
    hide LowerLetter, EndsWith;
    var e := name[|name| - 4..];
    EndsLetterByLetter(name, ".pdf");
    FourLetters(e, ".pdf");
    LowersTo(e[0], 'p');
    LowersTo(e[1], 'p');
    LowersTo(e[2], 'd');
    LowersTo(e[3], 'f');
  }

  lemma ReadableByName(d: Document)
    ensures IsReadable(d) <==> NamesReadable(d.fileName)
  {
    hide EndsWith, DocxEnding, PdfEnding, NamesReadable;
    var name := d.fileName;
    if IsReadable(d) {
      ReadableHasEnding(name);
    }
    if NamesReadable(name) {
      EndingIsReadable(name);
    }
  }

  lemma ReadableHasEnding(name: string)
    requires EndsWith(name, ".docx") || EndsWith(name, ".pdf")
    ensures NamesReadable(name)
  {
    hide EndsWith, DocxEnding, PdfEnding;
    Endings(name);
    if EndsWith(name, ".docx") {
      EndsInDocx(name);
      assert name == name[..|name| - 5] + name[|name| - 5..];
    } else {
      EndsInPdf(name);
      assert name == name[..|name| - 4] + name[|name| - 4..];
    }
  }

  lemma EndingIsReadable(name: string)
    requires NamesReadable(name)
    ensures EndsWith(name, ".docx") || EndsWith(name, ".pdf")
  {
    hide EndsWith, DocxEnding, PdfEnding;
    var base, ending :| name == base + ending && (DocxEnding(ending) || PdfEnding(ending));
    Endings(ending);
    assert name[|name| - |ending|..] == ending;
    if DocxEnding(ending) {
      EndsInDocx(name);
    } else {
      EndsInPdf(name);
    }
  }

  lemma Endings(e: string)
    ensures DocxEnding(e) ==> |e| == 5
    ensures PdfEnding(e) ==> |e| == 4
    ensures EndsWith(e, ".docx") ==> |e| >= 5
    ensures EndsWith(e, ".pdf") ==> |e| >= 4
  {
  }

  /** A document is considered exactly when it is listed and its name ends in .docx or .pdf, however that is written. */
  lemma ConsideredByName(r: Reading, listing: seq<Document>, d: Document)
    ensures d in Sorted(r, listing) <==> d in listing && NamesReadable(d.fileName)
  {
    hide IsReadable, Sorted, NamesReadable;
    SortedHas(r, listing);
    ReadableByName(d);
  }

  predicate InOrder(r: Reading, ds: seq<Document>) {
    forall i, j | 0 <= i < j < |ds| :: Before(r, ds[i], ds[j])
  }

  lemma BeforeTotal(r: Reading, a: Document, b: Document)
    ensures Before(r, a, b) || Before(r, b, a)
  {
  }

  lemma BeforeTransitive(r: Reading, a: Document, b: Document, c: Document)
    requires Before(r, a, b) && Before(r, b, c)
    ensures Before(r, a, c)
  {
  }

  lemma {:induction false} InsertInOrder(r: Reading, sorted: seq<Document>, d: Document)
    requires InOrder(r, sorted)
    ensures InOrder(r, Insert(r, sorted, d))
  {
    hide Before;
    if sorted != [] {
      var n := |sorted| - 1;
      var last := sorted[n];
      if Before(r, last, d) {
        forall i | 0 <= i < n
          ensures Before(r, sorted[i], d)
        {
          BeforeTransitive(r, sorted[i], last, d);
        }
      } else {
        InsertInOrder(r, sorted[..n], d);
        InsertHas(r, sorted[..n], d);
        BeforeTotal(r, last, d);
        var front := Insert(r, sorted[..n], d);
        forall i | 0 <= i < |front|
          ensures Before(r, front[i], last)
        {
          assert front[i] in front;
        }
      }
    }
  }

  lemma {:induction false} SortedInOrder(r: Reading, listing: seq<Document>)
    ensures InOrder(r, Sorted(r, listing))
  {
    if listing != [] {
      SortedInOrder(r, listing[..|listing| - 1]);
      InsertInOrder(r, Sorted(r, listing[..|listing| - 1]), listing[|listing| - 1]);
    }
  }

  /** Whatever the cap leaves of a scope, nothing it leaves out comes before anything it takes. */
  lemma CapTakesMostRelevant(r: Reading, listing: seq<Document>, room: nat, taken: Document, left: Document)
    requires room <= |Sorted(r, listing)|
    requires taken in Sorted(r, listing)[..room] && left in Sorted(r, listing)[room..]
    ensures Before(r, taken, left)
  {
    hide Before, Sorted;
    var all := Sorted(r, listing);
    SortedInOrder(r, listing);
    var i :| 0 <= i < room && all[i] == taken;
    var j :| room <= j < |all| && all[j] == left;
  }

  predicate NamesPriorYear(r: Reading, d: Document) {
    r.yearIn(d.fileName) == Some(r.taxYear - 1)
  }

  /** The prior year is read first: while a document naming it is left out, only such documents are taken. */
  lemma PriorYearIsReadFirst(r: Reading, listing: seq<Document>, room: nat, taken: Document, left: Document)
    requires room <= |Sorted(r, listing)|
    requires taken in Sorted(r, listing)[..room] && left in Sorted(r, listing)[room..]
    ensures NamesPriorYear(r, left) ==> NamesPriorYear(r, taken)
  {
    hide Sorted;
    CapTakesMostRelevant(r, listing, room, taken, left);
  }

  /** The name has a year no earlier than three before the tax year, other than the prior one. */
  predicate NamesRecentYear(r: Reading, d: Document) {
    var y := r.yearIn(d.fileName);
    y.Some? && y.value > r.taxYear - 4 && y.value != r.taxYear - 1
  }

  predicate NamesNoYear(r: Reading, d: Document) {
    r.yearIn(d.fileName) == None
  }

  predicate NamesOlderYear(r: Reading, d: Document) {
    var y := r.yearIn(d.fileName);
    y.Some? && y.value < r.taxYear - 3
  }

  /** A document is read strictly before another. */
  predicate ReadFirst(r: Reading, a: Document, b: Document) {
    Before(r, a, b) && !Before(r, b, a)
  }

  /**
   * The order of reading: names of the prior year first, then of a recent year, then of none, then of an older one;
   * and of two alike in that, by the collation of their names.
   */
  lemma ReadingOrderIs(r: Reading, a: Document, b: Document)
    ensures NamesPriorYear(r, a) && !NamesPriorYear(r, b) ==> ReadFirst(r, a, b)
    ensures NamesRecentYear(r, a) && (NamesNoYear(r, b) || NamesOlderYear(r, b)) ==> ReadFirst(r, a, b)
    ensures NamesNoYear(r, a) && NamesOlderYear(r, b) ==> ReadFirst(r, a, b)
    ensures NamesPriorYear(r, a) || NamesRecentYear(r, a) || NamesNoYear(r, a) || NamesOlderYear(r, a)
    ensures (NamesPriorYear(r, a) <==> NamesPriorYear(r, b)) && (NamesRecentYear(r, a) <==> NamesRecentYear(r, b))
            && (NamesNoYear(r, a) <==> NamesNoYear(r, b)) ==>
              (Before(r, a, b) <==> r.order(a.fileName) <= r.order(b.fileName))
  {
  }

  lemma {:induction false} InsertAddsOne(r: Reading, sorted: seq<Document>, d: Document)
    ensures multiset(Insert(r, sorted, d)) == multiset(sorted) + multiset{d}
  {
    hide Before;
    if !(sorted == [] || Before(r, sorted[|sorted| - 1], d)) {
      var n := |sorted| - 1;
      assert sorted == sorted[..n] + [sorted[n]];
      InsertAddsOne(r, sorted[..n], d);
    }
  }

  /** A listing is put in order as often as each document is listed, and without those that cannot be read. */
  lemma {:induction false} SortedCounts(r: Reading, listing: seq<Document>, d: Document)
    ensures multiset(Sorted(r, listing))[d] == if NamesReadable(d.fileName) then multiset(listing)[d] else 0
  {
    hide Insert, IsReadable, NamesReadable;
    if listing != [] {
      var n := |listing| - 1;
      assert listing == listing[..n] + [listing[n]];
      SortedCounts(r, listing[..n], d);
      ReadableByName(listing[n]);
      InsertAddsOne(r, Sorted(r, listing[..n]), listing[n]);
    }
  }

  // ---------------------------------------------------------------- Which scopes

  datatype Search = SearchFound(workItems: seq<string>) | SearchThrew(reason: string)

  function WorkItemScopes(keys: seq<string>): seq<Scope> {
    if keys == [] then [] else WorkItemScopes(keys[..|keys| - 1]) + [WorkItemScope(keys[|keys| - 1])]
  }

  method AddWorkItems(own: seq<Scope>, keys: seq<string>) returns (scopes: seq<Scope>)
    ensures scopes == own + WorkItemScopes(keys)
  {
    scopes := own;
    var i := 0;
    assert keys[..0] == [];
    while i < |keys|
      invariant 0 <= i <= |keys|
      invariant scopes == own + WorkItemScopes(keys[..i])
    {
      assert keys[..i + 1][..i] == keys[..i];
      scopes := scopes + [WorkItemScope(keys[i])];
      i := i + 1;
    }
    assert keys[..i] == keys;
  }

  /** The engagement's own work item, last year's work items of the client, then the client's own files. */
  method ScopesFor(workItem: Option<string>, client: Option<string>, search: Search)
    returns (scopes: seq<Scope>, failures: seq<Failure>)
    ensures scopes == (if workItem.Some? then [WorkItemScope(workItem.value)] else [])
                      + (if client.Some? && search.SearchFound? then WorkItemScopes(search.workItems) else [])
                      + (if client.Some? then [ClientScope(client.value)] else [])
    ensures failures == if client.Some? && search.SearchThrew? then [SearchFailed(search.reason)] else []
  {
    hide WorkItemScopes;
    scopes, failures := [], [];
    if workItem.Some? {
      scopes := [WorkItemScope(workItem.value)];
    }
    if client.None? {
      assert scopes + [] + [] == scopes;
      return;
    }
    match search {
      case SearchThrew(reason) =>
        assert scopes + [] == scopes;
        failures := [SearchFailed(reason)];
      case SearchFound(items) =>
        scopes := AddWorkItems(scopes, items);
    }
    scopes := scopes + [ClientScope(client.value)];
  }

  // ---------------------------------------------------------------- The loop

  datatype Progress = Progress(
    considered: nat,
    read: nat,
    unreadable: nat,
    accepted: nat,
    scopesRead: nat,
    cappedAt: Option<nat>,
    failures: seq<Failure>,
    stopped: bool,
    crashed: bool)

  function Ids(ds: seq<Document>): (ids: seq<string>)
    ensures |ids| == |ds|
  {
    seq(|ds|, i requires 0 <= i < |ds| => ds[i].documentId)
  }

  function FileFailures(scope: Scope, refusals: seq<Refusal>): (fs: seq<Failure>)
    ensures |fs| == |refusals|
  {
    seq(|refusals|, i requires 0 <= i < |refusals| => FileFailed(scope, refusals[i]))
  }

  function CountOf(v: Vendor, i: nat, files: seq<File>, verdict: Verdict): nat {
    if files == [] then 0
    else CountOf(v, i, files[..|files| - 1], verdict) + if v.verdict(i, files[|files| - 1]) == verdict then 1 else 0
  }

  lemma {:induction false} EveryFileCounted(v: Vendor, i: nat, files: seq<File>)
    ensures CountOf(v, i, files, NoText) + CountOf(v, i, files, Refused) + CountOf(v, i, files, Accepted) == |files|
  {
    if files != [] {
      EveryFileCounted(v, i, files[..|files| - 1]);
    }
  }

  /** What one scope adds. */
  function Turn(v: Vendor, r: Reading, scopes: seq<Scope>, i: nat, p: Progress): Progress
    requires i < |scopes|
  {
    if p.stopped || p.crashed then p
    else if p.considered >= LIMIT then p.(cappedAt := Some(LIMIT), stopped := true)
    else
      match v.list(i)
      case NotListed(reason) => p.(failures := p.failures + [ScopeFailed(scopes[i], reason)])
      case Listed(documents) =>
        var readable := Sorted(r, documents);
        var room := LIMIT - p.considered;
        var take := if |readable| > room then readable[..room] else readable;
        var q := p.(scopesRead := p.scopesRead + 1,
                    cappedAt := if |readable| > |take| then Some(LIMIT) else p.cappedAt,
                    considered := p.considered + |take|);
        if take == [] then q
        else
          match v.download(i, Ids(take))
          case DownloadThrew => q.(crashed := true)
          case Batch(files, failures) =>
            q.(failures := p.failures + FileFailures(scopes[i], failures),
               unreadable := p.unreadable + CountOf(v, i, files, NoText),
               read := p.read + CountOf(v, i, files, Refused) + CountOf(v, i, files, Accepted),
               accepted := p.accepted + CountOf(v, i, files, Accepted))
  }

  function Start(failures: seq<Failure>): Progress {
    Progress(0, 0, 0, 0, 0, None, failures, false, false)
  }

  function Turns(v: Vendor, r: Reading, scopes: seq<Scope>, n: nat, failures: seq<Failure>): Progress
    requires n <= |scopes|
  {
    if n == 0 then Start(failures) else Turn(v, r, scopes, n - 1, Turns(v, r, scopes, n - 1, failures))
  }

  predicate Complete(p: Progress) {
    !p.crashed && p.failures == [] && p.cappedAt.None?
  }

  datatype ScanResult = ScanResult(
    considered: nat,
    read: nat,
    unreadable: nat,
    accepted: nat,
    scopesRead: nat,
    failures: seq<Failure>,
    complete: bool,
    cappedAt: Option<nat>)

  function ResultOf(p: Progress): Option<ScanResult> {
    if p.crashed then None
    else Some(ScanResult(p.considered, p.read, p.unreadable, p.accepted, p.scopesRead, p.failures, Complete(p), p.cappedAt))
  }

  method ReadFiles(v: Vendor, i: nat, files: seq<File>) returns (read: nat, unreadable: nat, accepted: nat)
    ensures unreadable == CountOf(v, i, files, NoText)
    ensures accepted == CountOf(v, i, files, Accepted)
    ensures read == CountOf(v, i, files, Refused) + CountOf(v, i, files, Accepted)
  {
    read, unreadable, accepted := 0, 0, 0;
    var k := 0;
    while k < |files|
      invariant 0 <= k <= |files|
      invariant unreadable == CountOf(v, i, files[..k], NoText)
      invariant accepted == CountOf(v, i, files[..k], Accepted)
      invariant read == CountOf(v, i, files[..k], Refused) + CountOf(v, i, files[..k], Accepted)
    {
      assert files[..k + 1][..k] == files[..k];
      var verdict := v.verdict(i, files[k]);
      if verdict == NoText {
        unreadable := unreadable + 1;
      } else {
        read := read + 1;
        if verdict == Accepted {
          accepted := accepted + 1;
        }
      }
      k := k + 1;
    }
    assert files[..k] == files;
  }

  lemma TurnsStart(v: Vendor, r: Reading, scopes: seq<Scope>, failures: seq<Failure>)
    ensures Turns(v, r, scopes, 0, failures) == Start(failures)
  {
  }

  lemma TurnsNext(v: Vendor, r: Reading, scopes: seq<Scope>, i: nat, failures: seq<Failure>)
    requires i < |scopes|
    ensures Turns(v, r, scopes, i + 1, failures) == Turn(v, r, scopes, i, Turns(v, r, scopes, i, failures))
  {
  }

  /** The scope loop of `scan`; None is the exception of a download that throws. */
  method Scan(v: Vendor, r: Reading, scopes: seq<Scope>, found: seq<Failure>) returns (result: Option<ScanResult>)
    ensures result == ResultOf(Turns(v, r, scopes, |scopes|, found))
  {
    hide Sorted, CountOf, Ids, Turns;
    TurnsStart(v, r, scopes, found);
    var failures := found;
    var considered: nat, read: nat, unreadable: nat, accepted: nat, scopesRead: nat := 0, 0, 0, 0, 0;
    var cappedAt: Option<nat> := None;
    var i := 0;
    while i < |scopes|
      invariant 0 <= i <= |scopes|
      invariant Turns(v, r, scopes, i, found)
             == Progress(considered, read, unreadable, accepted, scopesRead, cappedAt, failures, false, false)
      invariant considered <= LIMIT
    {
      TurnsNext(v, r, scopes, i, found);
      if considered >= LIMIT {
        cappedAt := Some(LIMIT);
        StoppedStays(v, r, scopes, i + 1, |scopes|, found);
        break;
      }
      var listing := v.list(i);
      if listing.Listed? {
        scopesRead := scopesRead + 1;
        var readable := Sorted(r, listing.documents);
        var room := LIMIT - considered;
        var take := if |readable| > room then readable[..room] else readable;
        if |readable| > |take| {
          cappedAt := Some(LIMIT);
        }
        considered := considered + |take|;
        if take != [] {
          var batch := v.download(i, Ids(take));
          if batch.DownloadThrew? {
            StoppedStays(v, r, scopes, i + 1, |scopes|, found);
            return None;
          }
          failures := failures + FileFailures(scopes[i], batch.failures);
          var more, none, good := ReadFiles(v, i, batch.files);
          read, unreadable, accepted := read + more, unreadable + none, accepted + good;
        }
      } else {
        failures := failures + [ScopeFailed(scopes[i], listing.reason)];
      }
      i := i + 1;
    }
    result := Some(ScanResult(considered, read, unreadable, accepted, scopesRead, failures,
                              failures == [] && cappedAt.None?, cappedAt));
  }

  lemma {:induction false} StoppedStays(v: Vendor, r: Reading, scopes: seq<Scope>, i: nat, n: nat, failures: seq<Failure>)
    requires i <= n <= |scopes|
    requires Turns(v, r, scopes, i, failures).stopped || Turns(v, r, scopes, i, failures).crashed
    ensures Turns(v, r, scopes, n, failures) == Turns(v, r, scopes, i, failures)
  {
    hide Sorted, CountOf;
    if i < n {
      StoppedStays(v, r, scopes, i, n - 1, failures);
    }
  }

  // ---------------------------------------------------------------- What a result means

  /** The readable documents listed in the first scopes. */
  function Total(v: Vendor, r: Reading, n: nat): nat {
    if n == 0 then 0
    else Total(v, r, n - 1) + if v.list(n - 1).Listed? then |Sorted(r, v.list(n - 1).documents)| else 0
  }

  function TotalFiles(v: Vendor, r: Reading, n: nat): nat {
    if n == 0 then 0
    else TotalFiles(v, r, n - 1) + |FilesAt(v, r, n - 1)|
  }

  /** What came back when every readable document of a scope was asked for. */
  function FilesAt(v: Vendor, r: Reading, i: nat): seq<File> {
    if !v.list(i).Listed? || Sorted(r, v.list(i).documents) == [] then []
    else
      var d := v.download(i, Ids(Sorted(r, v.list(i).documents)));
      if d.Batch? then d.files else []
  }

  /** A scope that was listed, and whose readable documents, if any, were all asked for with no refusal. */
  predicate WholeScope(v: Vendor, r: Reading, i: nat) {
    v.list(i).Listed?
    && (Sorted(r, v.list(i).documents) != [] ==>
          var d := v.download(i, Ids(Sorted(r, v.list(i).documents)));
          d.Batch? && d.failures == [])
  }

  /** A whole scope that the cap did not come into. */
  predicate ReadInFull(v: Vendor, r: Reading, i: nat) {
    WholeScope(v, r, i) && Total(v, r, i) < LIMIT && Total(v, r, i + 1) <= LIMIT
  }

  predicate NothingLeftOut(v: Vendor, r: Reading, n: nat) {
    forall i: nat | i < n :: ReadInFull(v, r, i)
  }

  lemma TurnExactly(v: Vendor, r: Reading, scopes: seq<Scope>, i: nat, p: Progress)
    requires i < |scopes| && Complete(p) && !p.stopped && p.considered == Total(v, r, i)
    requires p.read + p.unreadable == TotalFiles(v, r, i)
    ensures var q := Turn(v, r, scopes, i, p);
            && (Complete(q) <==> ReadInFull(v, r, i))
            && (Complete(q) ==> !q.stopped && q.considered == Total(v, r, i + 1) && q.scopesRead == p.scopesRead + 1
                                && q.read + q.unreadable == TotalFiles(v, r, i + 1))
  {
    hide Sorted, CountOf, Ids;
    EveryFileCounted(v, i, FilesAt(v, r, i));
    if v.list(i).Listed? && p.considered < LIMIT {
      var readable := Sorted(r, v.list(i).documents);
      if |readable| <= LIMIT - p.considered {
        assert Total(v, r, i + 1) <= LIMIT;
      }
    }
  }

  lemma IncompleteStays(v: Vendor, r: Reading, scopes: seq<Scope>, i: nat, p: Progress)
    requires i < |scopes| && !Complete(p)
    ensures !Complete(Turn(v, r, scopes, i, p))
  {
    hide Sorted, CountOf, Ids;
  }

  lemma NothingYet(v: Vendor, r: Reading, failures: seq<Failure>)
    ensures Complete(Start(failures)) <==> failures == []
    ensures Total(v, r, 0) == 0 && TotalFiles(v, r, 0) == 0
  {
  }

  lemma {:induction false} TurnsExactly(v: Vendor, r: Reading, scopes: seq<Scope>, n: nat, failures: seq<Failure>)
    requires n <= |scopes|
    ensures var q := Turns(v, r, scopes, n, failures);
            && (Complete(q) <==> failures == [] && NothingLeftOut(v, r, n))
            && (Complete(q) ==> !q.stopped && q.considered == Total(v, r, n) && q.scopesRead == n
                                && q.read + q.unreadable == TotalFiles(v, r, n))
  {
    hide Turn, ReadInFull, Total, TotalFiles, Complete;
    NothingYet(v, r, failures);
    if n > 0 {
      var p := Turns(v, r, scopes, n - 1, failures);
      TurnsExactly(v, r, scopes, n - 1, failures);
      if Complete(p) {
        TurnExactly(v, r, scopes, n - 1, p);
      } else {
        IncompleteStays(v, r, scopes, n - 1, p);
      }
    }
  }

  /** At most the limit is ever considered, and never more accepted than read. */
  lemma {:induction false} NeverMoreThanTheLimit(v: Vendor, r: Reading, scopes: seq<Scope>, n: nat, failures: seq<Failure>)
    requires n <= |scopes|
    ensures var q := Turns(v, r, scopes, n, failures);
            q.considered <= 60 && q.accepted <= q.read && (q.stopped ==> q.cappedAt == Some(60))
  {
    hide Sorted, CountOf, Ids;
    if n > 0 {
      NeverMoreThanTheLimit(v, r, scopes, n - 1, failures);
    }
  }

  /**
   * A scan is called complete exactly when the search for scopes did not fail, every scope was listed, no
   * document was refused in download, and the cap was neither exceeded nor reached before the last scope.
   */
  lemma CompleteExactly(v: Vendor, r: Reading, scopes: seq<Scope>, failures: seq<Failure>)
    ensures var result := ResultOf(Turns(v, r, scopes, |scopes|, failures));
            && (result.Some? && result.value.complete <==> failures == [] && NothingLeftOut(v, r, |scopes|))
            && (result.Some? && result.value.complete ==>
                  && result.value.considered == Total(v, r, |scopes|) && result.value.scopesRead == |scopes|
                  && result.value.read + result.value.unreadable == TotalFiles(v, r, |scopes|))
  {
    hide Turns, NothingLeftOut;
    TurnsExactly(v, r, scopes, |scopes|, failures);
  }

  /** The vendor accounts for every document it is asked for: it comes back, or its failure is reported. */
  ghost predicate Delivers(v: Vendor) {
    forall i, ids :: var d := v.download(i, ids);
      d.Batch? ==> forall id | id in ids ::
        (exists f | f in d.files :: f.documentId == id) || (exists e | e in d.failures :: e.documentId == id)
  }

  lemma IdsHave(ds: seq<Document>, d: Document)
    requires d in ds
    ensures d.documentId in Ids(ds)
  {
    var i :| 0 <= i < |ds| && ds[i] == d;
    assert Ids(ds)[i] == d.documentId;
  }

  /** A complete scan: every document listed in every scope under a .docx or .pdf name was asked for and came back. */
  lemma CompleteMeansEverythingCameBack(v: Vendor, r: Reading, scopes: seq<Scope>, failures: seq<Failure>, i: nat,
                                        d: Document)
    requires Delivers(v) && Complete(Turns(v, r, scopes, |scopes|, failures)) && i < |scopes|
    ensures v.list(i).Listed?
    ensures d in v.list(i).documents && NamesReadable(d.fileName)
            ==> exists f | f in FilesAt(v, r, i) :: f.documentId == d.documentId
  {
    hide Turns, Ids, Sorted, NamesReadable;
    TurnsExactly(v, r, scopes, |scopes|, failures);
    assert ReadInFull(v, r, i);
    var documents := v.list(i).documents;
    ConsideredByName(r, documents, d);
    if d in documents && NamesReadable(d.fileName) {
      IdsHave(Sorted(r, documents), d);
      var batch := v.download(i, Ids(Sorted(r, documents)));
      assert batch.Batch? && batch.failures == [];
    }
  }

  /** Files nothing could be read from do not count against a complete scan, although the design says they should. */
  lemma UnreadableFilesStayComplete(v: Vendor, r: Reading, scope: Scope, d: Document, f: File)
    requires NamesReadable(d.fileName) && v.list(0) == Listed([d]) && v.download(0, [d.documentId]) == Batch([f], [])
            && v.verdict(0, f) == NoText
    ensures var result := ResultOf(Turns(v, r, [scope], 1, []));
            result.Some? && result.value.complete && result.value.unreadable == 1 && result.value.read == 0
  {
    hide NamesReadable;
    ReadableByName(d);
    assert [d][..0] == [] && Sorted(r, [d]) == [d] && Ids([d]) == [d.documentId];
    assert [f][..0] == [] && CountOf(v, 0, [f], NoText) == 1 && CountOf(v, 0, [f], Refused) == 0
      && CountOf(v, 0, [f], Accepted) == 0;
    var p := Turns(v, r, [scope], 0, []);
    assert p == Start([]);
    assert Turns(v, r, [scope], 1, []) == Turn(v, r, [scope], 0, p);
  }
}
