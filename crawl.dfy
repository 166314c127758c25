/**
 * The body of `get_jobs`: build the search URL, open it, wait for the
 * listings, expand them with the "load more" loop, then run get_info and
 * add_to_db once per listing element, in enumeration order.
 *
 * A listing whose extraction exhausts its retries is counted as failed and
 * skipped, so one bad element does not end the crawl.
 */
module Crawl {
  import opened Wrappers
  import opened Text
  import opened Records
  import opened SearchUrl
  import opened Persistence
  import opened Pagination
  import opened Extraction

  /** What the element loop leaves behind: the tables, the elements seen, the elements skipped. */
  datatype Summary = Summary(store: Store, processed: nat, failed: nat)

  /** What get_info returns for each element, in enumeration order. */
  function Outcomes(elements: seq<Element>): (results: seq<Option<ListingRecord>>)
    ensures |results| == |elements|
    ensures forall i :: 0 <= i < |elements| ==> results[i] == Extract(Attempts(elements[i]), DefaultMaxTries)
  {
    seq(|elements|, i requires 0 <= i < |elements| => Extract(Attempts(elements[i]), DefaultMaxTries))
  }

  /** The records that were extracted, in order. */
  function Extracted(results: seq<Option<ListingRecord>>): seq<ListingRecord> {
    if results == [] then []
    else
      Extracted(results[..|results| - 1])
        + match results[|results| - 1] { case None => [] case Some(rec) => [rec] }
  }

  /** The number of elements whose extraction exhausted its retries. */
  function FailedCount(results: seq<Option<ListingRecord>>): nat {
    if results == [] then 0
    else FailedCount(results[..|results| - 1]) + (if results[|results| - 1].None? then 1 else 0)
  }

  /** add_to_db on each record in turn, each one its own committed transaction. */
  function PersistAll(s: Store, records: seq<ListingRecord>): (t: Store)
    ensures s.Valid() ==> t.Valid()
  {
    if records == [] then s
    else Persist(PersistAll(s, records[..|records| - 1]), records[|records| - 1])
  }

  /**
   * The element loop over the results of get_info: every element is
   * processed, the failed ones are counted and skipped, the others written.
   */
  function ElementLoop(s: Store, results: seq<Option<ListingRecord>>): (r: Summary)
    ensures r.processed == |results|
    ensures r.failed == FailedCount(results)
    ensures s.Valid() ==> r.store.Valid()
  {
    if results == [] then Summary(s, 0, 0)
    else
      var prev := ElementLoop(s, results[..|results| - 1]);
      match results[|results| - 1]
      case None => Summary(prev.store, prev.processed + 1, prev.failed + 1)
      case Some(rec) => Summary(Persist(prev.store, rec), prev.processed + 1, prev.failed)
  }

  /** The tables end up as if exactly the extracted records had been written, in enumeration order. */
  lemma {:induction false} CrawlStoresExtracted(s: Store, results: seq<Option<ListingRecord>>)
    ensures ElementLoop(s, results).store == PersistAll(s, Extracted(results))
  {
    if results != [] {
      var front := results[..|results| - 1];
      CrawlStoresExtracted(s, front);
      var extracted := Extracted(front);
      match results[|results| - 1]
      case None =>
        assert Extracted(results) == extracted + [] == extracted;
      case Some(rec) =>
        assert Extracted(results) == extracted + [rec];
        assert (extracted + [rec])[..|extracted|] == extracted;
    }
  }

  lemma {:induction false} ExtractedAppend(a: seq<Option<ListingRecord>>, b: seq<Option<ListingRecord>>)
    ensures Extracted(a + b) == Extracted(a) + Extracted(b)
    ensures FailedCount(a + b) == FailedCount(a) + FailedCount(b)
  {
    if b != [] {
      var b' := b[..|b| - 1];
      assert (a + b)[..|a + b| - 1] == a + b';
      ExtractedAppend(a, b');
    } else {
      assert a + b == a;
    }
  }

  lemma {:induction false} PersistAllAppend(s: Store, a: seq<ListingRecord>, b: seq<ListingRecord>)
    ensures PersistAll(s, a + b) == PersistAll(PersistAll(s, a), b)
  {
    if b != [] {
      var b' := b[..|b| - 1];
      assert (a + b)[..|a + b| - 1] == a + b';
      PersistAllAppend(s, a, b');
    } else {
      assert a + b == a;
    }
  }

  /** Processing `a` and then `b` is processing `a + b`: elements are handled one after another, in order. */
  lemma CrawlAppend(s: Store, a: seq<Option<ListingRecord>>, b: seq<Option<ListingRecord>>)
    ensures ElementLoop(s, a + b).store == ElementLoop(ElementLoop(s, a).store, b).store
    ensures ElementLoop(s, a + b).failed == ElementLoop(s, a).failed + ElementLoop(s, b).failed
  {
    ExtractedAppend(a, b);
    PersistAllAppend(s, Extracted(a), Extracted(b));
    CrawlStoresExtracted(s, a + b);
    CrawlStoresExtracted(s, a);
    CrawlStoresExtracted(ElementLoop(s, a).store, b);
  }

  /** An element whose extraction failed leaves the tables as if it were not on the page, and is counted once. */
  lemma CrawlSkipsFailure(s: Store, before: seq<Option<ListingRecord>>, after: seq<Option<ListingRecord>>)
    ensures ElementLoop(s, before + [None] + after).store == ElementLoop(s, before + after).store
    ensures ElementLoop(s, before + [None] + after).failed == ElementLoop(s, before + after).failed + 1
  {
    var failure: seq<Option<ListingRecord>> := [None];
    assert failure[..0] == [];
    assert Extracted(failure) == [] && FailedCount(failure) == 1;
    ExtractedAppend(before, failure);
    assert Extracted(before + failure) == Extracted(before);
    ExtractedAppend(before + failure, after);
    ExtractedAppend(before, after);
    CrawlStoresExtracted(s, before + failure + after);
    CrawlStoresExtracted(s, before + after);
  }

  /** A record stored before the loop is still stored after it, whatever the loop writes. */
  lemma {:induction false} ElementLoopKeepsStored(s: Store, results: seq<Option<ListingRecord>>, r: ListingRecord)
    requires Stored(s, r)
    ensures Stored(ElementLoop(s, results).store, r)
  {
    if results != [] {
      var n := |results| - 1;
      ElementLoopKeepsStored(s, results[..n], r);
      if results[n].Some? {
        StoredStaysStored(ElementLoop(s, results[..n]).store, r, results[n].value);
      }
    }
  }

  /** After the loop, every record it extracted is stored. */
  lemma {:induction false} ElementLoopStoresEach(s: Store, results: seq<Option<ListingRecord>>)
    ensures forall i :: 0 <= i < |results| && results[i].Some? ==>
      Stored(ElementLoop(s, results).store, results[i].value)
  {
    if results != [] {
      var n := |results| - 1;
      var front := results[..n];
      var prev := ElementLoop(s, front).store;
      ElementLoopStoresEach(s, front);
      forall i | 0 <= i < n && results[i].Some?
        ensures Stored(ElementLoop(s, results).store, results[i].value)
      {
        assert front[i] == results[i];
        if results[n].Some? {
          StoredStaysStored(prev, results[i].value, results[n].value);
        }
      }
    }
  }

  /** A loop over records that are all stored already leaves the tables unchanged. */
  lemma {:induction false} ElementLoopOfStored(s: Store, results: seq<Option<ListingRecord>>)
    requires forall i :: 0 <= i < |results| && results[i].Some? ==> Stored(s, results[i].value)
    ensures ElementLoop(s, results).store == s
  {
    if results != [] {
      var n := |results| - 1;
      var front := results[..n];
      forall i | 0 <= i < n && front[i].Some? ensures Stored(s, front[i].value) {
        assert front[i] == results[i];
      }
      ElementLoopOfStored(s, front);
      if results[n].Some? {
        RewriteStored(s, results[n].value);
      }
    }
  }

  /**
   * A record extracted again further down the page (a duplicate DOM entry),
   * after any other records, stores nothing beyond what its first copy
   * stored.
   */
  lemma CrawlDuplicate(s: Store, a: seq<Option<ListingRecord>>, r: ListingRecord,
                       b: seq<Option<ListingRecord>>, c: seq<Option<ListingRecord>>)
    ensures ElementLoop(s, a + [Some(r)] + b + [Some(r)] + c).store == ElementLoop(s, a + [Some(r)] + b + c).store
  {
    var x := a + [Some(r)] + b;
    var t := ElementLoop(s, x).store;
    ElementLoopStoresEach(s, x);
    assert x[|a|] == Some(r);
    ElementLoopOfStored(t, [Some(r)]);
    assert x + [Some(r)] + c == x + ([Some(r)] + c);
    CrawlAppend(s, x, [Some(r)] + c);
    CrawlAppend(t, [Some(r)], c);
    CrawlAppend(s, x, c);
  }

  /**
   * Crawling the same results again, in a later run against the tables the
   * first run left, adds no row.
   */
  lemma RerunAddsNothing(s: Store, results: seq<Option<ListingRecord>>)
    ensures ElementLoop(ElementLoop(s, results).store, results).store == ElementLoop(s, results).store
  {
    ElementLoopStoresEach(s, results);
    ElementLoopOfStored(ElementLoop(s, results).store, results);
  }

  /** Over any run of the loop, each (title, description) pair stays under a single job id. */
  lemma {:induction false} ElementLoopKeepsPairsUnique(s: Store, results: seq<Option<ListingRecord>>)
    requires s.Valid() && PairsUnique(s)
    ensures PairsUnique(ElementLoop(s, results).store)
  {
    if results != [] {
      var n := |results| - 1;
      var prev := ElementLoop(s, results[..n]).store;
      ElementLoopKeepsPairsUnique(s, results[..n]);
      assert prev.Valid();
      match results[n]
      case None =>
        assert ElementLoop(s, results).store == prev;
      case Some(rec) =>
        PersistKeepsPairsUnique(prev, rec);
        assert ElementLoop(s, results).store == Persist(prev, rec);
    }
  }

  /**
   * Two listings of one company with different titles, on an empty
   * database: one company row, two listings, two descriptions, two links.
   */
  lemma TwoListingsOneCompany()
    ensures
      var engineer := ListingRecord("Acme", "Remote", "Engineer", "https://example.com/1", "today", "desc A");
      var analyst := ListingRecord("Acme", "Remote", "Analyst", "https://example.com/2", "today", "desc B");
      var t := ElementLoop(Store([], [], [], [], 1, 1), [Some(engineer), Some(analyst)]).store;
      |t.companies| == 1 && |t.jobListings| == 2 && |t.jobsDescriptions| == 2 && |t.jobsCompanies| == 2
  {
    var engineer := ListingRecord("Acme", "Remote", "Engineer", "https://example.com/1", "today", "desc A");
    var analyst := ListingRecord("Acme", "Remote", "Analyst", "https://example.com/2", "today", "desc B");
    var results := [Some(engineer), Some(analyst)];
    assert results[..1] == [Some(engineer)];
    assert results[..1][..0] == [];
    var s0 := Store([], [], [], [], 1, 1);
    assert !HasCompany(s0.companies, "Acme");
    assert !ListingExists(s0.jobListings, s0.jobsDescriptions, "Engineer", "desc A");
    var s1 := Persist(s0, engineer);
    assert ElementLoop(s0, results[..1]).store == s1;
    assert s1.companies == [Company(1, "Acme")];
    assert s1.jobListings == [JobListing(1, "Engineer")];
    assert s1.jobsDescriptions == [JobDescription(1, "desc A")];
    assert |s1.jobsCompanies| == 1;
    assert HasCompany(s1.companies, "Acme");
    assert !ListingExists(s1.jobListings, s1.jobsDescriptions, "Analyst", "desc B");
    var s2 := Persist(s1, analyst);
    assert ElementLoop(s0, results).store == s2;
  }

  /** The raw text the steady element of `rec` presents for field `f`. */
  function FieldOf(rec: ListingRecord, f: Field): string {
    match f
    case CompanyName => rec.companyName
    case Location => rec.location
    case Title => rec.title
    case InnerLink => rec.innerLink
    case Posted => rec.posted
  }

  /** An element whose every lookup succeeds, on every attempt, with the fields of `rec`. */
  function Steady(rec: ListingRecord): Element {
    Element((k: nat, f: Field) => Found(Some(FieldOf(rec, f))), (k: nat) => true, (k: nat) => Found(Some(rec.description)))
  }

  /** Every attempt on a steady element whose texts carry no surrounding whitespace yields its record. */
  lemma SteadyAttempt(rec: ListingRecord, k: nat)
    requires Complete(rec)
    ensures Attempt(Steady(rec), k) == Some(rec)
  {
    var e := Steady(rec);
    assert e.lookup(k, CompanyName) == Found(Some(rec.companyName));
    assert e.lookup(k, Location) == Found(Some(rec.location));
    assert e.lookup(k, Title) == Found(Some(rec.title));
    assert e.lookup(k, InnerLink) == Found(Some(rec.innerLink));
    assert e.lookup(k, Posted) == Found(Some(rec.posted));
    AttemptOfLookups(e, k, rec);
  }

  /** get_info returns the record of a steady element on its first attempt. */
  lemma SteadyExtracts(rec: ListingRecord, maxTries: nat)
    requires Complete(rec) && maxTries > 0
    ensures Extract(Attempts(Steady(rec)), maxTries) == Some(rec)
  {
    SteadyAttempt(rec, 0);
    ExtractFirst(Attempts(Steady(rec)), maxTries, 0);
  }

  /** The page after navigation, as the model sees it. */
  datatype Page = Page(
    listingsShown: bool,          // the listing cards appear before the wait times out
    loadMoreClicks: seq<bool>,    // the outcome of each "load more" attempt, in order
    elements: seq<Element>)       // the listing elements present once expansion stops

  datatype JobsOutcome =
    | ContentTimeout                       // the first wait raised: nothing else happens
    | StillLoading                         // the click outcomes given ran out before the budget did
    | Finished(processed: nat, failed: nat)

  /** Some prefix of the click outcomes drives the failure counter to the budget. */
  ghost predicate Exhausts(clicks: seq<bool>) {
    exists k :: 0 <= k <= |clicks| && Run(clicks[..k]).tries == MaxTries
  }

  /** One more element: its record is written after the others, or it is counted as failed. */
  lemma CrawlStep(s: Store, results: seq<Option<ListingRecord>>, i: nat)
    requires i < |results|
    ensures var prev := ElementLoop(s, results[..i]);
      ElementLoop(s, results[..i + 1]) == match results[i] {
        case None => Summary(prev.store, prev.processed + 1, prev.failed + 1)
        case Some(rec) => Summary(Persist(prev.store, rec), prev.processed + 1, prev.failed)
      }
  {
    assert results[..i + 1][..i] == results[..i];
  }

  /** The element loop of get_jobs. */
  method ProcessElements(db: Database, elements: seq<Element>) returns (processed: nat, failed: nat)
    modifies db
    ensures Summary(db.State(), processed, failed) == ElementLoop(old(db.State()), Outcomes(elements))
  {
    processed, failed := 0, 0;
    ghost var results := Outcomes(elements);
    for index := 0 to |elements|
      invariant Summary(db.State(), processed, failed) == ElementLoop(old(db.State()), results[..index])
    {
      var result := GetInfo(elements[index], DefaultMaxTries);
      assert result == results[index];
      CrawlStep(old(db.State()), results, index);
      if result.Some? {
        AddToDb(db, result.value);
      } else {
        failed := failed + 1;
      }
      processed := processed + 1;
    }
    assert results[..|elements|] == results;
  }

  /** get_jobs, with the browser replaced by `page` and quote_plus by `quote`. */
  method GetJobs(db: Database, quote: string -> string, jobTitle: string, jobLocation: string, page: Page)
    returns (url: string, outcome: JobsOutcome)
    modifies db
    ensures url == BuildUrl(quote, jobTitle, jobLocation, DefaultTime)
    ensures outcome.ContentTimeout? <==> !page.listingsShown
    ensures outcome.Finished? <==> page.listingsShown && Exhausts(page.loadMoreClicks)
    ensures outcome.Finished? ==>
      var sum := ElementLoop(old(db.State()), Outcomes(page.elements));
      db.State() == sum.store && outcome == Finished(sum.processed, sum.failed)
    ensures !outcome.Finished? ==> db.State() == old(db.State())
  {
    url := BuildUrl(quote, jobTitle, jobLocation, DefaultTime);
    if !page.listingsShown {
      outcome := ContentTimeout;
      return;
    }
    var pageCount, tries, attempts := LoadMore(page.loadMoreClicks);
    if tries < MaxTries {
      assert attempts == |page.loadMoreClicks|;
      assert page.loadMoreClicks[..attempts] == page.loadMoreClicks;
      outcome := StillLoading;
      return;
    }
    var processed, failed := ProcessElements(db, page.elements);
    outcome := Finished(processed, failed);
  }
}
