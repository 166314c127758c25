/**
 * `get_info` and `get_details_inline`: read one listing element into a
 * record, retrying the whole attempt when any lookup raises.
 *
 * The browser is an oracle indexed by attempt number: in attempt `k` a field
 * lookup either raises or yields the attribute read from the sub-element;
 * the click on the element succeeds or raises; and the wait for the detail
 * panel either times out or yields the panel's `innerText`.
 */
module Extraction {
  import opened Wrappers
  import opened Text
  import opened Records

  /** get_info's default `max_tries`. */
  const DefaultMaxTries: nat := 5

  /** The five fields read from sub-elements of the listing element. */
  datatype Field = CompanyName | Location | Title | InnerLink | Posted

  /**
   * One lookup: `Missing` when finding the element raises (absent, stale,
   * timed out), otherwise what `get_attribute` returned, which is `None`
   * for an attribute the element does not have.
   */
  datatype Lookup = Missing | Found(attribute: Option<string>)

  /** A listing element as the page presents it, attempt by attempt. */
  datatype Element = Element(
    lookup: (nat, Field) -> Lookup,
    clickOk: nat -> bool,
    panel: nat -> Lookup)

  /** Python's `str()` of what get_attribute returns. */
  function PyStr(a: Option<string>): string {
    match a
    case None => "None"
    case Some(v) => v
  }

  /** `str(<sub-element>.get_attribute(...)).strip()`, or `None` when the lookup raises. */
  function ReadField(e: Element, attempt: nat, f: Field): (r: Option<string>)
    ensures r.Some? <==> e.lookup(attempt, f).Found?
    ensures r.Some? ==> IsStripped(r.value) && r.value == Strip(PyStr(e.lookup(attempt, f).attribute))
  {
    match e.lookup(attempt, f)
    case Missing => None
    case Found(a) => Some(Strip(PyStr(a)))
  }

  /** get_details_inline: click the element, wait for the detail panel, read and strip its text. */
  function GetDetailsInline(e: Element, attempt: nat): (r: Option<string>)
    ensures r.Some? <==> e.clickOk(attempt) && e.panel(attempt).Found?
    ensures r.Some? ==> IsStripped(r.value) && r.value == Strip(PyStr(e.panel(attempt).attribute))
  {
    if !e.clickOk(attempt) then None
    else match e.panel(attempt)
      case Missing => None
      case Found(a) => Some(Strip(PyStr(a)))
  }

  /** No lookup of attempt `k` raises. */
  predicate AllFound(e: Element, k: nat) {
    && e.lookup(k, CompanyName).Found? && e.lookup(k, Location).Found? && e.lookup(k, Title).Found?
    && e.lookup(k, InnerLink).Found? && e.lookup(k, Posted).Found?
  }

  /** Every field of the record is a stripped string. */
  predicate Complete(rec: ListingRecord) {
    && IsStripped(rec.companyName) && IsStripped(rec.location) && IsStripped(rec.title)
    && IsStripped(rec.innerLink) && IsStripped(rec.posted) && IsStripped(rec.description)
  }

  /**
   * One pass of the loop body of get_info: the five lookups in order, then
   * get_details_inline. Any lookup that raises makes the attempt fail.
   */
  function Attempt(e: Element, k: nat): (r: Option<ListingRecord>)
    ensures r.Some? <==> AllFound(e, k) && GetDetailsInline(e, k).Some?
    ensures r.Some? ==> Complete(r.value)
    ensures r.Some? ==>
      && Some(r.value.companyName) == ReadField(e, k, CompanyName)
      && Some(r.value.location) == ReadField(e, k, Location)
      && Some(r.value.title) == ReadField(e, k, Title)
      && Some(r.value.innerLink) == ReadField(e, k, InnerLink)
      && Some(r.value.posted) == ReadField(e, k, Posted)
      && Some(r.value.description) == GetDetailsInline(e, k)
  {
    var company := ReadField(e, k, CompanyName);
    var location := ReadField(e, k, Location);
    var title := ReadField(e, k, Title);
    var link := ReadField(e, k, InnerLink);
    var posted := ReadField(e, k, Posted);
    if company.None? || location.None? || title.None? || link.None? || posted.None? then None
    else match GetDetailsInline(e, k)
      case None => None
      case Some(description) =>
        Some(ListingRecord(company.value, location.value, title.value, link.value, posted.value, description))
  }

  /** A lookup that finds text with no surrounding whitespace reads that text unchanged. */
  lemma ReadOfLookup(e: Element, k: nat, f: Field, s: string)
    requires e.lookup(k, f) == Found(Some(s)) && IsStripped(s)
    ensures ReadField(e, k, f) == Some(s)
  {
    StripOfStripped(s);
  }

  /** An attempt whose reads all succeed yields the record made of what they read. */
  lemma AttemptOfReads(e: Element, k: nat, rec: ListingRecord)
    requires ReadField(e, k, CompanyName) == Some(rec.companyName)
    requires ReadField(e, k, Location) == Some(rec.location)
    requires ReadField(e, k, Title) == Some(rec.title)
    requires ReadField(e, k, InnerLink) == Some(rec.innerLink)
    requires ReadField(e, k, Posted) == Some(rec.posted)
    requires GetDetailsInline(e, k) == Some(rec.description)
    ensures Attempt(e, k) == Some(rec)
  {
  }

  /** When every lookup of attempt `k` finds text already free of surrounding whitespace, the attempt yields that text. */
  lemma AttemptOfLookups(e: Element, k: nat, rec: ListingRecord)
    requires Complete(rec)
    requires e.lookup(k, CompanyName) == Found(Some(rec.companyName))
    requires e.lookup(k, Location) == Found(Some(rec.location))
    requires e.lookup(k, Title) == Found(Some(rec.title))
    requires e.lookup(k, InnerLink) == Found(Some(rec.innerLink))
    requires e.lookup(k, Posted) == Found(Some(rec.posted))
    requires e.clickOk(k) && e.panel(k) == Found(Some(rec.description))
    ensures Attempt(e, k) == Some(rec)
  {
    ReadOfLookup(e, k, CompanyName, rec.companyName);
    ReadOfLookup(e, k, Location, rec.location);
    ReadOfLookup(e, k, Title, rec.title);
    ReadOfLookup(e, k, InnerLink, rec.innerLink);
    ReadOfLookup(e, k, Posted, rec.posted);
    StripOfStripped(rec.description);
    AttemptOfReads(e, k, rec);
  }

  /** The attempts get_info would make on `e`, by attempt number. */
  function Attempts(e: Element): nat -> Option<ListingRecord> {
    (k: nat) => Attempt(e, k)
  }

  /** Attempt `k` is the first one that succeeds. */
  ghost predicate FirstSuccess(attempts: nat -> Option<ListingRecord>, k: nat) {
    attempts(k).Some? && forall j :: 0 <= j < k ==> attempts(j).None?
  }

  /**
   * get_info with an explicit failure: the record of the first successful
   * attempt among the first `maxTries` (see ExtractFirst), or `None`
   * exactly when all of them fail.
   */
  function Extract(attempts: nat -> Option<ListingRecord>, maxTries: nat): (r: Option<ListingRecord>)
    ensures r.None? <==> forall k :: 0 <= k < maxTries ==> attempts(k).None?
  {
    if maxTries == 0 then None
    else match Extract(attempts, maxTries - 1)
      case Some(rec) => Some(rec)
      case None => attempts(maxTries - 1)
  }

  /** The first attempt that succeeds within the budget is the one whose record get_info returns. */
  lemma {:induction false} ExtractFirst(attempts: nat -> Option<ListingRecord>, maxTries: nat, k: nat)
    requires k < maxTries && FirstSuccess(attempts, k)
    ensures Extract(attempts, maxTries) == attempts(k)
  {
    if k < maxTries - 1 {
      ExtractFirst(attempts, maxTries - 1, k);
    }
  }

  /** Once an attempt has succeeded, a larger budget changes nothing. */
  lemma {:induction false} ExtractSettled(attempts: nat -> Option<ListingRecord>, n: nat, m: nat)
    requires n <= m && Extract(attempts, n).Some?
    ensures Extract(attempts, m) == Extract(attempts, n)
  {
    if n < m {
      ExtractSettled(attempts, n, m - 1);
    }
  }

  /** get_info makes at most `maxTries` attempts: later attempts cannot affect its result. */
  lemma {:induction false} ExtractUsesOnlyBudget(a1: nat -> Option<ListingRecord>, a2: nat -> Option<ListingRecord>, maxTries: nat)
    requires forall k :: 0 <= k < maxTries ==> a1(k) == a2(k)
    ensures Extract(a1, maxTries) == Extract(a2, maxTries)
  {
    if maxTries > 0 {
      ExtractUsesOnlyBudget(a1, a2, maxTries - 1);
    }
  }

  /** An element that fails `n` times and then succeeds yields that attempt's record exactly when `n < maxTries`. */
  lemma FailThenSucceed(attempts: nat -> Option<ListingRecord>, n: nat, maxTries: nat)
    requires forall k :: 0 <= k < n ==> attempts(k).None?
    requires attempts(n).Some?
    ensures Extract(attempts, maxTries) == if n < maxTries then attempts(n) else None
  {
    if n < maxTries {
      ExtractFirst(attempts, maxTries, n);
    }
  }

  /** `for tries in range(max_tries): ... break` */
  method GetInfo(e: Element, maxTries: nat) returns (r: Option<ListingRecord>)
    ensures r == Extract(Attempts(e), maxTries)
  {
    r := None;
    for tries := 0 to maxTries
      invariant r == Extract(Attempts(e), tries)
    {
      var attempt := Attempt(e, tries);
      if attempt.Some? {
        r := attempt;
        ExtractSettled(Attempts(e), tries + 1, maxTries);
        break;
      }
    }
  }
}
