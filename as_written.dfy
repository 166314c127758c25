/**
 * The element loop of `get_jobs` as the code stands: get_info returns
 * whatever its last attempt left in the `result` dictionary, and add_to_db
 * indexes that dictionary directly.
 *
 * When every attempt of get_info fails, the dictionary lacks its
 * `description` key, so add_to_db raises KeyError; with no attempt at all,
 * `result` is unbound and `return (result)` in get_info itself raises
 * UnboundLocalError before add_to_db is called. Nothing catches either, and
 * the crawl ends at that element.
 * The rest of the model uses the corrected loop of module Crawl, which
 * counts such an element as failed and goes on; the lemmas below relate
 * the two.
 */
module AsWritten {
  import opened Wrappers
  import opened Records
  import opened Persistence
  import opened Extraction
  import opened Crawl

  /**
   * The keys get_info writes into `result`, spelled in the source
   * `company_name`, `location`, `title`, `inner_link`, `posted` and
   * `description`.
   */
  datatype Key = CompanyNameKey | LocationKey | TitleKey | InnerLinkKey | PostedKey | DescriptionKey

  /** The position of each key in the order get_info sets them. */
  function Rank(key: Key): nat {
    match key
    case CompanyNameKey => 0
    case LocationKey => 1
    case TitleKey => 2
    case InnerLinkKey => 3
    case PostedKey => 4
    case DescriptionKey => 5
  }

  /** What `return (result)` yields: an unbound name, or the dictionary built so far. */
  datatype PyResult = Unbound | Dict(entries: map<Key, string>)

  /** The dictionary get_info builds from a complete record. */
  function AsDict(rec: ListingRecord): map<Key, string> {
    map[
      CompanyNameKey := rec.companyName, LocationKey := rec.location, TitleKey := rec.title,
      InnerLinkKey := rec.innerLink, PostedKey := rec.posted, DescriptionKey := rec.description]
  }

  /**
   * The dictionary one pass of get_info's loop body leaves in a fresh
   * `result = {}`, from what its reads returned (`None` for one that
   * raised): the keys are set in source order, the first read that raises
   * leaves the rest unset, and `description` arrives last, through
   * `result.update(...)`.
   */
  function PartialDict(company: Option<string>, location: Option<string>, title: Option<string>,
                       link: Option<string>, posted: Option<string>, description: Option<string>): (d: map<Key, string>)
    ensures forall a: Key, b: Key :: b in d && Rank(a) <= Rank(b) ==> a in d
    ensures CompanyNameKey in d <==> company.Some?
    ensures CompanyNameKey in d ==> d[CompanyNameKey] == company.value
  {
    if company.None? then map[]
    else if location.None? then map[CompanyNameKey := company.value]
    else if title.None? then map[CompanyNameKey := company.value, LocationKey := location.value]
    else if link.None? then map[CompanyNameKey := company.value, LocationKey := location.value, TitleKey := title.value]
    else if posted.None? then
      map[CompanyNameKey := company.value, LocationKey := location.value, TitleKey := title.value,
          InnerLinkKey := link.value]
    else if description.None? then
      map[CompanyNameKey := company.value, LocationKey := location.value, TitleKey := title.value,
          InnerLinkKey := link.value, PostedKey := posted.value]
    else
      map[CompanyNameKey := company.value, LocationKey := location.value, TitleKey := title.value,
          InnerLinkKey := link.value, PostedKey := posted.value, DescriptionKey := description.value]
  }

  /** One pass of get_info's loop body, as written. */
  function AttemptDict(e: Element, k: nat): (d: map<Key, string>)
    ensures CompanyNameKey in d <==> ReadField(e, k, CompanyName).Some?
  {
    PartialDict(ReadField(e, k, CompanyName), ReadField(e, k, Location), ReadField(e, k, Title),
                ReadField(e, k, InnerLink), ReadField(e, k, Posted), GetDetailsInline(e, k))
  }

  /** The loop broke out: the last `result.update(...)` happened. */
  predicate Succeeded(r: PyResult) {
    r.Dict? && DescriptionKey in r.entries
  }

  /** The dictionaries get_info's loop body would leave, by attempt number. */
  function AttemptDicts(e: Element): nat -> map<Key, string> {
    (k: nat) => AttemptDict(e, k)
  }

  /** The loop of get_info as written, after `maxTries` iterations over the dictionaries `dicts`. */
  function GetInfoLoop(dicts: nat -> map<Key, string>, maxTries: nat): (r: PyResult)
    ensures maxTries == 0 <==> r.Unbound?
  {
    if maxTries == 0 then Unbound
    else
      var prev := GetInfoLoop(dicts, maxTries - 1);
      if Succeeded(prev) then prev else Dict(dicts(maxTries - 1))
  }

  /** What the loop as written returns is the dictionary of one of its attempts. */
  lemma {:induction false} GetInfoLoopIsAttempt(dicts: nat -> map<Key, string>, maxTries: nat)
    ensures var r := GetInfoLoop(dicts, maxTries);
      r.Dict? ==> exists k :: 0 <= k < maxTries && r.entries == dicts(k)
  {
    if maxTries > 0 {
      GetInfoLoopIsAttempt(dicts, maxTries - 1);
    }
  }

  /** get_info as written. */
  function GetInfoAsWritten(e: Element, maxTries: nat): (r: PyResult)
    ensures maxTries == 0 <==> r.Unbound?
    ensures r.Dict? ==> exists k :: 0 <= k < maxTries && r.entries == AttemptDict(e, k)
  {
    GetInfoLoopIsAttempt(AttemptDicts(e), maxTries);
    GetInfoLoop(AttemptDicts(e), maxTries)
  }

  /** `result.get(key)` with the empty string for a missing key; only add_to_db's own keys must be present. */
  function Entry(d: map<Key, string>, key: Key): string {
    if key in d then d[key] else ""
  }

  /**
   * add_to_db as written: indexing `result` raises KeyError unless
   * `company_name`, `title` and `description` are all present, and an
   * unbound `result` has already raised in get_info. A raised call commits
   * nothing (`None`); otherwise the tables are those of Persist.
   */
  function AddToDbAsWritten(s: Store, r: PyResult): (t: Option<Store>)
    ensures t.None? <==> r.Unbound? || !(CompanyNameKey in r.entries && TitleKey in r.entries && DescriptionKey in r.entries)
    ensures t.Some? ==> t.value.Valid() || !s.Valid()
  {
    match r
    case Unbound => None
    case Dict(d) =>
      if CompanyNameKey in d && TitleKey in d && DescriptionKey in d then
        Some(Persist(s, ListingRecord(d[CompanyNameKey], Entry(d, LocationKey), d[TitleKey],
          Entry(d, InnerLinkKey), Entry(d, PostedKey), d[DescriptionKey])))
      else None
  }

  /** How the element loop as written ends. */
  datatype CrawlResult = Completed(store: Store) | Aborted(at: nat, store: Store)

  /** The element loop as written, over what get_info returned for each element. */
  function CrawlLoop(s: Store, infos: seq<PyResult>): (r: CrawlResult)
    ensures r.Aborted? ==> r.at < |infos|
  {
    if infos == [] then Completed(s)
    else
      var front := infos[..|infos| - 1];
      match CrawlLoop(s, front)
      case Aborted(i, t) => Aborted(i, t)
      case Completed(t) =>
        match AddToDbAsWritten(t, infos[|infos| - 1])
        case None => Aborted(|front|, t)
        case Some(u) => Completed(u)
  }

  /** What get_info as written returns for each element, in enumeration order. */
  function Infos(elements: seq<Element>): (infos: seq<PyResult>)
    ensures |infos| == |elements|
    ensures forall i :: 0 <= i < |elements| ==> infos[i] == GetInfoAsWritten(elements[i], DefaultMaxTries)
  {
    seq(|elements|, i requires 0 <= i < |elements| => GetInfoAsWritten(elements[i], DefaultMaxTries))
  }

  /** The element loop as written: the first add_to_db that raises ends it, after what was committed before. */
  function CrawlAsWritten(s: Store, elements: seq<Element>): (r: CrawlResult)
    ensures r.Aborted? ==> r.at < |elements|
  {
    CrawlLoop(s, Infos(elements))
  }

  /** A dictionary of all six keys reads back as the record it came from. */
  lemma AsDictRoundTrip(s: Store, rec: ListingRecord)
    ensures AddToDbAsWritten(s, Dict(AsDict(rec))) == Some(Persist(s, rec))
  {
  }

  /** `description` is set exactly when every read succeeds, and then all six keys hold what was read. */
  lemma PartialDictComplete(company: Option<string>, location: Option<string>, title: Option<string>,
                            link: Option<string>, posted: Option<string>, description: Option<string>)
    ensures var d := PartialDict(company, location, title, link, posted, description);
      && (DescriptionKey in d <==>
            company.Some? && location.Some? && title.Some? && link.Some? && posted.Some? && description.Some?)
      && (description.Some? && DescriptionKey in d ==>
            d == AsDict(ListingRecord(company.value, location.value, title.value, link.value, posted.value, description.value)))
  {
  }

  /** An attempt sets `description` exactly when the corrected attempt succeeds, and then holds that record's six fields. */
  lemma AttemptDictMatches(e: Element, k: nat)
    ensures DescriptionKey in AttemptDict(e, k) <==> Attempt(e, k).Some?
    ensures Attempt(e, k).Some? ==> AttemptDict(e, k) == AsDict(Attempt(e, k).value)
  {
    PartialDictComplete(ReadField(e, k, CompanyName), ReadField(e, k, Location), ReadField(e, k, Title),
                        ReadField(e, k, InnerLink), ReadField(e, k, Posted), GetDetailsInline(e, k));
  }

  /** The dictionaries carry `description` exactly on the attempts that succeed, and then hold their records. */
  ghost predicate DictsMatch(dicts: nat -> map<Key, string>, attempts: nat -> Option<ListingRecord>, n: nat) {
    forall k :: 0 <= k < n ==>
      && (DescriptionKey in dicts(k) <==> attempts(k).Some?)
      && (attempts(k).Some? ==> dicts(k) == AsDict(attempts(k).value))
  }

  /**
   * The loop as written returns the dictionary of the corrected loop's
   * record when there is one; when every attempt fails it returns a result
   * without `description`.
   */
  lemma {:induction false} GetInfoLoopMatches(dicts: nat -> map<Key, string>, attempts: nat -> Option<ListingRecord>, n: nat)
    requires DictsMatch(dicts, attempts, n)
    ensures Extract(attempts, n).Some? ==> GetInfoLoop(dicts, n) == Dict(AsDict(Extract(attempts, n).value))
    ensures Extract(attempts, n).None? <==> !Succeeded(GetInfoLoop(dicts, n))
  {
    if n > 0 {
      GetInfoLoopMatches(dicts, attempts, n - 1);
      if Extract(attempts, n - 1).Some? {
        assert DescriptionKey in AsDict(Extract(attempts, n - 1).value);
      }
    }
  }

  /** get_info as written agrees with the corrected get_info, in the sense of GetInfoLoopMatches. */
  lemma GetInfoAsWrittenMatches(e: Element, n: nat)
    ensures Extract(Attempts(e), n).Some? ==> GetInfoAsWritten(e, n) == Dict(AsDict(Extract(Attempts(e), n).value))
    ensures Extract(Attempts(e), n).None? <==> !Succeeded(GetInfoAsWritten(e, n))
  {
    forall k | 0 <= k < n
      ensures DescriptionKey in AttemptDicts(e)(k) <==> Attempts(e)(k).Some?
      ensures Attempts(e)(k).Some? ==> AttemptDicts(e)(k) == AsDict(Attempts(e)(k).value)
    {
      AttemptDictMatches(e, k);
    }
    GetInfoLoopMatches(AttemptDicts(e), Attempts(e), n);
  }

  /** An element whose retries are exhausted makes add_to_db, as written, raise on what get_info returned. */
  lemma ExhaustedWriteRaises(s: Store, e: Element, maxTries: nat)
    requires Extract(Attempts(e), maxTries).None?
    ensures AddToDbAsWritten(s, GetInfoAsWritten(e, maxTries)).None?
  {
    GetInfoAsWrittenMatches(e, maxTries);
  }

  /** An element that extracts is written, as the code stands, exactly as Persist writes its record. */
  lemma ExtractedWriteAgrees(s: Store, e: Element, maxTries: nat)
    requires Extract(Attempts(e), maxTries).Some?
    ensures AddToDbAsWritten(s, GetInfoAsWritten(e, maxTries)) == Some(Persist(s, Extract(Attempts(e), maxTries).value))
  {
    GetInfoAsWrittenMatches(e, maxTries);
    AsDictRoundTrip(s, Extract(Attempts(e), maxTries).value);
  }

  /** What get_info as written returned stands for what the corrected get_info returned. */
  predicate InfoMatches(info: PyResult, result: Option<ListingRecord>) {
    && (result.Some? ==> info == Dict(AsDict(result.value)))
    && (result.None? ==> !Succeeded(info))
  }

  ghost predicate InfosMatch(infos: seq<PyResult>, results: seq<Option<ListingRecord>>) {
    |infos| == |results| && forall i :: 0 <= i < |infos| ==> InfoMatches(infos[i], results[i])
  }

  /** The as-written and corrected get_info agree element by element. */
  lemma InfosMatchOutcomes(elements: seq<Element>)
    ensures InfosMatch(Infos(elements), Outcomes(elements))
  {
    forall i | 0 <= i < |elements|
      ensures InfoMatches(Infos(elements)[i], Outcomes(elements)[i])
    {
      GetInfoAsWrittenMatches(elements[i], DefaultMaxTries);
    }
  }

  /** When every element extracts, the loop as written completes with the corrected loop's tables. */
  lemma {:induction false} CrawlLoopAgrees(s: Store, infos: seq<PyResult>, results: seq<Option<ListingRecord>>)
    requires InfosMatch(infos, results)
    requires forall i :: 0 <= i < |results| ==> results[i].Some?
    ensures CrawlLoop(s, infos) == Completed(ElementLoop(s, results).store)
  {
    if infos != [] {
      var n := |infos| - 1;
      CrawlLoopAgrees(s, infos[..n], results[..n]);
      AsDictRoundTrip(ElementLoop(s, results[..n]).store, results[n].value);
    }
  }

  /** A last element whose retries are exhausted ends the loop as written, after the others were written. */
  lemma LastFailureAborts(s: Store, infos: seq<PyResult>, results: seq<Option<ListingRecord>>)
    requires InfosMatch(infos, results)
    requires results != [] && results[|results| - 1].None?
    requires forall j :: 0 <= j < |results| - 1 ==> results[j].Some?
    ensures CrawlLoop(s, infos) == Aborted(|infos| - 1, ElementLoop(s, results[..|infos| - 1]).store)
  {
    var n := |infos| - 1;
    assert InfosMatch(infos[..n], results[..n]);
    CrawlLoopAgrees(s, infos[..n], results[..n]);
    assert InfoMatches(infos[n], results[n]);
  }

  /**
   * The loop as written stops at the first element whose retries are
   * exhausted, with the tables the corrected loop has built from the
   * elements before it.
   */
  lemma {:induction false} CrawlLoopAbortsAtFirstFailure(s: Store, infos: seq<PyResult>, results: seq<Option<ListingRecord>>, i: nat)
    requires InfosMatch(infos, results)
    requires i < |results| && results[i].None?
    requires forall j :: 0 <= j < i ==> results[j].Some?
    ensures CrawlLoop(s, infos) == Aborted(i, ElementLoop(s, results[..i]).store)
  {
    var n := |infos| - 1;
    assert |infos| == |results|;
    if i < n {
      assert InfosMatch(infos[..n], results[..n]);
      assert results[..n][..i] == results[..i];
      CrawlLoopAbortsAtFirstFailure(s, infos[..n], results[..n], i);
      assert CrawlLoop(s, infos[..n]).Aborted?;
    } else {
      assert i == n;
      LastFailureAborts(s, infos, results);
    }
  }

  /** When every element extracts, the crawl as written completes with the corrected crawl's tables. */
  lemma CrawlAsWrittenAgrees(s: Store, elements: seq<Element>)
    requires forall i :: 0 <= i < |elements| ==> Outcomes(elements)[i].Some?
    ensures CrawlAsWritten(s, elements) == Completed(ElementLoop(s, Outcomes(elements)).store)
  {
    InfosMatchOutcomes(elements);
    CrawlLoopAgrees(s, Infos(elements), Outcomes(elements));
  }

  /** The crawl as written ends at the first element whose retries are exhausted. */
  lemma CrawlAsWrittenAbortsAtFirstFailure(s: Store, elements: seq<Element>, i: nat)
    requires i < |elements| && Outcomes(elements)[i].None?
    requires forall j :: 0 <= j < i ==> Outcomes(elements)[j].Some?
    ensures CrawlAsWritten(s, elements) == Aborted(i, ElementLoop(s, Outcomes(elements)[..i]).store)
  {
    InfosMatchOutcomes(elements);
    CrawlLoopAbortsAtFirstFailure(s, Infos(elements), Outcomes(elements), i);
  }

  /** An element on which every lookup raises. */
  function Dead(): Element {
    Element((k: nat, f: Field) => Missing, (k: nat) => false, (k: nat) => Missing)
  }

  /** Every attempt on a dead element fails, so get_info exhausts its retries. */
  lemma DeadFails(maxTries: nat)
    ensures Extract(Attempts(Dead()), maxTries).None?
  {
    forall k: nat
      ensures Attempts(Dead())(k).None?
    {
      assert ReadField(Dead(), k, CompanyName).None?;
    }
  }

  /**
   * On an element whose company lookup raises on every attempt, get_info as
   * written returns the empty dictionary of its last attempt, whose
   * `result['company_name']` raises KeyError.
   */
  lemma NoCompanyLeavesEmptyDict(s: Store, e: Element, maxTries: nat)
    requires maxTries > 0
    requires forall k: nat :: e.lookup(k, CompanyName) == Missing
    ensures GetInfoAsWritten(e, maxTries) == Dict(map[])
    ensures AddToDbAsWritten(s, GetInfoAsWritten(e, maxTries)).None?
  {
    forall k: nat
      ensures Attempts(e)(k).None?
    {
      assert ReadField(e, k, CompanyName).None?;
    }
    GetInfoAsWrittenMatches(e, maxTries - 1);
    assert ReadField(e, maxTries - 1, CompanyName).None?;
  }

  /** The corrected loop over a failure and then a record: one write, both counted, one failed. */
  lemma SkipThenWrite(s: Store, rec: ListingRecord)
    ensures ElementLoop(s, [None, Some(rec)]) == Summary(Persist(s, rec), 2, 1)
  {
    var results: seq<Option<ListingRecord>> := [None, Some(rec)];
    assert results[..1] == [None];
    assert results[..1][..0] == [];
    assert ElementLoop(s, results[..1]) == Summary(s, 1, 1);
  }

  /** A sequence of length two is the display of its two items. */
  lemma TwoItems(results: seq<Option<ListingRecord>>, first: Option<ListingRecord>, second: Option<ListingRecord>)
    requires |results| == 2 && results[0] == first && results[1] == second
    ensures results == [first, second]
  {
  }

  /** get_info fails on the dead element and extracts the steady one. */
  lemma DeadThenSteadyOutcomes(rec: ListingRecord)
    requires Complete(rec)
    ensures Outcomes([Dead(), Steady(rec)]) == [None, Some(rec)]
  {
    var results := Outcomes([Dead(), Steady(rec)]);
    DeadFails(DefaultMaxTries);
    SteadyExtracts(rec, DefaultMaxTries);
    TwoItems(results, None, Some(rec));
  }

  /**
   * A dead listing followed by a good one: the code as written stops at the
   * dead one and writes nothing, where the corrected loop skips it and
   * writes the good one.
   */
  lemma DeadThenSteady(s: Store, rec: ListingRecord)
    requires Complete(rec)
    ensures CrawlAsWritten(s, [Dead(), Steady(rec)]) == Aborted(0, s)
    ensures ElementLoop(s, Outcomes([Dead(), Steady(rec)])) == Summary(Persist(s, rec), 2, 1)
  {
    var elements := [Dead(), Steady(rec)];
    DeadThenSteadyOutcomes(rec);
    CrawlAsWrittenAbortsAtFirstFailure(s, elements, 0);
    assert Outcomes(elements)[..0] == [];
    SkipThenWrite(s, rec);
  }
}
