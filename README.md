# MonsterScraper, modelled in Dafny

This project models the core of `MonsterScraper` from
`datafunctions/retrieve/retrievers/monster.py`. MonsterScraper searches
monster.com for job listings, expands the result page with the
"load more" button, reads every listing card, and writes the listing to a
PostgreSQL database. The database has four tables: `companies`,
`job_listings`, `jobs_descriptions` and `jobs_companies`.

Modules, in dependency order:

- `Wrappers` (`wrappers.dfy`): `Option`.
- `Text` (`text.dfy`): Python's `str.strip()`, with whitespace as
  `str.isspace` defines it.
- `Records` (`records.dfy`): the result dictionary of one listing, as a
  record of six strings.
- `SearchUrl` (`search_url.dfy`): `build_url`. `urlencode` of the three
  parameters is modelled with the per-component percent-encoding
  (`quote_plus`) as a function parameter. A parser
  for the query string gives the round trip.
- `Persistence` (`persistence.dfy`): the four tables as sequences of rows,
  plus the two id sequences behind `RETURNING id`.
  - `Persist` is the pure specification of `add_to_db`.
  - `Database` is a class with the four tables as fields. Each of its
    methods is one `INSERT`.
  - `AddToDb` is the imperative `add_to_db` over a `Database`, proved
    equal to `Persist`.
- `Pagination` (`pagination.dfy`): the "load more" loop of `get_jobs`,
  with the browser replaced by a finite sequence of click outcomes.
- `Extraction` (`extraction.dfy`): `get_info` and `get_details_inline`.
  The browser is an oracle `Element`, indexed by attempt number: each
  lookup either raises or returns an attribute (possibly `None`), the
  click either works or raises, and the detail panel either appears or
  times out.
- `Crawl` (`crawl.dfy`): `get_jobs`, consisting of the URL, the wait for
  the cards, pagination, and then get_info followed by add_to_db for
  each element in order. The element loop skips an element whose
  extraction exhausts its retries (see Findings).
- `AsWritten` (`as_written.dfy`): the element loop as the code stands.
  Here a listing that cannot be read makes add_to_db raise. The module
  also holds the lemmas that relate this loop to the corrected one.

## Model

| member | source | states |
|---|---|---|
| `Text.Strip` | datafunctions/retrieve/retrievers/monster.py:294-298 | The result of `.strip()` has no whitespace at either end, and is the infix of the input that has only whitespace before and after it. |
| `Text.StripUnique` | datafunctions/retrieve/retrievers/monster.py:294-298 | Those two properties determine `.strip()`: any stripped infix surrounded only by whitespace equals `Strip(s)`. |
| `Text.StripIdempotent` | datafunctions/retrieve/retrievers/monster.py:294-298 | Stripping twice gives the same result as stripping once. |
| `Text.StripOfStripped` | datafunctions/retrieve/retrievers/monster.py:350-354 | Text with no whitespace at either end is left unchanged by `.strip()`. |
| `SearchUrl.SearchParams` | datafunctions/retrieve/retrievers/monster.py:85-89 | The parameter dictionary has the three distinct keys `where`, `q` and `tm`, in insertion order, holding the location, the title and `str(time)`. |
| `SearchUrl.UrlEncode` | datafunctions/retrieve/retrievers/monster.py:91 | The query string is empty exactly when there are no parameters. |
| `SearchUrl.UrlEncodeRoundTrip` | datafunctions/retrieve/retrievers/monster.py:91 | Splitting the query string at `&` and decoding each `key=value` piece gives back the parameters in order, whenever each key and value encodes cleanly. |
| `SearchUrl.BuildUrl` | datafunctions/retrieve/retrievers/monster.py:84-94 | The URL starts with the search base URL followed by `?`. |
| `SearchUrl.BuildUrlRoundTrip` | datafunctions/retrieve/retrievers/monster.py:84-94 | Parsing the built URL gives back exactly `where`=location, `q`=title, `tm`=str(time), in that order. This holds whenever the encoding of each key and value can be undone and contains no `&` or `=`. |
| `Persistence.FindCompany` | datafunctions/retrieve/retrievers/monster.py:147-157 | The company query finds nothing exactly when no company row has that exact name; a row it returns has that name. |
| `Persistence.FindListing` | datafunctions/retrieve/retrievers/monster.py:169-180 | The job-exists query finds a listing id exactly when some listing with the title has a description row with the same id and the description; the id it returns has both rows. |
| `Persistence.ResolveCompany` | datafunctions/retrieve/retrievers/monster.py:147-167 | An existing company leaves the tables unchanged. An unknown one is appended under the next company id, and that id is returned. Either way the id returned belongs to a row with that name. |
| `Persistence.InsertListing` | datafunctions/retrieve/retrievers/monster.py:184-210 | The three job inserts: `job_listings`, `jobs_companies` and `jobs_descriptions` each keep their rows and gain exactly one row under the next job id, and the job sequence advances by one. Afterwards the pair is found by the job-exists join, the link row ties the next job id to the company id, the company table is untouched, and valid ids stay valid when the company id is in use. |
| `Persistence.Persist` | datafunctions/retrieve/retrievers/monster.py:96-215 | Company found vs inserted. An existing (title, description) pair leaves the three job tables and the job sequence unchanged. A new pair appends exactly one listing, one description and one link, all under the next job id, and the link points to the company row with that name. Afterwards the company and the pair are both stored. Valid id sequences stay valid. |
| `Persistence.FreshJobId` | datafunctions/retrieve/retrievers/monster.py:115-119 | When the id sequence is valid, the next job id appears in none of the three job tables. |
| `Persistence.PersistIdempotent` | datafunctions/retrieve/retrievers/monster.py:169-180 | Writing the same record a second time changes none of the tables. |
| `Persistence.StoredStaysStored` | datafunctions/retrieve/retrievers/monster.py:96-215 | add_to_db only adds rows: a company and a (title, description) pair that are stored stay stored after any other record is written. |
| `Persistence.RewriteStored` | datafunctions/retrieve/retrievers/monster.py:147-180 | Writing a record whose company and pair are both stored already changes nothing. |
| `Persistence.PersistKeepsPairsUnique` | datafunctions/retrieve/retrievers/monster.py:169-210 | When the id sequences are valid, add_to_db never puts a (title, description) pair under a second job id. |
| `Persistence.NewPairStaysNew` | datafunctions/retrieve/retrievers/monster.py:98-113 | After a listing is inserted, a pair with the same title but a different description is still not found by the job-exists query. |
| `Persistence.PersistSameTitleTwice` | datafunctions/retrieve/retrievers/monster.py:169-210 | Two new records with one title and different descriptions produce two listing rows with consecutive ids. |
| `Persistence.Database.constructor` | datafunctions/retrieve/retrievers/monster.py:385 | The connection starts from the given tables. |
| `Persistence.Database.InsertCompany` | datafunctions/retrieve/retrievers/monster.py:161-167 | Appends `Company(id, name)`, returns the old company sequence value, and advances the sequence. Nothing else changes. |
| `Persistence.Database.InsertJobListing` | datafunctions/retrieve/retrievers/monster.py:184-190 | Appends `JobListing(id, title)`, returns the old job sequence value, and advances the sequence. Nothing else changes. |
| `Persistence.Database.InsertJobCompany` | datafunctions/retrieve/retrievers/monster.py:194-200 | Appends one link row. Nothing else changes. |
| `Persistence.Database.InsertJobDescription` | datafunctions/retrieve/retrievers/monster.py:204-210 | Appends one description row. Nothing else changes. |
| `Persistence.AddToDb` | datafunctions/retrieve/retrievers/monster.py:96-215 | The imperative add_to_db, with its queries and inserts in source order, leaves exactly the tables `Persist` specifies. |
| `Pagination.Step` | datafunctions/retrieve/retrievers/monster.py:237-256 | One iteration: a click adds one page and resets `tries` to 0; an exception leaves `page_count` and adds one to `tries`. |
| `Pagination.Run` | datafunctions/retrieve/retrievers/monster.py:232-256 | After any sequence of attempts `page_count` is at least 1, and each attempt adds at most one to `page_count + tries`. |
| `Pagination.RunCounts` | datafunctions/retrieve/retrievers/monster.py:232-256 | After any sequence of attempts, `page_count` is 1 plus the number of successful clicks, and `tries` is the number of failures since the last success. |
| `Pagination.LoadMore` | datafunctions/retrieve/retrievers/monster.py:232-256 | The while loop stops at the first attempt count where `tries` reaches 3, or when the outcomes run out. Its counters are those of `Run` on the attempts made, with `tries <= 3` and `page_count = 1 + successes`. |
| `Pagination.StopsAfterUnique` | datafunctions/retrieve/retrievers/monster.py:235 | The stopping point of the loop is unique. |
| `Pagination.FailuresOnly` | datafunctions/retrieve/retrievers/monster.py:252-254 | Failures alone only increase `tries` and leave `page_count` at 1. |
| `Pagination.PermanentFailure` | datafunctions/retrieve/retrievers/monster.py:232-256 | A button that is never found ends the loop after exactly 3 attempts, still on page 1. |
| `Pagination.SuccessesOnly` | datafunctions/retrieve/retrievers/monster.py:245-247 | Successes alone add one page each and keep `tries` at 0. |
| `Pagination.AlwaysClickable` | datafunctions/retrieve/retrievers/monster.py:232-256 | A button that always works uses up every outcome given, and the budget is never exhausted. |
| `Extraction.ReadField` | datafunctions/retrieve/retrievers/monster.py:294-322 | A field read succeeds exactly when its lookup does not raise, and then yields the stripped `str()` of the attribute, which is `"None"` for a missing attribute. |
| `Extraction.GetDetailsInline` | datafunctions/retrieve/retrievers/monster.py:338-357 | The description is read exactly when the click works and the panel appears, and is its stripped `innerText`. |
| `Extraction.Attempt` | datafunctions/retrieve/retrievers/monster.py:290-327 | An attempt succeeds exactly when none of the five lookups raises and get_details_inline succeeds. Its record then holds the six values read, each stripped. |
| `Extraction.ReadOfLookup` | datafunctions/retrieve/retrievers/monster.py:294-298 | A lookup that finds text without surrounding whitespace reads that text unchanged. |
| `Extraction.AttemptOfLookups` | datafunctions/retrieve/retrievers/monster.py:290-327 | When every lookup of an attempt finds stripped text and the panel appears, the attempt yields exactly the record of those texts. |
| `Extraction.Extract` | datafunctions/retrieve/retrievers/monster.py:288-336 | get_info fails exactly when all of the first `max_tries` attempts fail. |
| `Extraction.ExtractFirst` | datafunctions/retrieve/retrievers/monster.py:289-327 | When some attempt within the budget succeeds, get_info returns the record of the first one that does. |
| `Extraction.ExtractSettled` | datafunctions/retrieve/retrievers/monster.py:326-327 | After the `break`, a larger budget changes nothing. |
| `Extraction.ExtractUsesOnlyBudget` | datafunctions/retrieve/retrievers/monster.py:289 | Attempts beyond `max_tries` cannot affect the result. |
| `Extraction.FailThenSucceed` | datafunctions/retrieve/retrievers/monster.py:289-336 | An element that fails `n` times and then succeeds yields that record exactly when `n < max_tries`. |
| `Extraction.GetInfo` | datafunctions/retrieve/retrievers/monster.py:288-336 | The `for ... break` loop returns what `Extract` specifies. |
| `Crawl.PersistAll` | datafunctions/retrieve/retrievers/monster.py:270-273 | Writing records in turn keeps the id sequences valid. |
| `Crawl.ElementLoop` | datafunctions/retrieve/retrievers/monster.py:270-273 | Every element is processed, the failed count is the number of exhausted extractions, and valid id sequences stay valid. |
| `Crawl.CrawlStoresExtracted` | datafunctions/retrieve/retrievers/monster.py:270-273 | The tables end up as if exactly the extracted records had been written, in enumeration order. |
| `Crawl.ExtractedAppend` | datafunctions/retrieve/retrievers/monster.py:270 | The extracted records and the failure count of two runs of elements concatenate. |
| `Crawl.PersistAllAppend` | datafunctions/retrieve/retrievers/monster.py:270-273 | Writing `a + b` is writing `a` and then `b`. |
| `Crawl.CrawlAppend` | datafunctions/retrieve/retrievers/monster.py:270-273 | Elements are handled strictly one after another: processing `a + b` equals processing `a` and then `b`, and the failure counts add up. |
| `Crawl.CrawlSkipsFailure` | datafunctions/retrieve/retrievers/monster.py:270-273 | An element whose extraction failed leaves the tables as if it were absent, and is counted once as failed. |
| `Crawl.ElementLoopKeepsStored` | datafunctions/retrieve/retrievers/monster.py:270-273 | A record stored before the element loop is still stored after it. |
| `Crawl.ElementLoopStoresEach` | datafunctions/retrieve/retrievers/monster.py:270-273 | After the element loop, every record it extracted is stored. |
| `Crawl.ElementLoopOfStored` | datafunctions/retrieve/retrievers/monster.py:169-180 | An element loop over records that are all stored already leaves the tables unchanged. |
| `Crawl.CrawlDuplicate` | datafunctions/retrieve/retrievers/monster.py:169-180 | A listing extracted again anywhere further down the page, after any other records, stores nothing beyond what its first copy stored. |
| `Crawl.RerunAddsNothing` | datafunctions/retrieve/retrievers/monster.py:169-180 | A later run over the same results, against the tables the first run left, adds no row. |
| `Crawl.ElementLoopKeepsPairsUnique` | datafunctions/retrieve/retrievers/monster.py:169-210 | Over any run of the element loop from valid tables, each (title, description) pair stays under a single job id. |
| `Crawl.TwoListingsOneCompany` | datafunctions/retrieve/retrievers/monster.py:147-210 | Two listings of one company with different titles on an empty database give one company row, two listings, two descriptions and two links. |
| `Crawl.SteadyAttempt` | datafunctions/retrieve/retrievers/monster.py:290-327 | An element whose reads always succeed with stripped text yields its record on every attempt. |
| `Crawl.SteadyExtracts` | datafunctions/retrieve/retrievers/monster.py:288-336 | get_info returns such an element's record whenever `max_tries > 0`. |
| `Crawl.ProcessElements` | datafunctions/retrieve/retrievers/monster.py:270-273 | The imperative element loop leaves the tables and counts that `ElementLoop` specifies. |
| `Crawl.GetJobs` | datafunctions/retrieve/retrievers/monster.py:217-286 | Builds the URL with `tm = 1`. A card wait that times out ends the call without writing. Once the load-more budget is exhausted, the element loop writes what `ElementLoop` specifies. Otherwise the tables are unchanged. |
| `AsWritten.PartialDict` | datafunctions/retrieve/retrievers/monster.py:292-326 | Keys are set in source order, so a key is present only when every earlier one is; `company_name` is present exactly when its read succeeded, and holds what was read. |
| `AsWritten.AttemptDict` | datafunctions/retrieve/retrievers/monster.py:290-327 | One pass of the loop body sets `company_name` exactly when the company read succeeds. |
| `AsWritten.GetInfoLoop` | datafunctions/retrieve/retrievers/monster.py:289-336 | `result` is unbound exactly when the loop body never ran. |
| `AsWritten.GetInfoLoopIsAttempt` | datafunctions/retrieve/retrievers/monster.py:289-336 | A bound `result` is the dictionary left by one of the attempts made. |
| `AsWritten.GetInfoAsWritten` | datafunctions/retrieve/retrievers/monster.py:288-336 | `result` is unbound exactly when `max_tries = 0`, and is otherwise the dictionary of one of the element's attempts. |
| `AsWritten.AddToDbAsWritten` | datafunctions/retrieve/retrievers/monster.py:148-176 | get_info followed by add_to_db, as written, raises exactly when `result` is unbound (get_info itself raises at line 336) or lacks `company_name`, `title` or `description`. Otherwise it commits tables that are valid when the old ones were. |
| `AsWritten.CrawlLoop` | datafunctions/retrieve/retrievers/monster.py:270-273 | The loop as written can only abort at an index of the page. |
| `AsWritten.CrawlAsWritten` | datafunctions/retrieve/retrievers/monster.py:270-273 | The loop as written over a page can only abort at an index of that page. |
| `AsWritten.AsDictRoundTrip` | datafunctions/retrieve/retrievers/monster.py:148-210 | A dictionary with all six keys is written exactly as the record it came from. |
| `AsWritten.PartialDictComplete` | datafunctions/retrieve/retrievers/monster.py:292-326 | The partial dictionary has `description` exactly when every read succeeded, and then holds all six fields. |
| `AsWritten.AttemptDictMatches` | datafunctions/retrieve/retrievers/monster.py:290-327 | An attempt as written sets `description` exactly when the corrected attempt succeeds, and is then that record's dictionary. |
| `AsWritten.GetInfoLoopMatches` | datafunctions/retrieve/retrievers/monster.py:288-336 | get_info as written returns the corrected result's dictionary when there is one. When every attempt fails, it returns an unbound name or a dictionary without `description`. |
| `AsWritten.GetInfoAsWrittenMatches` | datafunctions/retrieve/retrievers/monster.py:288-336 | The same statement, for the attempts of one element. |
| `AsWritten.ExhaustedWriteRaises` | datafunctions/retrieve/retrievers/monster.py:148-176 | An element whose retries are exhausted makes add_to_db, as written, raise on what get_info returned. |
| `AsWritten.ExtractedWriteAgrees` | datafunctions/retrieve/retrievers/monster.py:148-214 | An element that extracts is committed, as the code stands, with exactly the tables `Persist` gives for its record. |
| `AsWritten.InfosMatchOutcomes` | datafunctions/retrieve/retrievers/monster.py:270-272 | The as-written and corrected get_info agree element by element. |
| `AsWritten.CrawlLoopAgrees` | datafunctions/retrieve/retrievers/monster.py:270-273 | When every element extracts, the loop as written completes with the corrected loop's tables. |
| `AsWritten.LastFailureAborts` | datafunctions/retrieve/retrievers/monster.py:270-273 | A failing last element aborts the loop as written, after the earlier ones were committed. |
| `AsWritten.CrawlLoopAbortsAtFirstFailure` | datafunctions/retrieve/retrievers/monster.py:270-273 | The loop as written aborts at the first element whose retries are exhausted, with the tables the corrected loop built from the elements before it. |
| `AsWritten.CrawlAsWrittenAgrees` | datafunctions/retrieve/retrievers/monster.py:270-273 | The same agreement, for a page of elements. |
| `AsWritten.CrawlAsWrittenAbortsAtFirstFailure` | datafunctions/retrieve/retrievers/monster.py:270-273 | The same abort, for a page of elements. |
| `AsWritten.DeadFails` | datafunctions/retrieve/retrievers/monster.py:328-336 | get_info exhausts its retries on an element on which every lookup raises. |
| `AsWritten.NoCompanyLeavesEmptyDict` | datafunctions/retrieve/retrievers/monster.py:151 | On an element whose company read always raises, get_info as written returns `{}`, on which `result['company_name']` raises KeyError. |
| `AsWritten.SkipThenWrite` | datafunctions/retrieve/retrievers/monster.py:270-273 | The corrected loop over a failure followed by a record writes that one record and counts one failure. |
| `AsWritten.DeadThenSteadyOutcomes` | datafunctions/retrieve/retrievers/monster.py:288-336 | get_info fails on the dead element and extracts the good one. |
| `AsWritten.DeadThenSteady` | datafunctions/retrieve/retrievers/monster.py:270-273 | A page of an unreadable card followed by a good one: the code as written aborts at index 0 with nothing written, while the corrected loop writes the good listing and counts one failure. |

## Left out

- Selenium itself: the driver, XPath evaluation, `execute_script`, the
  `WebDriverWait` timeouts. This is replaced by the oracles `Element`
  and `Page`. An exception of any kind is a failed lookup.
- Logging (`MONSTER_LOG`) and `time.sleep`. These have no effect on
  the data.
- psycopg2: cursors, `fetchone`, transactions. Each add_to_db is one
  committed transaction over in-memory tables. The uncommitted company
  insert that precedes a KeyError in add_to_db is not modelled, because
  nothing later in the crawl commits it.
- `urlencode` internals: the percent-encoding of each component is the
  parameter `quote`, and its properties are assumed in the round-trip
  lemma's requires.
- `get_details`, `get_data`, `__init__`, the module-level script and the
  commented-out code. These are outside the modelled core.
- LIMIT 1 without ORDER BY returns an unspecified row. The model takes
  the first matching row in table order, and the contracts promise only
  "some matching row".
- `Pagination.LoadMore`: the click outcomes are a finite sequence, so the
  loop has an extra `attempts < |clicks|` guard. When the outcomes run
  out before three consecutive failures, `GetJobs` reports `StillLoading`
  and writes nothing. The source loops as long as the button keeps
  working.
- `Crawl.Outcomes` records an exhausted extraction as `None` in place of
  the partial dictionary. The partial dictionary itself is modelled in
  `AsWritten`.
- `Crawl.GetJobs`: returns the URL and an outcome, where the Python method
  returns nothing. `Finished` carries the counts of processed and failed
  elements, which the source only logs. It uses the corrected element
  loop; the loop as written is `AsWritten.CrawlAsWritten`.
- `AsWritten.AddToDbAsWritten`: the fields add_to_db never reads
  (`location`, `inner_link`, `posted`) are taken as empty when absent.
  Nothing the tables hold depends on them.

## Findings

The program's own structure shows that a listing whose extraction fails
is meant to be given up on while the crawl goes on: get_info retries and
absorbs every exception of an attempt (lines 289-334), and add_to_db
commits each record on its own (line 214), so one listing does not depend
on another. The code does not do this. The model follows the code in
`AsWritten`, and uses the skipping behaviour everywhere else.

| source | as written | input that shows it | evidently intended | confidence | as-written member | corrected member |
|---|---|---|---|---|---|---|
| datafunctions/retrieve/retrievers/monster.py:288-336 | When all `max_tries` attempts fail, get_info returns the partial `result` of the last attempt, which has no `description` key. With `max_tries = 0`, `result` is unbound and `return (result)` at line 336 raises UnboundLocalError inside get_info, before add_to_db is called. Otherwise add_to_db indexes `result['company_name']` (line 151), or, when that key is present, `result['title']`/`result['description']` (lines 170-176), and raises KeyError. Nothing in `get_jobs` catches this, so the crawl ends at that element, and every later listing is lost. | A page whose first card loses its company sub-element on all five attempts, followed by a card that reads cleanly: get_info as written returns `{}`, `result['company_name']` at line 151 raises, and the crawl as written stops at index 0 and writes nothing. | An exhausted element is given up on and the crawl continues with the next one. | not executed | `AsWritten.DeadThenSteady` | `Crawl.CrawlSkipsFailure` |
