/**
 * The write path of `add_to_db`: the four tables `companies`,
 * `job_listings`, `jobs_descriptions` and `jobs_companies`, held in memory.
 * Each table is a sequence of rows in insertion order; the two id
 * sequences behind `RETURNING id` are counters that only grow.
 */
module Persistence {
  import opened Wrappers
  import opened Records

  datatype Company = Company(id: nat, name: string)
  datatype JobListing = JobListing(id: nat, title: string)
  datatype JobDescription = JobDescription(jobId: nat, description: string)
  datatype JobCompany = JobCompany(jobId: nat, companyId: nat)

  /** The four tables and the next value of each id sequence. */
  datatype Store = Store(
    companies: seq<Company>,
    jobListings: seq<JobListing>,
    jobsDescriptions: seq<JobDescription>,
    jobsCompanies: seq<JobCompany>,
    companySeq: nat,
    jobSeq: nat)
  {
    /** Every id in use was handed out by its sequence, so the next value is fresh. */
    ghost predicate Valid() {
      && (forall c :: c in companies ==> c.id < companySeq)
      && (forall l :: l in jobListings ==> l.id < jobSeq)
      && (forall d :: d in jobsDescriptions ==> d.jobId < jobSeq)
      && (forall jc :: jc in jobsCompanies ==> jc.jobId < jobSeq && jc.companyId < companySeq)
    }
  }

  ghost predicate HasCompany(companies: seq<Company>, name: string) {
    exists c :: c in companies && c.name == name
  }

  /**
   * The dedup key: some listing with `title` has a description row with the
   * same job id and `description`.
   */
  ghost predicate ListingExists(listings: seq<JobListing>, descriptions: seq<JobDescription>,
                                title: string, description: string) {
    exists l, d :: l in listings && d in descriptions
      && l.title == title && d.jobId == l.id && d.description == description
  }

  /** `SELECT id FROM companies WHERE name = %(name)s LIMIT 1`, taking the first row in table order. */
  function FindCompany(companies: seq<Company>, name: string): (r: Option<nat>)
    ensures r.None? <==> !HasCompany(companies, name)
    ensures r.Some? ==> Company(r.value, name) in companies
  {
    if companies == [] then None
    else if companies[0].name == name then Some(companies[0].id)
    else FindCompany(companies[1..], name)
  }

  predicate HasDescription(descriptions: seq<JobDescription>, jobId: nat, description: string) {
    JobDescription(jobId, description) in descriptions
  }

  /** The job-exists query: the first listing with `title` joined to a description row matching `description`. */
  function FindListing(listings: seq<JobListing>, descriptions: seq<JobDescription>,
                       title: string, description: string): (r: Option<nat>)
    ensures r.Some? <==> ListingExists(listings, descriptions, title, description)
    ensures r.Some? ==>
      JobListing(r.value, title) in listings && JobDescription(r.value, description) in descriptions
  {
    if listings == [] then None
    else if listings[0].title == title && HasDescription(descriptions, listings[0].id, description)
    then Some(listings[0].id)
    else FindListing(listings[1..], descriptions, title, description)
  }

  /**
   * Step 1 of add_to_db: find the company by exact name, or insert it under
   * the next company id. Returns the new store and the company id used.
   */
  function ResolveCompany(s: Store, name: string): (res: (Store, nat))
    ensures Company(res.1, name) in res.0.companies
    ensures HasCompany(s.companies, name) ==> res.0 == s
    ensures !HasCompany(s.companies, name) ==>
      && res.0 == s.(companies := s.companies + [Company(s.companySeq, name)], companySeq := s.companySeq + 1)
      && res.1 == s.companySeq
  {
    match FindCompany(s.companies, name)
    case Some(id) => (s, id)
    case None =>
      (s.(companies := s.companies + [Company(s.companySeq, name)], companySeq := s.companySeq + 1), s.companySeq)
  }

  /**
   * Step 3 of add_to_db: the listing, its company link and its description,
   * under one fresh job id. Each job table keeps its rows and gains exactly
   * one under the next job id, which then advances; afterwards the pair is
   * found, the company table is untouched, and valid ids stay valid when
   * the company id is in use.
   */
  function InsertListing(s: Store, title: string, description: string, companyId: nat): (t: Store)
    ensures t.jobListings == s.jobListings + [JobListing(s.jobSeq, title)]
    ensures t.jobsCompanies == s.jobsCompanies + [JobCompany(s.jobSeq, companyId)]
    ensures t.jobsDescriptions == s.jobsDescriptions + [JobDescription(s.jobSeq, description)]
    ensures t.jobSeq == s.jobSeq + 1
    ensures ListingExists(t.jobListings, t.jobsDescriptions, title, description)
    ensures JobCompany(s.jobSeq, companyId) in t.jobsCompanies
    ensures t.companies == s.companies && t.companySeq == s.companySeq
    ensures s.Valid() && companyId < s.companySeq ==> t.Valid()
  {
    var j := s.jobSeq;
    var t := s.(jobListings := s.jobListings + [JobListing(j, title)],
                jobsCompanies := s.jobsCompanies + [JobCompany(j, companyId)],
                jobsDescriptions := s.jobsDescriptions + [JobDescription(j, description)],
                jobSeq := j + 1);
    assert JobListing(j, title) in t.jobListings && JobDescription(j, description) in t.jobsDescriptions;
    t
  }

  /** add_to_db on one record, as one committed transaction. */
  function Persist(s: Store, r: ListingRecord): (t: Store)
    // company lookup
    ensures HasCompany(s.companies, r.companyName) ==>
      t.companies == s.companies && t.companySeq == s.companySeq
    ensures !HasCompany(s.companies, r.companyName) ==>
      t.companies == s.companies + [Company(s.companySeq, r.companyName)] && t.companySeq == s.companySeq + 1
    // an existing (title, description) pair: the job tables are untouched
    ensures ListingExists(s.jobListings, s.jobsDescriptions, r.title, r.description) ==>
      && t.jobListings == s.jobListings
      && t.jobsCompanies == s.jobsCompanies
      && t.jobsDescriptions == s.jobsDescriptions
      && t.jobSeq == s.jobSeq
    // a new pair: exactly three rows, sharing the next job id, linked to the company by that name
    ensures !ListingExists(s.jobListings, s.jobsDescriptions, r.title, r.description) ==>
      exists companyId :: Company(companyId, r.companyName) in t.companies
        && t.jobListings == s.jobListings + [JobListing(s.jobSeq, r.title)]
        && t.jobsCompanies == s.jobsCompanies + [JobCompany(s.jobSeq, companyId)]
        && t.jobsDescriptions == s.jobsDescriptions + [JobDescription(s.jobSeq, r.description)]
        && t.jobSeq == s.jobSeq + 1
    // afterwards the company and the pair are both stored
    ensures HasCompany(t.companies, r.companyName)
    ensures ListingExists(t.jobListings, t.jobsDescriptions, r.title, r.description)
    // fresh ids stay fresh
    ensures s.Valid() ==> t.Valid()
  {
    var (s1, companyId) := ResolveCompany(s, r.companyName);
    if FindListing(s1.jobListings, s1.jobsDescriptions, r.title, r.description).Some? then s1
    else
      var t := InsertListing(s1, r.title, r.description, companyId);
      assert JobListing(s.jobSeq, r.title) in t.jobListings;
      assert JobDescription(s.jobSeq, r.description) in t.jobsDescriptions;
      t
  }

  /** The job id a new listing receives appears in none of the three job tables. */
  lemma FreshJobId(s: Store)
    requires s.Valid()
    ensures forall l :: l in s.jobListings ==> l.id != s.jobSeq
    ensures forall d :: d in s.jobsDescriptions ==> d.jobId != s.jobSeq
    ensures forall jc :: jc in s.jobsCompanies ==> jc.jobId != s.jobSeq
  {
  }

  /** A second add_to_db of the same record changes none of the four tables. */
  lemma PersistIdempotent(s: Store, r: ListingRecord)
    ensures Persist(Persist(s, r), r) == Persist(s, r)
  {
  }

  /** The company of `r` and its (title, description) pair are both in the tables. */
  ghost predicate Stored(s: Store, r: ListingRecord) {
    HasCompany(s.companies, r.companyName) && ListingExists(s.jobListings, s.jobsDescriptions, r.title, r.description)
  }

  /** add_to_db only ever adds rows: what is stored stays stored after any other record is written. */
  lemma StoredStaysStored(s: Store, r: ListingRecord, q: ListingRecord)
    requires Stored(s, r)
    ensures Stored(Persist(s, q), r)
  {
    var t := Persist(s, q);
    var c :| c in s.companies && c.name == r.companyName;
    assert c in t.companies;
    var l, d :| l in s.jobListings && d in s.jobsDescriptions
      && l.title == r.title && d.jobId == l.id && d.description == r.description;
    assert l in t.jobListings && d in t.jobsDescriptions;
  }

  /** add_to_db of a record whose company and pair are already stored changes nothing. */
  lemma RewriteStored(s: Store, r: ListingRecord)
    requires Stored(s, r)
    ensures Persist(s, r) == s
  {
  }

  /** No two job ids share a (title, description) pair of these tables. */
  ghost predicate PairsUniqueIn(listings: seq<JobListing>, descriptions: seq<JobDescription>) {
    forall l1, d1, l2, d2 ::
      && l1 in listings && d1 in descriptions && d1.jobId == l1.id
      && l2 in listings && d2 in descriptions && d2.jobId == l2.id
      && l1.title == l2.title && d1.description == d2.description
      ==> l1.id == l2.id
  }

  /** Each (title, description) pair was inserted at most once. */
  ghost predicate PairsUnique(s: Store) {
    PairsUniqueIn(s.jobListings, s.jobsDescriptions)
  }

  /** A join row of the tables after a new listing is either an old row pair or the two new rows. */
  lemma JoinedRow(listings: seq<JobListing>, descriptions: seq<JobDescription>, j: nat,
                  title: string, description: string, l: JobListing, d: JobDescription)
    requires forall l' :: l' in listings ==> l'.id < j
    requires forall d' :: d' in descriptions ==> d'.jobId < j
    requires l in listings + [JobListing(j, title)]
    requires d in descriptions + [JobDescription(j, description)]
    requires d.jobId == l.id
    ensures || (l in listings && d in descriptions)
            || (l == JobListing(j, title) && d == JobDescription(j, description))
  {
  }

  /** Adding a new pair under a fresh job id keeps the pairs unique. */
  lemma NewPairKeepsPairsUnique(listings: seq<JobListing>, descriptions: seq<JobDescription>, j: nat,
                                title: string, description: string)
    requires forall l :: l in listings ==> l.id < j
    requires forall d :: d in descriptions ==> d.jobId < j
    requires PairsUniqueIn(listings, descriptions)
    requires !ListingExists(listings, descriptions, title, description)
    ensures PairsUniqueIn(listings + [JobListing(j, title)], descriptions + [JobDescription(j, description)])
  {
    var listings' := listings + [JobListing(j, title)];
    var descriptions' := descriptions + [JobDescription(j, description)];
    forall l1, d1, l2, d2 |
      && l1 in listings' && d1 in descriptions' && d1.jobId == l1.id
      && l2 in listings' && d2 in descriptions' && d2.jobId == l2.id
      && l1.title == l2.title && d1.description == d2.description
      ensures l1.id == l2.id
    {
      JoinedRow(listings, descriptions, j, title, description, l1, d1);
      JoinedRow(listings, descriptions, j, title, description, l2, d2);
    }
  }

  /** add_to_db keeps every (title, description) pair under a single job id. */
  lemma PersistKeepsPairsUnique(s: Store, r: ListingRecord)
    requires s.Valid() && PairsUnique(s)
    ensures PairsUnique(Persist(s, r))
  {
    if !ListingExists(s.jobListings, s.jobsDescriptions, r.title, r.description) {
      NewPairKeepsPairsUnique(s.jobListings, s.jobsDescriptions, s.jobSeq, r.title, r.description);
    }
  }

  /** After a new listing is written, a pair differing from it in the description is still new. */
  lemma NewPairStaysNew(s: Store, title1: string, description1: string, title2: string, description2: string)
    requires s.Valid() && description1 != description2
    requires !ListingExists(s.jobListings, s.jobsDescriptions, title2, description2)
    ensures !ListingExists(s.jobListings + [JobListing(s.jobSeq, title1)],
                           s.jobsDescriptions + [JobDescription(s.jobSeq, description1)], title2, description2)
  {
    var listings := s.jobListings + [JobListing(s.jobSeq, title1)];
    var descriptions := s.jobsDescriptions + [JobDescription(s.jobSeq, description1)];
    forall l, d | l in listings && d in descriptions && l.title == title2 && d.jobId == l.id
      ensures d.description != description2
    {
      if d in s.jobsDescriptions {
        assert l in s.jobListings;
      }
    }
  }

  /**
   * Two records with one title and different descriptions, neither stored
   * yet, each create a listing row of their own.
   */
  lemma PersistSameTitleTwice(s: Store, r1: ListingRecord, r2: ListingRecord)
    requires s.Valid()
    requires r1.title == r2.title && r1.description != r2.description
    requires !ListingExists(s.jobListings, s.jobsDescriptions, r1.title, r1.description)
    requires !ListingExists(s.jobListings, s.jobsDescriptions, r2.title, r2.description)
    ensures Persist(Persist(s, r1), r2).jobListings
      == s.jobListings + [JobListing(s.jobSeq, r1.title), JobListing(s.jobSeq + 1, r2.title)]
  {
    var s1 := Persist(s, r1);
    assert s1.jobListings == s.jobListings + [JobListing(s.jobSeq, r1.title)];
    assert s1.jobsDescriptions == s.jobsDescriptions + [JobDescription(s.jobSeq, r1.description)];
    assert s1.jobSeq == s.jobSeq + 1;
    NewPairStaysNew(s, r1.title, r1.description, r2.title, r2.description);
  }

  /**
   * The database connection: the four tables and their id sequences,
   * changed only through the four INSERT statements of add_to_db.
   */
  class Database {
    var companies: seq<Company>
    var jobListings: seq<JobListing>
    var jobsDescriptions: seq<JobDescription>
    var jobsCompanies: seq<JobCompany>
    var companySeq: nat
    var jobSeq: nat

    function State(): Store
      reads this
    {
      Store(companies, jobListings, jobsDescriptions, jobsCompanies, companySeq, jobSeq)
    }

    constructor (initial: Store)
      ensures State() == initial
    {
      companies := initial.companies;
      jobListings := initial.jobListings;
      jobsDescriptions := initial.jobsDescriptions;
      jobsCompanies := initial.jobsCompanies;
      companySeq := initial.companySeq;
      jobSeq := initial.jobSeq;
    }

    /** `INSERT INTO companies(name) VALUES (%(name)s) RETURNING id` */
    method InsertCompany(name: string) returns (id: nat)
      modifies this
      ensures id == old(companySeq)
      ensures State() == old(State()).(companies := old(companies) + [Company(id, name)], companySeq := id + 1)
    {
      id := companySeq;
      companies := companies + [Company(id, name)];
      companySeq := companySeq + 1;
    }

    /** `INSERT INTO job_listings(title) VALUES (%(title)s) RETURNING id` */
    method InsertJobListing(title: string) returns (id: nat)
      modifies this
      ensures id == old(jobSeq)
      ensures State() == old(State()).(jobListings := old(jobListings) + [JobListing(id, title)], jobSeq := id + 1)
    {
      id := jobSeq;
      jobListings := jobListings + [JobListing(id, title)];
      jobSeq := jobSeq + 1;
    }

    /** `INSERT INTO jobs_companies(job_id, company_id) VALUES (...)` */
    method InsertJobCompany(jobId: nat, companyId: nat)
      modifies this
      ensures State() == old(State()).(jobsCompanies := old(jobsCompanies) + [JobCompany(jobId, companyId)])
    {
      jobsCompanies := jobsCompanies + [JobCompany(jobId, companyId)];
    }

    /** `INSERT INTO jobs_descriptions(job_id, description) VALUES (...)` */
    method InsertJobDescription(jobId: nat, description: string)
      modifies this
      ensures State() == old(State()).(jobsDescriptions := old(jobsDescriptions) + [JobDescription(jobId, description)])
    {
      jobsDescriptions := jobsDescriptions + [JobDescription(jobId, description)];
    }
  }

  /**
   * add_to_db: find or create the company, then, unless the (title,
   * description) pair is already stored, insert the listing, its company
   * link and its description; commit.
   */
  method AddToDb(db: Database, result: ListingRecord)
    modifies db
    ensures db.State() == Persist(old(db.State()), result)
  {
    var companyId: nat;
    var qr := FindCompany(db.companies, result.companyName);
    if qr.Some? {
      companyId := qr.value;
    } else {
      companyId := db.InsertCompany(result.companyName);
    }
    var jq := FindListing(db.jobListings, db.jobsDescriptions, result.title, result.description);
    if jq.None? {
      var jobId := db.InsertJobListing(result.title);
      db.InsertJobCompany(jobId, companyId);
      db.InsertJobDescription(jobId, result.description);
    }
  }
}
