/**
 * Turning the raw jobs table into the batch table (`build_job_list.py`):
 * each raw job with a title, a posting URL and a company, whose title passes
 * the relevance filter, gets the next job id and one output row per contact
 * found for its company. Jobs without contacts consume an id but write nothing.
 *
 * The raw table is the list of rows a CSV dictionary reader yields (`None`
 * when the file does not exist); the Hunter service and its API key are
 * parameters, as in the contact lookup.
 */
module BuildJobList {
  import opened Wrappers
  import opened Strings
  import JobProfileRules
  import ContactEnricher

  /** The columns of the output table, in order. */
  const FieldNames: seq<string> := [
    "job_id",
    "job_title",
    "job_url",
    "company",
    "company_url",
    "contact_name",
    "contact_email",
    "contact_title",
    "use_jd"
  ]

  /** Contacts asked for per company. */
  const MaxContacts: int := 5

  /** One raw row as a CSV dictionary reader yields it: column name to cell. */
  type RawRow = map<string, string>

  /** One output row. */
  datatype JobRow = JobRow(
    jobId: nat,
    jobTitle: string,
    jobUrl: string,
    company: string,
    companyUrl: string,
    contactName: string,
    contactEmail: string,
    contactTitle: string,
    useJd: string)

  /** What the script leaves behind. */
  datatype BuildResult =
    | MissingInput                                // the raw file does not exist: exit status 1
    | NoRows                                      // the raw file has no rows: no output file
    | Wrote(header: seq<string>, rows: seq<JobRow>)

  /** The stripped cells of one raw row, and the scrape decision for its posting. */
  datatype Job = Job(
    title: string,
    jobUrl: string,
    company: string,
    companyUrl: string,
    companyDomain: string,
    useJd: string)

  /** `raw.get(key, "").strip()` */
  function Field(raw: RawRow, key: string): (r: string)
    ensures r == [] || (!IsSpace(r[0]) && !IsSpace(r[|r| - 1]))
  {
    Strip(if key in raw then raw[key] else "")
  }

  /** The five cells the script reads from a raw row, each stripped. */
  function ReadJob(raw: RawRow): Job {
    Job(Field(raw, "job_title"), Field(raw, "job_url"), Field(raw, "company"),
        Field(raw, "company_url"), Field(raw, "company_domain"),
        JobProfileRules.GuessUseJd(Field(raw, "job_url")))
  }

  function ReadJobs(raws: seq<RawRow>): (jobs: seq<Job>)
    ensures |jobs| == |raws|
    ensures forall i :: 0 <= i < |raws| ==> jobs[i] == ReadJob(raws[i])
  {
    seq(|raws|, i requires 0 <= i < |raws| => ReadJob(raws[i]))
  }

  /** `s or None` */
  function NonEmpty(s: string): (r: Option<string>)
    ensures r.Some? <==> s != ""
    ensures r.Some? ==> r.value == s
  {
    if s == "" then None else Some(s)
  }

  /** A job gets an id when its three basic fields are present and its title is relevant. */
  predicate Accepted(job: Job) {
    job.title != "" && job.jobUrl != "" && job.company != "" && JobProfileRules.IsTitleRelevant(job.title)
  }

  /** The contacts looked up for a job's company. */
  function ContactsFor(job: Job, apiKey: Option<string>, hunter: string -> ContactEnricher.HunterReply)
    : seq<ContactEnricher.Contact>
  {
    ContactEnricher.FindContacts(NonEmpty(job.companyUrl), NonEmpty(job.companyDomain), MaxContacts, apiKey, hunter)
  }

  /** The contact lookup the script performs, as a function of the job. */
  function Lookup(apiKey: Option<string>, hunter: string -> ContactEnricher.HunterReply)
    : Job -> seq<ContactEnricher.Contact>
  {
    job => ContactsFor(job, apiKey, hunter)
  }

  /** The output row for job `jobId` and one of its contacts. */
  function RowFor(job: Job, jobId: nat, c: ContactEnricher.Contact): JobRow {
    JobRow(jobId, job.title, job.jobUrl, job.company, job.companyUrl, c.name, c.email, c.position, job.useJd)
  }

  /** The output rows for job `jobId`, one per contact, in contact order. */
  function RowsFor(job: Job, jobId: nat, contacts: seq<ContactEnricher.Contact>): (rows: seq<JobRow>)
    ensures |rows| == |contacts|
  {
    seq(|contacts|, k requires 0 <= k < |contacts| => RowFor(job, jobId, contacts[k]))
  }

  /**
   * One pass of the loop body: a job that is not accepted changes nothing;
   * an accepted job takes the next id and appends one row per contact.
   */
  function Step(rows: seq<JobRow>, lastId: nat, job: Job, accept: Job -> bool,
                lookup: Job -> seq<ContactEnricher.Contact>): (seq<JobRow>, nat)
  {
    if !accept(job) then (rows, lastId)
    else (rows + RowsFor(job, lastId + 1, lookup(job)), lastId + 1)
  }

  /**
   * The rows written and the last id handed out after the jobs `jobs`, for
   * a given acceptance test and contact lookup.
   */
  function Build(jobs: seq<Job>, accept: Job -> bool, lookup: Job -> seq<ContactEnricher.Contact>)
    : (seq<JobRow>, nat)
    decreases |jobs|
  {
    if jobs == [] then ([], 0)
    else
      var prev := Build(jobs[..|jobs| - 1], accept, lookup);
      Step(prev.0, prev.1, jobs[|jobs| - 1], accept, lookup)
  }

  /** The outcome of `build_job_list`. */
  function BuildJobListSpec(input: Option<seq<RawRow>>, apiKey: Option<string>,
                            hunter: string -> ContactEnricher.HunterReply): BuildResult
  {
    match input
    case None => MissingInput
    case Some(raws) =>
      if raws == [] then NoRows
      else Wrote(FieldNames, Build(ReadJobs(raws), Accepted, Lookup(apiKey, hunter)).0)
  }

  /** `build_job_list` */
  method BuildJobListRun(input: Option<seq<RawRow>>, apiKey: Option<string>,
                         hunter: string -> ContactEnricher.HunterReply)
    returns (result: BuildResult)
    ensures result == BuildJobListSpec(input, apiKey, hunter)
  {
    if input.None? {
      return MissingInput;
    }
    if input.value == [] {
      return NoRows;
    }
    var rows := BuildRows(input.value, apiKey, hunter);
    return Wrote(FieldNames, rows);
  }

  /** The loop of `build_job_list` over the raw rows. */
  method BuildRows(raws: seq<RawRow>, apiKey: Option<string>, hunter: string -> ContactEnricher.HunterReply)
    returns (rows: seq<JobRow>)
    ensures rows == Build(ReadJobs(raws), Accepted, Lookup(apiKey, hunter)).0
  {
    ghost var jobs := ReadJobs(raws);
    rows := [];
    var jobIdCounter: nat := 0;
    for i := 0 to |raws|
      invariant (rows, jobIdCounter) == Build(jobs[..i], Accepted, Lookup(apiKey, hunter))
    {
      BuildStep(jobs, i, Accepted, Lookup(apiKey, hunter));
      rows, jobIdCounter := HandleJob(rows, jobIdCounter, ReadJob(raws[i]), apiKey, hunter);
    }
    assert jobs[..|raws|] == jobs;
  }

  /** The body of that loop for one raw row, already read and stripped. */
  method HandleJob(rows: seq<JobRow>, jobIdCounter: nat, job: Job, apiKey: Option<string>,
                   hunter: string -> ContactEnricher.HunterReply)
    returns (rows': seq<JobRow>, jobIdCounter': nat)
    ensures (rows', jobIdCounter') == Step(rows, jobIdCounter, job, Accepted, Lookup(apiKey, hunter))
  {
    rows', jobIdCounter' := rows, jobIdCounter;
    if job.title == "" || job.jobUrl == "" || job.company == "" {
      return;  // a basic field is missing
    }
    if !JobProfileRules.IsTitleRelevant(job.title) {
      return;  // the title is filtered out
    }
    jobIdCounter' := jobIdCounter + 1;
    var contacts := ContactEnricher.FindContactsForCompany(
      NonEmpty(job.companyUrl), NonEmpty(job.companyDomain), MaxContacts, apiKey, hunter);
    rows' := WriteRows(rows, job, jobIdCounter', contacts);
  }

  /** The inner loop of `build_job_list`: one row per contact, appended in contact order. */
  method WriteRows(rows: seq<JobRow>, job: Job, jobId: nat, contacts: seq<ContactEnricher.Contact>)
    returns (out: seq<JobRow>)
    ensures out == rows + RowsFor(job, jobId, contacts)
  {
    out := rows;
    for k := 0 to |contacts|
      invariant out == rows + RowsFor(job, jobId, contacts[..k])
    {
      assert RowsFor(job, jobId, contacts[..k + 1]) == RowsFor(job, jobId, contacts[..k]) + [RowFor(job, jobId, contacts[k])];
      out := out + [RowFor(job, jobId, contacts[k])];
    }
    assert contacts[..|contacts|] == contacts;
  }

  // ---------------------------------------------------------------- lemmas

  /** How many jobs are accepted. */
  function AcceptedCount(jobs: seq<Job>, accept: Job -> bool): nat
    decreases |jobs|
  {
    if jobs == [] then 0
    else AcceptedCount(jobs[..|jobs| - 1], accept) + if accept(jobs[|jobs| - 1]) then 1 else 0
  }

  /** The number of contacts found over the accepted jobs among `jobs`. */
  function ContactCount(jobs: seq<Job>, accept: Job -> bool, lookup: Job -> seq<ContactEnricher.Contact>): nat
    decreases |jobs|
  {
    if jobs == [] then 0
    else ContactCount(jobs[..|jobs| - 1], accept, lookup)
         + if accept(jobs[|jobs| - 1]) then |lookup(jobs[|jobs| - 1])| else 0
  }

  /** `written_rows`: one row per contact of every accepted job, and nothing else. */
  lemma {:induction false} RowsWrittenCount(jobs: seq<Job>, accept: Job -> bool,
                                            lookup: Job -> seq<ContactEnricher.Contact>)
    ensures |Build(jobs, accept, lookup).0| == ContactCount(jobs, accept, lookup)
    decreases |jobs|
  {
    if jobs != [] {
      RowsWrittenCount(jobs[..|jobs| - 1], accept, lookup);
      BuildLast(jobs, accept, lookup);
    }
  }

  /** The rows carrying job id `j`. */
  function RowsWithId(rows: seq<JobRow>, j: nat): seq<JobRow>
    decreases |rows|
  {
    if rows == [] then []
    else RowsWithId(rows[..|rows| - 1], j) + if rows[|rows| - 1].jobId == j then [rows[|rows| - 1]] else []
  }

  lemma {:induction false} RowsWithIdAppend(a: seq<JobRow>, b: seq<JobRow>, j: nat)
    ensures RowsWithId(a + b, j) == RowsWithId(a, j) + RowsWithId(b, j)
    decreases |b|
  {
    if b != [] {
      RowsWithIdAppend(a, b[..|b| - 1], j);
      assert (a + b)[..|a + b| - 1] == a + b[..|b| - 1];
    } else {
      assert a + b == a;
    }
  }

  lemma {:induction false} RowsWithIdNone(rows: seq<JobRow>, j: nat)
    requires forall r :: r in rows ==> r.jobId != j
    ensures RowsWithId(rows, j) == []
    decreases |rows|
  {
    if rows != [] {
      RowsWithIdNone(rows[..|rows| - 1], j);
    }
  }

  lemma {:induction false} RowsWithIdAll(rows: seq<JobRow>, j: nat)
    requires forall r :: r in rows ==> r.jobId == j
    ensures RowsWithId(rows, j) == rows
    decreases |rows|
  {
    if rows != [] {
      RowsWithIdAll(rows[..|rows| - 1], j);
      assert rows == rows[..|rows| - 1] + [rows[|rows| - 1]];
    }
  }

  /** The lookup never returns more contacts than asked for. */
  lemma AtMostMaxContacts(apiKey: Option<string>, hunter: string -> ContactEnricher.HunterReply, job: Job)
    ensures |Lookup(apiKey, hunter)(job)| <= MaxContacts
  {
    var url := NonEmpty(job.companyUrl);
    var dom := NonEmpty(job.companyDomain);
    var d := ContactEnricher.ExtractDomain(url.GetOr(""), dom);
    if ContactEnricher.HasKey(apiKey) && d.Some? {
      var reply := hunter(d.value);
      if reply.Reply? && reply.status == 200 && reply.body.Emails?
         && ContactEnricher.Scored(reply.body.emails) != [] {
        ContactEnricher.ProviderContacts(url, dom, MaxContacts, apiKey, hunter, d.value, reply.body.emails);
      }
    }
  }

  lemma BuildLast(jobs: seq<Job>, accept: Job -> bool, lookup: Job -> seq<ContactEnricher.Contact>)
    requires jobs != []
    ensures var prev := Build(jobs[..|jobs| - 1], accept, lookup);
            var job := jobs[|jobs| - 1];
            Build(jobs, accept, lookup)
            == if accept(job) then (prev.0 + RowsFor(job, prev.1 + 1, lookup(job)), prev.1 + 1) else prev
  {
  }

  /** One more job is one more loop step. */
  lemma BuildStep(jobs: seq<Job>, i: nat, accept: Job -> bool, lookup: Job -> seq<ContactEnricher.Contact>)
    requires i < |jobs|
    ensures var prev := Build(jobs[..i], accept, lookup);
            Build(jobs[..i + 1], accept, lookup) == Step(prev.0, prev.1, jobs[i], accept, lookup)
  {
    assert jobs[..i + 1][..i] == jobs[..i];
  }

  /** Every row written for job `jobId` carries that id. */
  lemma RowsForIds(job: Job, jobId: nat, contacts: seq<ContactEnricher.Contact>)
    ensures forall r :: r in RowsFor(job, jobId, contacts) ==> r.jobId == jobId
  {
    forall r | r in RowsFor(job, jobId, contacts) ensures r.jobId == jobId {
      var k :| 0 <= k < |contacts| && RowsFor(job, jobId, contacts)[k] == r;
    }
  }

  /**
   * Ids are handed out 1, 2, 3, ... to accepted jobs: the last id is the
   * number of accepted jobs, and every row's id lies between 1 and it.
   */
  lemma {:induction false} BuildIds(jobs: seq<Job>, accept: Job -> bool,
                                    lookup: Job -> seq<ContactEnricher.Contact>)
    ensures Build(jobs, accept, lookup).1 == AcceptedCount(jobs, accept)
    ensures forall r :: r in Build(jobs, accept, lookup).0 ==> 1 <= r.jobId <= Build(jobs, accept, lookup).1
    decreases |jobs|
  {
    if jobs != [] {
      var init := jobs[..|jobs| - 1];
      var job := jobs[|jobs| - 1];
      BuildIds(init, accept, lookup);
      BuildLast(jobs, accept, lookup);
      var rows0 := Build(init, accept, lookup).0;
      var id0 := Build(init, accept, lookup).1;
      if accept(job) {
        var added := RowsFor(job, id0 + 1, lookup(job));
        RowsForIds(job, id0 + 1, lookup(job));
        assert Build(jobs, accept, lookup) == (rows0 + added, id0 + 1);
        forall r: JobRow | r in rows0 + added ensures 1 <= r.jobId <= id0 + 1 {
          if r in rows0 {
          } else {
            assert r in added;
          }
        }
      }
    }
  }

  /** Rows come out job by job, in input order: their ids never decrease. */
  lemma {:induction false} BuildIdsOrdered(jobs: seq<Job>, accept: Job -> bool,
                                           lookup: Job -> seq<ContactEnricher.Contact>)
    ensures var rows := Build(jobs, accept, lookup).0;
            forall i, k :: 0 <= i < k < |rows| ==> rows[i].jobId <= rows[k].jobId
    decreases |jobs|
  {
    if jobs != [] {
      var init := jobs[..|jobs| - 1];
      var job := jobs[|jobs| - 1];
      BuildIdsOrdered(init, accept, lookup);
      BuildIds(init, accept, lookup);
      BuildLast(jobs, accept, lookup);
      var rows0 := Build(init, accept, lookup).0;
      var id0 := Build(init, accept, lookup).1;
      if accept(job) {
        var added := RowsFor(job, id0 + 1, lookup(job));
        RowsForIds(job, id0 + 1, lookup(job));
        var rows := rows0 + added;
        assert Build(jobs, accept, lookup).0 == rows;
        forall i, k | 0 <= i < k < |rows| ensures rows[i].jobId <= rows[k].jobId {
          if k >= |rows0| {
            assert rows[k] == added[k - |rows0|];
            assert rows[k] in added;
            if i < |rows0| {
              assert rows[i] == rows0[i];
              assert rows[i] in rows0;
            } else {
              assert rows[i] == added[i - |rows0|];
              assert rows[i] in added;
            }
          } else {
            assert rows[i] == rows0[i] && rows[k] == rows0[k];
          }
        }
      }
    }
  }

  /** No job id carries more rows than the lookup may return contacts. */
  lemma {:induction false} RowsPerJob(jobs: seq<Job>, accept: Job -> bool,
                                      lookup: Job -> seq<ContactEnricher.Contact>, j: nat)
    requires forall job :: |lookup(job)| <= MaxContacts
    ensures |RowsWithId(Build(jobs, accept, lookup).0, j)| <= MaxContacts
    decreases |jobs|
  {
    if jobs != [] {
      var init := jobs[..|jobs| - 1];
      var job := jobs[|jobs| - 1];
      RowsPerJob(init, accept, lookup, j);
      BuildLast(jobs, accept, lookup);
      BuildIds(init, accept, lookup);
      var rows0 := Build(init, accept, lookup).0;
      var id0 := Build(init, accept, lookup).1;
      if accept(job) {
        var added := RowsFor(job, id0 + 1, lookup(job));
        RowsForIds(job, id0 + 1, lookup(job));
        assert Build(jobs, accept, lookup).0 == rows0 + added;
        RowsWithIdAppend(rows0, added, j);
        if j == id0 + 1 {
          RowsWithIdNone(rows0, j);
          RowsWithIdAll(added, j);
        } else {
          RowsWithIdNone(added, j);
        }
      }
    }
  }

  /** A prefix of the jobs holds no more accepted jobs than the whole list. */
  lemma {:induction false} AcceptedCountPrefix(jobs: seq<Job>, accept: Job -> bool, k: nat)
    requires k <= |jobs|
    ensures AcceptedCount(jobs[..k], accept) <= AcceptedCount(jobs, accept)
    decreases |jobs|
  {
    if k < |jobs| {
      var init := jobs[..|jobs| - 1];
      assert init[..k] == jobs[..k];
      AcceptedCountPrefix(init, accept, k);
    } else {
      assert jobs[..k] == jobs;
    }
  }

  /**
   * `job_id_counter`: the accepted job at position `i` gets as id its rank
   * among the accepted jobs (1, 2, 3, ... in input order), and the rows with
   * that id are exactly its rows, one per contact in contact order.
   */
  lemma {:induction false} JobIdIsRank(jobs: seq<Job>, accept: Job -> bool,
                                       lookup: Job -> seq<ContactEnricher.Contact>, i: nat)
    requires i < |jobs| && accept(jobs[i])
    ensures var id := AcceptedCount(jobs[..i + 1], accept);
            RowsWithId(Build(jobs, accept, lookup).0, id) == RowsFor(jobs[i], id, lookup(jobs[i]))
    decreases |jobs|
  {
    var id := AcceptedCount(jobs[..i + 1], accept);
    var init := jobs[..|jobs| - 1];
    var last := jobs[|jobs| - 1];
    var rows0 := Build(init, accept, lookup).0;
    var id0 := Build(init, accept, lookup).1;
    BuildLast(jobs, accept, lookup);
    BuildIds(init, accept, lookup);
    if i == |jobs| - 1 {
      assert jobs[..i + 1] == jobs;
      assert jobs[..i + 1][..i] == init;
      assert id == id0 + 1;
      var added := RowsFor(last, id, lookup(last));
      assert Build(jobs, accept, lookup).0 == rows0 + added;
      RowsWithIdAppend(rows0, added, id);
      RowsWithIdNone(rows0, id);
      RowsForIds(last, id, lookup(last));
      RowsWithIdAll(added, id);
    } else {
      assert init[..i + 1] == jobs[..i + 1];
      JobIdIsRank(init, accept, lookup, i);
      AcceptedCountPrefix(init, accept, i + 1);
      if accept(last) {
        var added := RowsFor(last, id0 + 1, lookup(last));
        assert Build(jobs, accept, lookup).0 == rows0 + added;
        RowsWithIdAppend(rows0, added, id);
        RowsForIds(last, id0 + 1, lookup(last));
        RowsWithIdNone(added, id);
      }
    }
  }

  /**
   * Every row belongs to an accepted job job: it carries that job's stripped
   * title, posting URL, company and company URL, the scrape decision for its
   * URL, and one of the contacts found for its company.
   */
  lemma {:induction false} RowsTraceBack(jobs: seq<Job>, accept: Job -> bool,
                                         lookup: Job -> seq<ContactEnricher.Contact>)
    ensures forall r :: r in Build(jobs, accept, lookup).0 ==>
              exists i :: 0 <= i < |jobs| && accept(jobs[i])
                          && exists c :: c in lookup(jobs[i]) && r == RowFor(jobs[i], r.jobId, c)
    decreases |jobs|
  {
    if jobs != [] {
      var init := jobs[..|jobs| - 1];
      var job := jobs[|jobs| - 1];
      RowsTraceBack(init, accept, lookup);
      BuildLast(jobs, accept, lookup);
      var rows0 := Build(init, accept, lookup).0;
      var id0 := Build(init, accept, lookup).1;
      forall r | r in Build(jobs, accept, lookup).0
        ensures exists i :: 0 <= i < |jobs| && accept(jobs[i])
                            && exists c :: c in lookup(jobs[i]) && r == RowFor(jobs[i], r.jobId, c)
      {
        if r in rows0 {
          var i :| 0 <= i < |init| && accept(init[i])
                   && exists c :: c in lookup(init[i]) && r == RowFor(init[i], r.jobId, c);
          assert jobs[i] == init[i];
        } else {
          var contacts := lookup(job);
          var added := RowsFor(job, id0 + 1, contacts);
          assert accept(job) && r in added;
          var k :| 0 <= k < |added| && added[k] == r;
          assert contacts[k] in contacts && r == RowFor(job, r.jobId, contacts[k]);
        }
      }
    }
  }

  /**
   * For the script's own filter and lookup: at most five rows per job, and
   * every row has a contact email and the title of a relevant job.
   */
  lemma ScriptRows(jobs: seq<Job>, apiKey: Option<string>, hunter: string -> ContactEnricher.HunterReply)
    ensures var rows := Build(jobs, Accepted, Lookup(apiKey, hunter)).0;
            && (forall j: nat :: |RowsWithId(rows, j)| <= MaxContacts)
            && (forall r :: r in rows ==> r.contactEmail != "" && JobProfileRules.IsTitleRelevant(r.jobTitle))
  {
    var lookup := Lookup(apiKey, hunter);
    forall job ensures |lookup(job)| <= MaxContacts {
      AtMostMaxContacts(apiKey, hunter, job);
    }
    forall j: nat ensures |RowsWithId(Build(jobs, Accepted, lookup).0, j)| <= MaxContacts {
      RowsPerJob(jobs, Accepted, lookup, j);
    }
    RowsTraceBack(jobs, Accepted, lookup);
    forall r | r in Build(jobs, Accepted, lookup).0
      ensures r.contactEmail != "" && JobProfileRules.IsTitleRelevant(r.jobTitle)
    {
      var i :| 0 <= i < |jobs| && Accepted(jobs[i])
               && exists c :: c in lookup(jobs[i]) && r == RowFor(jobs[i], r.jobId, c);
      var job := jobs[i];
      ContactEnricher.EveryContactHasEmail(NonEmpty(job.companyUrl), NonEmpty(job.companyDomain),
                                           MaxContacts, apiKey, hunter);
    }
  }

  /**
   * An accepted job whose company yields no contacts still takes an id: the
   * next accepted job's rows carry the id after it, leaving a gap.
   */
  lemma SkippedJobLeavesGap(a: Job, b: Job, accept: Job -> bool,
                            lookup: Job -> seq<ContactEnricher.Contact>)
    requires accept(a) && lookup(a) == []
    requires accept(b) && lookup(b) != []
    ensures var rows := Build([a, b], accept, lookup).0;
            rows != [] && forall r :: r in rows ==> r.jobId == 2
  {
    BuildLast([a, b], accept, lookup);
    assert [a, b][..1] == [a];
    BuildLast([a], accept, lookup);
    assert [a][..0] == [];
  }
}
