/**
 * Turning the batch table into e-mail drafts (`batch_apply.py`): each row
 * is checked for its five required cells, optionally has its job posting
 * scraped, gets an e-mail written by the language model and a Gmail draft
 * created for it. A row with a missing cell is skipped; a failure to create
 * a draft is reported and the next row is processed.
 *
 * The posting page, the language model and the Gmail call are parameters:
 * what the page yields for a URL, what the model answers for a request, and
 * whether draft creation returns normally for a draft.
 */
module BatchApply {
  import opened Wrappers
  import opened Strings
  import BuildJobList
  import ContactEnricher
  import JobProfileRules
  import Scraper
  import EmailGenerator

  type RawRow = BuildJobList.RawRow

  /** The cells a row must have, in the order the skip message lists them. */
  const RequiredFields: seq<string> := ["job_title", "job_url", "company", "contact_name", "contact_email"]

  /** The cells `process_row` reads, each stripped; the flag also lowercased. */
  datatype RowCells = RowCells(
    jobId: string,
    jobTitle: string,
    jobUrl: string,
    company: string,
    companyUrl: string,
    contactName: string,
    contactEmail: string,
    contactTitle: string,
    useJdFlag: string)

  /** The first lines of `process_row`: `row.get(key, "").strip()` for each cell. */
  function ReadCells(row: RawRow): RowCells {
    RowCells(
      BuildJobList.Field(row, "job_id"),
      BuildJobList.Field(row, "job_title"),
      BuildJobList.Field(row, "job_url"),
      BuildJobList.Field(row, "company"),
      BuildJobList.Field(row, "company_url"),
      BuildJobList.Field(row, "contact_name"),
      BuildJobList.Field(row, "contact_email"),
      BuildJobList.Field(row, "contact_title"),
      Lower(BuildJobList.Field(row, "use_jd")))
  }

  /** The flag values that ask for the posting to be scraped. */
  predicate WantsJd(flag: string) {
    flag == "yes" || flag == "y" || flag == "true" || flag == "1"
  }

  /** The names of the pairs, in order. */
  function Names(pairs: seq<(string, string)>): (names: seq<string>)
    ensures |names| == |pairs| && forall i :: 0 <= i < |pairs| ==> names[i] == pairs[i].0
  {
    seq(|pairs|, i requires 0 <= i < |pairs| => pairs[i].0)
  }

  /** `[name for name, val in pairs if not val]` */
  function MissingNames(pairs: seq<(string, string)>): (m: seq<string>)
    ensures m == [] <==> forall i :: 0 <= i < |pairs| ==> pairs[i].1 != ""
    ensures forall i :: 0 <= i < |pairs| && pairs[i].1 == "" ==> pairs[i].0 in m
    ensures forall f :: f in m ==> exists i :: 0 <= i < |pairs| && pairs[i].0 == f && pairs[i].1 == ""
    ensures EmailGenerator.Subseq(m, Names(pairs))
    decreases |pairs|
  {
    if pairs == [] then []
    else
      var init := pairs[..|pairs| - 1];
      var last := pairs[|pairs| - 1];
      var prev := MissingNames(init);
      assert Names(init) == Names(pairs)[..|pairs| - 1];
      assert Names(pairs)[|pairs| - 1] == last.0;
      if last.1 == "" then
        var m := prev + [last.0];
        assert m[..|m| - 1] == prev && m[|m| - 1] == last.0;
        assert forall i :: 0 <= i < |init| ==> init[i] == pairs[i];
        m
      else
        assert forall i :: 0 <= i < |init| ==> init[i] == pairs[i];
        prev
  }

  /** The five required cells, each with its name. */
  function RequiredPairs(c: RowCells): (pairs: seq<(string, string)>)
    ensures Names(pairs) == RequiredFields
  {
    var pairs := [("job_title", c.jobTitle), ("job_url", c.jobUrl), ("company", c.company),
                  ("contact_name", c.contactName), ("contact_email", c.contactEmail)];
    assert Names(pairs) == RequiredFields;
    pairs
  }

  /** The `missing` list of `process_row`. */
  function Missing(c: RowCells): (m: seq<string>)
    ensures EmailGenerator.Subseq(m, RequiredFields)
  {
    MissingNames(RequiredPairs(c))
  }

  /** `f"{job_title} – {company}"`, with an en dash. */
  function Subject(jobTitle: string, company: string): (r: string)
    ensures |r| == |jobTitle| + 3 + |company|
    ensures r[..|jobTitle|] == jobTitle && r[|jobTitle|..|jobTitle| + 3] == " – "
    ensures r[|jobTitle| + 3..] == company
  {
    jobTitle + " – " + company
  }

  /** The arguments of `draft_email`. */
  datatype Request = Request(
    jobTitle: string,
    jobUrl: string,
    hiringManagerName: string,
    companyName: string,
    jobDescription: string,
    companyUrl: Option<string>)

  /** The arguments of `create_draft_with_resume`. */
  datatype Draft = Draft(toEmail: string, subject: string, htmlBody: string, resumePath: string)

  /** What `process_row` does with one row. */
  datatype RowOutcome =
    | Skipped(missing: seq<string>)
    | Attempted(request: Request, draft: Draft, created: bool)  // `created` is false when creation raised

  /**
   * The job description handed to the generator: what `describe` yields for
   * the posting URL when the flag asks for it, empty otherwise.
   */
  function JobDescription(c: RowCells, describe: string -> string): string {
    if WantsJd(c.useJdFlag) then describe(c.jobUrl) else ""
  }

  /** `fetch_job_description(url)`, given what the page at each URL yields. */
  function Describer(page: string -> Scraper.PageFetch): string -> string {
    url => Scraper.FetchJobDescription(page(url), Scraper.DefaultMaxChars)
  }

  /**
   * The body of `process_row` after the cells are read, with the scraper
   * (`describe`) and the e-mail writer (`write`: the hiring manager's name
   * and the model's answer to the body) left as parameters.
   */
  function Outcome(c: RowCells, resumePath: string, describe: string -> string,
                   complete: Request -> EmailGenerator.Completion,
                   write: (string, EmailGenerator.Completion) -> string, create: Draft -> bool): RowOutcome
  {
    var missing := Missing(c);
    if missing != [] then Skipped(missing)
    else
      var request := Request(c.jobTitle, c.jobUrl, c.contactName, c.company,
                             JobDescription(c, describe), BuildJobList.NonEmpty(c.companyUrl));
      var draft := Draft(c.contactEmail, Subject(c.jobTitle, c.company),
                         write(c.contactName, complete(request)), resumePath);
      Attempted(request, draft, create(draft))
  }

  /** `process_row(row, resume_path)` */
  function ProcessRow(row: RawRow, resumePath: string, page: string -> Scraper.PageFetch,
                      complete: Request -> EmailGenerator.Completion, create: Draft -> bool): RowOutcome
  {
    Outcome(ReadCells(row), resumePath, Describer(page), complete, EmailGenerator.DraftFromCompletion, create)
  }

  /** `process_row` as a function of the row alone. */
  function Processor(resumePath: string, page: string -> Scraper.PageFetch,
                     complete: Request -> EmailGenerator.Completion, create: Draft -> bool)
    : RawRow -> RowOutcome
  {
    row => ProcessRow(row, resumePath, page, complete, create)
  }

  /** What `main` leaves behind. */
  datatype BatchResult =
    | CsvNotFound                  // exit status 1
    | ResumeNotFound               // exit status 1
    | NoRows
    | Processed(outcomes: seq<RowOutcome>)

  /** The row loop of `main`: every row, in order, whatever happened to the rows before it. */
  method ProcessRows(rows: seq<RawRow>, process: RawRow -> RowOutcome) returns (outcomes: seq<RowOutcome>)
    ensures |outcomes| == |rows|
    ensures forall i :: 0 <= i < |rows| ==> outcomes[i] == process(rows[i])
  {
    outcomes := [];
    var idx := 0;
    while idx < |rows|
      invariant 0 <= idx <= |rows|
      invariant |outcomes| == idx
      invariant forall i :: 0 <= i < idx ==> outcomes[i] == process(rows[i])
    {
      outcomes := outcomes + [process(rows[idx])];
      idx := idx + 1;
    }
  }

  /**
   * `main`: `csv` is the table read from the CSV path (`None` when the file
   * does not exist), `resumeExists` whether the resume file exists.
   */
  method RunBatch(csv: Option<seq<RawRow>>, resumeExists: bool, resumePath: string,
                  page: string -> Scraper.PageFetch, complete: Request -> EmailGenerator.Completion,
                  create: Draft -> bool)
    returns (result: BatchResult)
    ensures csv.None? <==> result.CsvNotFound?
    ensures csv.Some? && !resumeExists <==> result.ResumeNotFound?
    ensures result.NoRows? <==> csv.Some? && resumeExists && csv.value == []
    ensures result.Processed? ==>
              csv.Some? && resumeExists && |result.outcomes| == |csv.value| > 0
              && forall i :: 0 <= i < |csv.value| ==>
                   result.outcomes[i] == Processor(resumePath, page, complete, create)(csv.value[i])
  {
    if csv.None? {
      return CsvNotFound;
    }
    if !resumeExists {
      return ResumeNotFound;
    }
    var rows := csv.value;
    if rows == [] {
      return NoRows;
    }
    var outcomes := ProcessRows(rows, Processor(resumePath, page, complete, create));
    result := Processed(outcomes);
  }

  // ---------------------------------------------------------------------
  // Properties

  /** The missing list is empty exactly when all five required cells are present. */
  lemma MissingEmptyIff(c: RowCells)
    ensures Missing(c) == [] <==>
              c.jobTitle != "" && c.jobUrl != "" && c.company != "" && c.contactName != "" && c.contactEmail != ""
  {
    var pairs := RequiredPairs(c);
    assert pairs[0].1 == c.jobTitle && pairs[1].1 == c.jobUrl && pairs[2].1 == c.company;
    assert pairs[3].1 == c.contactName && pairs[4].1 == c.contactEmail;
  }

  /**
   * The missing list names exactly the blank required cells: every name in
   * it is a required field whose cell is empty, and every empty required
   * cell is named (in the order of `RequiredFields`, by `Missing`'s contract).
   */
  lemma MissingNamesBlankCells(c: RowCells)
    ensures "job_title" in Missing(c) <==> c.jobTitle == ""
    ensures "job_url" in Missing(c) <==> c.jobUrl == ""
    ensures "company" in Missing(c) <==> c.company == ""
    ensures "contact_name" in Missing(c) <==> c.contactName == ""
    ensures "contact_email" in Missing(c) <==> c.contactEmail == ""
  {
    var pairs := RequiredPairs(c);
    assert pairs[0] == ("job_title", c.jobTitle) && pairs[1] == ("job_url", c.jobUrl);
    assert pairs[2] == ("company", c.company) && pairs[3] == ("contact_name", c.contactName);
    assert pairs[4] == ("contact_email", c.contactEmail);
  }

  /** Only required fields are ever reported missing. */
  lemma MissingOnlyRequired(c: RowCells)
    ensures forall f :: f in Missing(c) ==> f in RequiredFields
  {
    var pairs := RequiredPairs(c);
    forall f | f in Missing(c) ensures f in RequiredFields {
      var i :| 0 <= i < |pairs| && pairs[i].0 == f && pairs[i].1 == "";
      assert Names(pairs)[i] == f;
    }
  }

  /** Whatever the collaborators, a row is skipped exactly when its missing list is non-empty. */
  lemma OutcomeSkippedIff(c: RowCells, resumePath: string, describe: string -> string,
                          complete: Request -> EmailGenerator.Completion,
                          write: (string, EmailGenerator.Completion) -> string, create: Draft -> bool)
    ensures var r := Outcome(c, resumePath, describe, complete, write, create);
            (r.Skipped? <==> Missing(c) != []) && (r.Skipped? ==> r.missing == Missing(c))
  {
  }

  /**
   * A row is skipped exactly when one of the five required cells is blank
   * after stripping, and the skip reports the missing list.
   */
  lemma SkippedIffRequiredBlank(row: RawRow, resumePath: string, page: string -> Scraper.PageFetch,
                                complete: Request -> EmailGenerator.Completion, create: Draft -> bool)
    ensures var r := ProcessRow(row, resumePath, page, complete, create);
            var c := ReadCells(row);
            && (r.Skipped? <==> c.jobTitle == "" || c.jobUrl == "" || c.company == ""
                                || c.contactName == "" || c.contactEmail == "")
            && (r.Skipped? ==> r.missing == Missing(c))
  {
    OutcomeSkippedIff(ReadCells(row), resumePath, Describer(page), complete, EmailGenerator.DraftFromCompletion, create);
    MissingEmptyIff(ReadCells(row));
  }

  /**
   * An attempted row has all five cells present; the draft goes to the
   * contact's address under the "title – company" subject, its body is the
   * generator's answer for the contact's name, and `created` is the fate of
   * the draft call.
   */
  lemma AttemptedRowShape(row: RawRow, resumePath: string, page: string -> Scraper.PageFetch,
                          complete: Request -> EmailGenerator.Completion, create: Draft -> bool)
    requires ProcessRow(row, resumePath, page, complete, create).Attempted?
    ensures var r := ProcessRow(row, resumePath, page, complete, create);
            var c := ReadCells(row);
            && c.jobTitle != "" && c.jobUrl != "" && c.company != "" && c.contactName != "" && c.contactEmail != ""
            && r.draft.toEmail == c.contactEmail
            && r.request.hiringManagerName == c.contactName
            && r.request.jobTitle == c.jobTitle && r.request.companyName == c.company
            && r.draft.subject == Subject(c.jobTitle, c.company)
            && r.draft.htmlBody == EmailGenerator.DraftFromCompletion(c.contactName, complete(r.request))
            && r.draft.resumePath == resumePath
            && r.created == create(r.draft)
  {
    OutcomeSkippedIff(ReadCells(row), resumePath, Describer(page), complete, EmailGenerator.DraftFromCompletion, create);
    MissingEmptyIff(ReadCells(row));
  }

  /**
   * The posting page is consulted only when the flag asks for it: with any
   * other flag the outcome is the same whatever the page would yield, and
   * the description is empty.
   */
  lemma PageOnlyWhenWanted(row: RawRow, resumePath: string, page1: string -> Scraper.PageFetch,
                           page2: string -> Scraper.PageFetch,
                           complete: Request -> EmailGenerator.Completion, create: Draft -> bool)
    requires !WantsJd(ReadCells(row).useJdFlag)
    ensures ProcessRow(row, resumePath, page1, complete, create) == ProcessRow(row, resumePath, page2, complete, create)
    ensures JobDescription(ReadCells(row), Describer(page1)) == ""
  {
    var c := ReadCells(row);
    assert JobDescription(c, Describer(page1)) == JobDescription(c, Describer(page2));
  }

  /** A wanted description is never longer than the cut plus its marker. */
  lemma DescriptionBounded(c: RowCells, page: string -> Scraper.PageFetch)
    ensures |JobDescription(c, Describer(page))| <= Scraper.DefaultMaxChars + |Scraper.TruncationMarker|
  {
    if WantsJd(c.useJdFlag) {
      var d := Scraper.FetchJobDescription(page(c.jobUrl), Scraper.DefaultMaxChars);
      assert Describer(page)(c.jobUrl) == d;
    }
  }

  /** A failed page request leaves the description empty and the row is still attempted. */
  lemma FailedFetchGivesEmptyDescription(c: RowCells, page: string -> Scraper.PageFetch)
    requires page(c.jobUrl).RequestFailed?
    ensures JobDescription(c, Describer(page)) == ""
  {
    if WantsJd(c.useJdFlag) {
      assert Describer(page)(c.jobUrl) == Scraper.FetchJobDescription(page(c.jobUrl), Scraper.DefaultMaxChars);
    }
  }

  /**
   * The generator's answer is used unchecked: when the model call raises,
   * the error sentinel becomes the body of a draft that is still created.
   */
  lemma ErrorSentinelBecomesBody(row: RawRow, resumePath: string, page: string -> Scraper.PageFetch,
                                 complete: Request -> EmailGenerator.Completion, create: Draft -> bool)
    requires Missing(ReadCells(row)) == []
    requires forall q :: complete(q) == EmailGenerator.Raised
    ensures var r := ProcessRow(row, resumePath, page, complete, create);
            r.Attempted? && r.draft.htmlBody == EmailGenerator.ErrorSentinel && r.created == create(r.draft)
  {
  }

  /** A blank answer from the model likewise becomes the warning sentinel as the body. */
  lemma EmptySentinelBecomesBody(row: RawRow, resumePath: string, page: string -> Scraper.PageFetch,
                                 complete: Request -> EmailGenerator.Completion, create: Draft -> bool)
    requires Missing(ReadCells(row)) == []
    requires forall q :: complete(q).Returned? && (complete(q).content.None? || IsBlank(complete(q).content.value))
    ensures var r := ProcessRow(row, resumePath, page, complete, create);
            r.Attempted? && r.draft.htmlBody == EmailGenerator.EmptySentinel
  {
  }

  /**
   * A draft call that raises is caught inside the row: whether creation
   * succeeds changes nothing about the row but its own `created` flag.
   */
  lemma CreationAffectsOnlyItsFlag(c: RowCells, resumePath: string, describe: string -> string,
                                   complete: Request -> EmailGenerator.Completion,
                                   write: (string, EmailGenerator.Completion) -> string,
                                   create1: Draft -> bool, create2: Draft -> bool)
    ensures var r1 := Outcome(c, resumePath, describe, complete, write, create1);
            var r2 := Outcome(c, resumePath, describe, complete, write, create2);
            r1.Skipped? == r2.Skipped?
            && (r1.Skipped? ==> r1 == r2)
            && (r1.Attempted? ==> r1.request == r2.request && r1.draft == r2.draft)
  {
  }

  // ---------------------------------------------------------------------
  // Rows written by the job-list builder

  /** The decimal digits of `n`, as `str(n)` writes them. */
  function DecimalString(n: nat): (r: string)
    ensures r != [] && forall i :: 0 <= i < |r| ==> '0' <= r[i] <= '9'
  {
    if n < 10 then [(('0' as int) + n) as char]
    else DecimalString(n / 10) + [(('0' as int) + n % 10) as char]
  }

  /** The row a CSV dictionary reader gives back for a row the job-list builder wrote. */
  function CsvRow(r: BuildJobList.JobRow): (raw: RawRow)
    ensures forall k :: k in raw <==> k in BuildJobList.FieldNames
  {
    map["job_id" := DecimalString(r.jobId),
        "job_title" := r.jobTitle,
        "job_url" := r.jobUrl,
        "company" := r.company,
        "company_url" := r.companyUrl,
        "contact_name" := r.contactName,
        "contact_email" := r.contactEmail,
        "contact_title" := r.contactTitle,
        "use_jd" := r.useJd]
  }

  /** The cells of a written row read back as they were written, stripped. */
  lemma CsvRowCells(r: BuildJobList.JobRow)
    ensures var c := ReadCells(CsvRow(r));
            && c.jobTitle == Strip(r.jobTitle) && c.jobUrl == Strip(r.jobUrl) && c.company == Strip(r.company)
            && c.contactName == Strip(r.contactName) && c.contactEmail == Strip(r.contactEmail)
            && c.useJdFlag == Lower(Strip(r.useJd))
  {
    var raw := CsvRow(r);
    assert raw["job_title"] == r.jobTitle && raw["job_url"] == r.jobUrl && raw["company"] == r.company;
    assert raw["contact_name"] == r.contactName && raw["contact_email"] == r.contactEmail;
    assert raw["use_jd"] == r.useJd;
  }

  /**
   * A row written for a job the builder accepted (title, posting URL and
   * company present) is skipped exactly when its contact has a blank name
   * or a blank address.
   */
  lemma BuiltRowSkippedIffContactBlank(r: BuildJobList.JobRow, resumePath: string,
                                        page: string -> Scraper.PageFetch,
                                        complete: Request -> EmailGenerator.Completion, create: Draft -> bool)
    requires !IsBlank(r.jobTitle) && !IsBlank(r.jobUrl) && !IsBlank(r.company)
    ensures ProcessRow(CsvRow(r), resumePath, page, complete, create).Skipped?
            <==> IsBlank(r.contactName) || IsBlank(r.contactEmail)
  {
    CsvRowCells(r);
    StripEmptyIffBlank(r.jobTitle);
    StripEmptyIffBlank(r.jobUrl);
    StripEmptyIffBlank(r.company);
    StripEmptyIffBlank(r.contactName);
    StripEmptyIffBlank(r.contactEmail);
    SkippedIffRequiredBlank(CsvRow(r), resumePath, page, complete, create);
  }

  /**
   * A Hunter entry with neither a first nor a last name yields a contact
   * with an empty name, so the batch row written for it is skipped.
   */
  lemma NamelessEntryGivesBlankName(e: ContactEnricher.HunterEmail)
    requires e.firstName.None? && e.lastName.None?
    ensures forall c :: c in ContactEnricher.Candidate(e) ==> c.name == "" && IsBlank(c.name)
  {
    assert Join([], " ") == "";
  }

  /** The flag the job-list builder writes is read back as its scrape decision. */
  lemma GuessedFlagReadBack(jobUrl: string)
    ensures WantsJd(Lower(Strip(JobProfileRules.GuessUseJd(jobUrl))))
            <==> !Contains(Lower(jobUrl), "linkedin.com")
  {
    var g := JobProfileRules.GuessUseJd(jobUrl);
    if g == "no" {
      StripTrimmed("no");
      assert Lower("no") == "no";
    } else {
      StripTrimmed("yes");
      assert Lower("yes") == "yes";
    }
  }
}
