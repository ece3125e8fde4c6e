# job-outreach-bot, modelled in Dafny

job-outreach-bot is a single-operator batch tool. It turns a table of raw job postings into a batch of
personalised outreach e-mail drafts, and it fills a spreadsheet of companies with their Greenhouse
job-board tokens. This project models the decision procedures underneath the API glue and proves their
rules: filters, precedence between rules, fallbacks, stable ordering, truncation and row bookkeeping.

| module | file | models |
|---|---|---|
| `Wrappers` | wrappers.dfy | `Option` |
| `Strings` | strings.dfy | the Python `str` operations the scripts use: `strip`/`lstrip`/`rstrip`, `lower`, `in`, `startswith`/`endswith`, `split`, `splitlines`, `join`, `replace`, prefix slices |
| `UrlParse` | url_parse.dfy | `urllib.parse.urlparse`: scheme, netloc, path, params, query, fragment, and the `ValueError` on an unbalanced `[`/`]` in the netloc |
| `JobProfileRules` | job_profile_rules.dfy | title normalisation, the relevance filter and the scrape decision (`src/job_profile_rules.py`) |
| `ContactEnricher` | contact_enricher.dfy | domain extraction, keyword scoring, the fallback contact and the Hunter-based contact selection (`src/contact_enricher.py`) |
| `BuildJobList` | build_job_list.dfy | the raw-jobs-to-batch loop of `build_job_list.py` |
| `EmailGenerator` | email_generator.dfy | `_clean_body_text`, `_format_email_html` and the handling of the completion in `draft_email` (`src/email_generator.py`) |
| `Scraper` | scraper.dfy | `_clean_text` and the tail of `fetch_job_description` (`src/scraper.py`) |
| `BatchApply` | batch_apply.dfy | `process_row` and the row loop of `main` (`batch_apply.py`) |
| `GreenhouseTokens` | greenhouse_tokens.dfy | candidate board URLs, token extraction, the company lookup and the sheet-row update of `main` (`src/get_greenhouse_tokens.py`) |

The model takes the outside world as parameters:
- the Hunter domain search is a function from domain to reply (`ContactEnricher.HunterReply`);
- the Greenhouse HEAD request is a function from URL to status or exception (`GreenhouseTokens.HeadReply`);
- the job-page GET with its HTML extraction is a function from URL to `Scraper.PageFetch`;
- the chat completion is a function from request to `EmailGenerator.Completion`;
- Gmail draft creation is a function from draft to success flag.

Loops in the source are methods with loop invariants. Each is proved equal to a specification
function, and the properties are proved about those functions. The sheet rows that the Greenhouse
script mutates in place are sequences that the row loop rebuilds.

`build_job_list.py` imports `is_relevant_title` (line 13), but `src/job_profile_rules.py` defines
`is_title_relevant` (line 48), so the script as written stops at import. The model uses
`is_title_relevant` (`JobProfileRules.IsTitleRelevant`).

## Model

| member | source | states |
|---|---|---|
| Strings.Strip | src/job_profile_rules.py:45 | `strip()` yields a contiguous piece of the input with no whitespace at either end |
| Strings.StripIdempotent | src/job_profile_rules.py:45 | stripping twice is stripping once |
| Strings.StripEmptyIffBlank | batch_apply.py:37 | a stripped cell is empty exactly when the cell is all whitespace |
| Strings.StripLower | src/job_profile_rules.py:45 | stripping and lower-casing commute |
| Strings.LowerIdempotent | src/job_profile_rules.py:45 | lower-casing twice is lower-casing once |
| Strings.LowerNoUpper | src/job_profile_rules.py:45 | a lower-cased string has no upper-case letter |
| Strings.ContainsIff | src/job_profile_rules.py:56 | the `in` test holds exactly when the keyword occurs at some position |
| Strings.NotContainsUpper | src/job_profile_rules.py:59 | a keyword with an upper-case letter never occurs in a lower-cased string |
| Strings.Split | src/get_greenhouse_tokens.py:58 | `split(sep)` gives at least one piece and no piece holds the separator |
| Strings.JoinSplit | src/email_generator.py:133 | joining the pieces of a split with the separator gives back the string |
| Strings.SplitJoin | src/email_generator.py:118 | splitting a join of separator-free pieces gives back the pieces |
| Strings.SplitLines | src/email_generator.py:34 | `splitlines()` is empty only for the empty string, and no line holds a line boundary |
| Strings.SplitLinesJoin | src/email_generator.py:34 | `splitlines()` of boundary-free lines joined by newlines gives back the lines |
| Strings.PyPrefix | src/contact_enricher.py:169 | `s[:n]` is a prefix of length `min(n, len(s))`, counted from the end for a negative `n` |
| Strings.Replace | src/get_greenhouse_tokens.py:32-33 | after replacing a character by a text without it, the character is gone |
| UrlParse.Parse | src/contact_enricher.py:43 | a parse, when there is one, has no `/`, `?` or `#` in its netloc and no `?` or `#` in its path |
| UrlParse.SchemelessIsPath | src/contact_enricher.py:43-44 | a plain string without `:`, `//`, `?`, `#` or `;` parses to an empty netloc and the whole string as path |
| UrlParse.HttpsHostAndPath | src/get_greenhouse_tokens.py:49 | `https://` + host + path parses into exactly that scheme, host and path |
| UrlParse.ParsedPathClean | src/get_greenhouse_tokens.py:49-54 | a parsed path holds no tab, carriage return or newline |
| JobProfileRules.NormalizeTitle | src/job_profile_rules.py:44-45 | the normalised title has no upper-case letter and no surrounding whitespace |
| JobProfileRules.NormalizeIdempotent | src/job_profile_rules.py:44-45 | normalising is idempotent |
| JobProfileRules.IsTitleRelevant | src/job_profile_rules.py:48-66 | `is_title_relevant`: a negative keyword rejects, then a positive keyword or `data scientist` accepts; RelevantIff, RelevanceIgnoresCaseAndSpace, RejectedByNegative and AcceptedByPositive state its meaning |
| JobProfileRules.RelevanceIgnoresCaseAndSpace | src/job_profile_rules.py:48-54 | a title and its normalised form get the same verdict |
| JobProfileRules.RelevantIff | src/job_profile_rules.py:48-66 | relevant exactly when no negative keyword and some positive keyword occurs; the `data scientist` catch-all adds nothing |
| JobProfileRules.DataAnalystNeverMatches | src/job_profile_rules.py:25-60 | the mixed-case keyword `Data Analyst` never occurs in a normalised title, so the positive list acts as its first 17 entries |
| JobProfileRules.RejectedByNegative | src/job_profile_rules.py:56-57 | a negative keyword anywhere in the normalised title rejects it, whatever positive keywords it also has |
| JobProfileRules.AcceptedByPositive | src/job_profile_rules.py:59-60 | with no negative keyword, a positive keyword anywhere in the normalised title accepts it |
| JobProfileRules.JuniorDataScientistRejected | src/job_profile_rules.py:56-57 | "Junior Data Scientist" is rejected |
| JobProfileRules.StaffDataScientistAccepted | src/job_profile_rules.py:59-60 | "Staff Data Scientist" is accepted |
| JobProfileRules.SeniorDataAnalystRejected | src/job_profile_rules.py:54-66 | "Senior Data Analyst" is rejected |
| JobProfileRules.GuessUseJd | src/job_profile_rules.py:69-77 | the answer is "no" exactly when the lower-cased URL mentions `linkedin.com`, and "yes" otherwise |
| ContactEnricher.DropWww | src/contact_enricher.py:46-47 | one leading `www.` is removed and nothing else changes |
| ContactEnricher.ExtractDomain | src/contact_enricher.py:35-50 | an extracted domain is never empty |
| ContactEnricher.ExplicitDomainWins | src/contact_enricher.py:36-37 | a non-blank explicit domain is returned stripped, with letter case and `www.` kept |
| ContactEnricher.UrlDomainIsLower | src/contact_enricher.py:39-48 | a domain taken from the URL is lower-case |
| ContactEnricher.HttpsUrlDomain | src/contact_enricher.py:42-48 | for `https://host/...` the domain is the lower-cased host without `www.`, or none if that is empty |
| ContactEnricher.BareUrlDomain | src/contact_enricher.py:42-48 | a URL without scheme or `//` is all path, so the whole lower-cased string is the domain |
| ContactEnricher.KeywordCount | src/contact_enricher.py:57-61 | the count is at most the number of keywords, and zero exactly when no keyword occurs |
| ContactEnricher.Score | src/contact_enricher.py:53-61 | a score lies between 0 and 15 |
| ContactEnricher.ScoreContact | src/contact_enricher.py:53-61 | the counting loop computes the keyword score |
| ContactEnricher.SalesRepScoresZero | src/contact_enricher.py:53-61 | "Sales Rep" scores 0 |
| ContactEnricher.DataScientistScores | src/contact_enricher.py:53-61 | "Data Scientist" scores exactly 2: "data" and "scientist" match and no other keyword does |
| ContactEnricher.Fallback | src/contact_enricher.py:64-81 | no contact for a missing or empty domain; otherwise exactly one, named and positioned "Hiring Manager", at `jobs@` + domain, with score 1 |
| ContactEnricher.FullName | src/contact_enricher.py:148 | the non-empty first and last names joined by a space, then stripped; NamelessEntryGivesBlankName gives the nameless case |
| ContactEnricher.Candidate | src/contact_enricher.py:143-161 | a kept provider entry has an e-mail and a score between 1 and 15 |
| ContactEnricher.Scored | src/contact_enricher.py:142-161 | the `scored` list, in provider order; ScoreEmails computes it, and ScoredContacts, ScoredFromEntries and EntriesAreScored characterise it |
| ContactEnricher.ScoreEmails | src/contact_enricher.py:142-161 | the loop over the provider's entries builds exactly the scored list |
| ContactEnricher.ScoredContacts | src/contact_enricher.py:142-161 | every scored contact has an e-mail and a score between 1 and 15 |
| ContactEnricher.ScoredFromEntries | src/contact_enricher.py:142-161 | every scored contact comes from some provider entry |
| ContactEnricher.EntriesAreScored | src/contact_enricher.py:142-161 | every entry with an e-mail and a positive score appears in the scored list |
| ContactEnricher.OnlyRelevantPositionsKept | src/contact_enricher.py:143-161 | of a sales rep and a data scientist, only the data scientist is kept |
| ContactEnricher.InsertByScore | src/contact_enricher.py:168 | the insertion step of the stable descending sort; InsertByScorePerm, InsertByScoreSorted and InsertByScoreStable state its properties |
| ContactEnricher.SortByScore | src/contact_enricher.py:168 | `sort(key=score, reverse=True)` as an insertion sort; SortByScorePerm, SortByScoreSorted and SortByScoreStable state its properties |
| ContactEnricher.InsertByScorePerm | src/contact_enricher.py:168 | inserting adds exactly that contact |
| ContactEnricher.InsertByScoreSorted | src/contact_enricher.py:168 | inserting into a list sorted by descending score keeps it sorted |
| ContactEnricher.InsertByScoreStable | src/contact_enricher.py:168 | inserting keeps the order among contacts of equal score |
| ContactEnricher.SortByScorePerm | src/contact_enricher.py:168 | the sort is a permutation |
| ContactEnricher.SortByScoreSorted | src/contact_enricher.py:168 | the sorted list is non-increasing in score |
| ContactEnricher.SortByScoreStable | src/contact_enricher.py:168 | the sort keeps provider order among contacts of equal score |
| ContactEnricher.PrefixKeepsBest | src/contact_enricher.py:168-169 | the kept prefix is sorted and no dropped contact outscores a kept one |
| ContactEnricher.FromReply | src/contact_enricher.py:107-172 | what one provider reply becomes: the fallback for a transport error, a non-200 status, an unparseable body, no entries or no scored entry, otherwise the sorted scored list cut to `max_contacts`; FailureGivesFallback and ProviderContacts state it |
| ContactEnricher.FindContacts | src/contact_enricher.py:84-172 | `find_contacts_for_company`: the fallback without a key, nothing without a domain, otherwise the reply for the domain; FindContactsForCompany computes it, and NoKeyGivesFallback, NoDomainNoContacts, HunterConsultedOnlyForDomain and EveryContactHasEmail state its outcomes |
| ContactEnricher.FindContactsForCompany | src/contact_enricher.py:84-172 | the procedure returns what the decision function prescribes |
| ContactEnricher.NoKeyGivesFallback | src/contact_enricher.py:99-101 | without an API key the result is the fallback for the extracted domain |
| ContactEnricher.NoDomainNoContacts | src/contact_enricher.py:103-105 | with a key but no domain the result is empty |
| ContactEnricher.HunterConsultedOnlyForDomain | src/contact_enricher.py:97-114 | the provider is only consulted, for the extracted domain, when there is a key and a domain |
| ContactEnricher.FailureGivesFallback | src/contact_enricher.py:113-165 | a transport error, a non-200 status, an unparseable body or no relevant entry gives the fallback contact |
| ContactEnricher.ProviderContacts | src/contact_enricher.py:137-172 | otherwise the result is the stably sorted scored list cut to `max_contacts`, sorted, valid and keeping the best |
| ContactEnricher.EveryContactHasEmail | src/contact_enricher.py:84-172 | every returned contact has an e-mail and a positive score |
| BuildJobList.Field | build_job_list.py:57-61 | a read cell has no surrounding whitespace |
| BuildJobList.NonEmpty | build_job_list.py:78-79 | `s or None`: none exactly for the empty string |
| BuildJobList.ReadJob | build_job_list.py:57-73 | the five stripped cells of a raw row and `guess_use_jd` of its URL; Field and JobProfileRules.GuessUseJd state the cells' properties |
| BuildJobList.Accepted | build_job_list.py:63-69 | a job gets an id exactly when its title, URL and company are non-empty and its title is relevant; ScriptRows and RowsTraceBack use it |
| BuildJobList.Lookup | build_job_list.py:76-81 | `find_contacts_for_company` with `company_url or None`, `company_domain or None` and a limit of 5; AtMostMaxContacts bounds it |
| BuildJobList.RowFor | build_job_list.py:88-100 | the row for one contact: the job's cells, the contact's name, e-mail and position, and `use_jd`; RowsFor and RowsTraceBack use it |
| BuildJobList.RowsFor | build_job_list.py:87-101 | one output row per contact |
| BuildJobList.WriteRows | build_job_list.py:87-101 | the inner loop appends one row per contact, in contact order |
| BuildJobList.HandleJob | build_job_list.py:57-101 | one loop pass: skip, or take the next id and append the job's rows |
| BuildJobList.BuildRows | build_job_list.py:56-101 | the loop over the raw rows writes the rows of the specification |
| BuildJobList.Build | build_job_list.py:56-101 | the rows written and the last id after a list of jobs; BuildRows computes it, and BuildIds, BuildIdsOrdered, JobIdIsRank, RowsWrittenCount, RowsPerJob and RowsTraceBack characterise it |
| BuildJobList.BuildJobListSpec | build_job_list.py:18-101 | a missing file, no rows, or the header and the built rows; BuildJobListRun computes it and ScriptRows states what its rows hold |
| BuildJobList.BuildJobListRun | build_job_list.py:18-103 | a missing file stops the script, an empty one writes nothing, otherwise the header and the built rows are written |
| BuildJobList.BuildIds | build_job_list.py:71-72 | the last id is the number of accepted jobs, and every row's id is between 1 and it |
| BuildJobList.BuildIdsOrdered | build_job_list.py:71-101 | rows come out in job-id order |
| BuildJobList.JobIdIsRank | build_job_list.py:71-99 | the k-th accepted job, in input order, gets id k, and the rows with id k are exactly its rows, one per contact in contact order |
| BuildJobList.RowsWrittenCount | build_job_list.py:87-101 | the number of rows written is the total number of contacts of the accepted jobs |
| BuildJobList.AtMostMaxContacts | build_job_list.py:76-81 | a lookup yields at most 5 contacts |
| BuildJobList.RowsPerJob | build_job_list.py:76-101 | no job id is written on more than 5 rows |
| BuildJobList.RowsTraceBack | build_job_list.py:56-101 | every row is an accepted job's row for one of its contacts |
| BuildJobList.ScriptRows | build_job_list.py:56-101 | in the script's output every row has a contact e-mail and a relevant title, at most 5 rows per job |
| BuildJobList.SkippedJobLeavesGap | build_job_list.py:71-85 | a job without contacts still uses up an id, so the next job's rows carry id 2 |
| EmailGenerator.Lines | src/email_generator.py:34 | the right-stripped lines of the stripped text; LinesNoBreak states that no line holds a line boundary |
| EmailGenerator.IsGreeting | src/email_generator.py:40-47 | the greeting test: `hi `, `hello ` or `dear ` first and `,` or `:` last, on the stripped, lower-cased line; SkipGreetings and GreetingDropped use it |
| EmailGenerator.SkipLeading | src/email_generator.py:38-56 | the index where greeting removal stops, at which no greeting remains; SkipOnlyGreetings states what it skips and SkipGreetingLines computes it |
| EmailGenerator.LinesNoBreak | src/email_generator.py:34 | the split lines hold no line boundary |
| EmailGenerator.SkipGreetings | src/email_generator.py:38-53 | greeting removal stops at the first line that is not a greeting |
| EmailGenerator.SkipOnlyGreetings | src/email_generator.py:38-53 | it skips only greetings, each with one following blank line |
| EmailGenerator.SkipGreetingLines | src/email_generator.py:38-56 | the `while` loop finds that start index |
| EmailGenerator.IsNoise | src/email_generator.py:84-99 | the tests that drop a non-blank line: bracketed, naming the sender, a sign-off, or mentioning LinkedIn or GitHub; FilteredClean states them of the kept lines |
| EmailGenerator.FilterLine | src/email_generator.py:75-101 | one pass of the filter loop; FilterLineShape states that the line is dropped or kept stripped |
| EmailGenerator.FilterLineShape | src/email_generator.py:75-101 | each line is dropped or kept stripped |
| EmailGenerator.FilteredClean | src/email_generator.py:75-101 | every kept line is blank or free of names, links, sign-offs and bracketed footers |
| EmailGenerator.FilteredSubseq | src/email_generator.py:75-101 | the filtered lines are a subsequence of the stripped lines |
| EmailGenerator.FilterLines | src/email_generator.py:75-101 | the filter loop builds exactly the filtered list |
| EmailGenerator.Collapse | src/email_generator.py:104-109 | the collapsed list does not start with a blank line and never has two blank lines in a row |
| EmailGenerator.DropTrailingBlanks | src/email_generator.py:112-113 | the trimmed list does not end with a blank line |
| EmailGenerator.CollapseSubseq | src/email_generator.py:104-109 | collapsing only drops lines |
| EmailGenerator.KeepCollapse | src/email_generator.py:104-118 | collapsing keeps every non-blank line |
| EmailGenerator.KeepDrop | src/email_generator.py:112-118 | dropping trailing blanks keeps every non-blank line |
| EmailGenerator.CollapseBlankLines | src/email_generator.py:104-113 | the collapse loop and the pop loop compute the collapsed, trimmed list |
| EmailGenerator.CleanBody | src/email_generator.py:28-118 | `_clean_body_text`; CleanBodyText computes it, and BodyLinesClean, BodyLinesSubseq, CleanBodyShape, GreetingDropped, NoiseBeforeGreeting and CleanNotIdempotent characterise it |
| EmailGenerator.CleanBodyText | src/email_generator.py:28-118 | the method computes the cleaned body |
| EmailGenerator.BodyLinesClean | src/email_generator.py:75-118 | no body line is blank, a sign-off, a bracketed footer, or mentions the name, LinkedIn or GitHub |
| EmailGenerator.BodyLinesSubseq | src/email_generator.py:34-118 | body lines are stripped input lines in input order |
| EmailGenerator.CleanBodyShape | src/email_generator.py:112-118 | the body is empty exactly when no line survives; otherwise it is trimmed and splits back into the surviving lines |
| EmailGenerator.GreetingDropped | src/email_generator.py:38-56 | a leading greeting line is removed |
| EmailGenerator.NoiseBeforeGreeting | src/email_generator.py:38-101 | a greeting behind a dropped line survives |
| EmailGenerator.CleanNotIdempotent | src/email_generator.py:38-101 | cleaning twice can differ from cleaning once |
| EmailGenerator.Paragraphs | src/email_generator.py:133 | every paragraph is non-empty and trimmed |
| EmailGenerator.FormatEmailHtml | src/email_generator.py:121-139 | the HTML starts with the fixed greeting and ends with the fixed closing |
| EmailGenerator.FormatJoined | src/email_generator.py:133-139 | formatting newline-joined lines puts `<br><br>` between them |
| EmailGenerator.FormatCleanBody | src/email_generator.py:133-139 | a cleaned body becomes its lines joined by `<br><br>` between greeting and closing |
| EmailGenerator.FormatBlankBody | src/email_generator.py:133-139 | a blank body puts the greeting right against the closing |
| EmailGenerator.DraftFromCompletion | src/email_generator.py:253-263 | a failed call gives the error sentinel, empty content the warning sentinel, anything else starts with the greeting |
| EmailGenerator.DraftOfReply | src/email_generator.py:257-263 | non-blank content becomes the formatted cleaned body |
| EmailGenerator.SentinelIffBracket | src/email_generator.py:253-263 | the result starts with `[` exactly when it is one of the two sentinels |
| Scraper.DropCr | src/scraper.py:21 | every carriage return is removed and nothing else |
| Scraper.DropCrUnchanged | src/scraper.py:21 | text without carriage returns is unchanged |
| Scraper.CollapseBlankRuns | src/scraper.py:22 | the substitution of `\n\s*\n\s*\n+`, rebuilt one whitespace run at a time; it adds no carriage return, and CollapsedFew, RunCollapses, CollapseUnchanged and CollapseIdempotent characterise it |
| Scraper.CollapsedFew | src/scraper.py:22 | after collapsing, no whitespace run holds three newlines |
| Scraper.RunCollapses | src/scraper.py:22 | a whitespace run with three or more newlines becomes exactly two newlines |
| Scraper.CollapseUnchanged | src/scraper.py:22 | text without such a run is unchanged |
| Scraper.CollapseIdempotent | src/scraper.py:22 | collapsing twice is collapsing once |
| Scraper.SqueezeBlanks | src/scraper.py:23 | no tab and no two adjacent spaces remain |
| Scraper.SqueezeUnchanged | src/scraper.py:23 | text already free of tabs and double spaces is unchanged |
| Scraper.CleanText | src/scraper.py:19-24 | `_clean_text`, the four steps in order; CleanTextChars, CleanTextRuns and CleanTextIdempotent characterise it |
| Scraper.CleanTextChars | src/scraper.py:19-24 | cleaned text has no carriage return, no tab and no two adjacent spaces |
| Scraper.CleanTextRuns | src/scraper.py:19-24 | cleaned text is trimmed and has no run of three newlines |
| Scraper.CleanTextIdempotent | src/scraper.py:19-24 | cleaning twice is cleaning once |
| Scraper.Truncate | src/scraper.py:84-85 | short text is unchanged; long text is its first `max_chars` characters plus the marker |
| Scraper.RawText | src/scraper.py:78-81 | the extracted block, or the whole page text when no non-empty block is found; ShortDescriptionIsClean uses it |
| Scraper.FetchJobDescription | src/scraper.py:70-86 | a failed request gives `""`, and the result is at most `max_chars` + 13 long |
| Scraper.ShortDescriptionIsClean | src/scraper.py:78-86 | a page whose cleaned text fits is returned cleaned, untruncated |
| BatchApply.ReadCells | batch_apply.py:18-26 | every cell stripped, and the flag also lower-cased; SkippedIffRequiredBlank and CsvRowCells use it |
| BatchApply.WantsJd | batch_apply.py:48 | the flag values `yes`, `y`, `true` and `1`; PageOnlyWhenWanted and GuessedFlagReadBack use it |
| BatchApply.JobDescription | batch_apply.py:46-55 | the scraped description when the flag asks for it, otherwise `""`; PageOnlyWhenWanted, DescriptionBounded and FailedFetchGivesEmptyDescription state it |
| BatchApply.Outcome | batch_apply.py:28-82 | a skip with the missing list, or the request, the draft and whether creating it succeeded; OutcomeSkippedIff and CreationAffectsOnlyItsFlag state it |
| BatchApply.ProcessRow | batch_apply.py:17-82 | `process_row` with the real cell reading, scraper and e-mail writer; SkippedIffRequiredBlank, AttemptedRowShape, ErrorSentinelBecomesBody, EmptySentinelBecomesBody and BuiltRowSkippedIffContactBlank state it |
| BatchApply.MissingNames | batch_apply.py:28-38 | the missing list names exactly the blank fields, in their order |
| BatchApply.RequiredPairs | batch_apply.py:30-36 | the five required fields in their fixed order |
| BatchApply.Missing | batch_apply.py:28-38 | the missing fields are a subsequence of the required list |
| BatchApply.MissingEmptyIff | batch_apply.py:28-40 | nothing is missing exactly when all five required cells are non-empty |
| BatchApply.MissingNamesBlankCells | batch_apply.py:28-38 | each required field is listed exactly when its cell is empty |
| BatchApply.MissingOnlyRequired | batch_apply.py:28-38 | only required fields are ever listed |
| BatchApply.OutcomeSkippedIff | batch_apply.py:40-42 | a row is skipped exactly when something is missing, and it reports that list |
| BatchApply.SkippedIffRequiredBlank | batch_apply.py:17-42 | a row is skipped exactly when a required cell is blank after stripping |
| BatchApply.AttemptedRowShape | batch_apply.py:44-79 | a processed row drafts to the contact, with the subject, the generated body and the résumé |
| BatchApply.Subject | batch_apply.py:71 | the subject is the title, " – " and the company |
| BatchApply.PageOnlyWhenWanted | batch_apply.py:47-55 | without a yes-flag the page is never fetched and the description is empty |
| BatchApply.DescriptionBounded | batch_apply.py:47-55 | the description is at most 8000 + 13 characters long |
| BatchApply.FailedFetchGivesEmptyDescription | batch_apply.py:47-55 | a failed fetch gives an empty description |
| BatchApply.ErrorSentinelBecomesBody | batch_apply.py:57-79 | a failed generation still creates a draft whose body is the error sentinel |
| BatchApply.EmptySentinelBecomesBody | batch_apply.py:57-79 | empty generated content still creates a draft whose body is the warning sentinel |
| BatchApply.CreationAffectsOnlyItsFlag | batch_apply.py:73-82 | a failing draft creation changes nothing but that row's success flag |
| BatchApply.ProcessRows | batch_apply.py:120-122 | every row is processed, in order |
| BatchApply.RunBatch | batch_apply.py:85-122 | a missing CSV or résumé stops the run, an empty CSV does nothing, otherwise every row is processed |
| BatchApply.DecimalString | build_job_list.py:90 | `str(job_id)` as the CSV writer writes it: a non-empty string of digits |
| BatchApply.CsvRow | build_job_list.py:88-100 | the dictionary read back from a written row has exactly the nine field names; CsvRowCells, BuiltRowSkippedIffContactBlank and GuessedFlagReadBack use it |
| BatchApply.CsvRowCells | batch_apply.py:18-26 | reading back a built row gives its stripped cells and its stripped, lower-cased flag |
| BatchApply.BuiltRowSkippedIffContactBlank | batch_apply.py:23-42 | a built row is skipped exactly when its contact name or e-mail is blank |
| BatchApply.NamelessEntryGivesBlankName | src/contact_enricher.py:148-156 | a provider entry without first and last name yields a contact with an empty name |
| BatchApply.GuessedFlagReadBack | batch_apply.py:26-48 | the built flag asks for the description exactly when the posting is not on LinkedIn |
| GreenhouseTokens.FirstWord | src/get_greenhouse_tokens.py:34 | `split()[0]` is a non-empty word preceded only by whitespace; none exactly for a blank name |
| GreenhouseTokens.Variants | src/get_greenhouse_tokens.py:31-35 | three variants, the first two without spaces, the third non-empty; none for a blank name |
| GreenhouseTokens.Candidates | src/get_greenhouse_tokens.py:31-40 | the board URLs of the non-empty variants, as a set; SearchGreenhouseBoard, BoardUrlParses and CandidatesParse state its properties |
| GreenhouseTokens.CollectBoardUrls | src/get_greenhouse_tokens.py:37-40 | the URLs are the board URLs of the non-empty variants, without duplicates, at most one per variant |
| GreenhouseTokens.SearchGreenhouseBoard | src/get_greenhouse_tokens.py:23-42 | at most 3 distinct URLs, exactly the candidates; none for a blank name |
| GreenhouseTokens.BoardUrlParses | src/get_greenhouse_tokens.py:39-50 | every candidate URL parses with the board host as netloc |
| GreenhouseTokens.CandidatesParse | src/get_greenhouse_tokens.py:39-50 | no candidate URL makes the parse fail |
| GreenhouseTokens.StripChar | src/get_greenhouse_tokens.py:54 | `strip("/")` leaves no slash at either end and adds no character |
| GreenhouseTokens.FirstSegment | src/get_greenhouse_tokens.py:58 | the first segment is the prefix before the first slash |
| GreenhouseTokens.FirstSegmentIsSplitHead | src/get_greenhouse_tokens.py:58 | it is the first piece of splitting on `/` |
| GreenhouseTokens.TokenPatternMatches | src/get_greenhouse_tokens.py:61 | the regex test, with `$` also matching before a final newline; ExtractToken and TokenPathStrips use it |
| GreenhouseTokens.ExtractToken | src/get_greenhouse_tokens.py:44-72 | a parse failure is reported; a token is well-formed, from a board host, and confirmed by a 200 or 403 HEAD reply |
| GreenhouseTokens.ExtractedTokenIsFirstSegment | src/get_greenhouse_tokens.py:53-58 | a token is the path segment after the leading slashes |
| GreenhouseTokens.ExtractFromBoardUrl | src/get_greenhouse_tokens.py:39-72 | from a token's board URL the token comes back exactly when the board exists |
| GreenhouseTokens.FirstToken | src/get_greenhouse_tokens.py:84-88 | the token of the first URL, in list order, that yields one (every earlier URL yields none), or none when no URL yields one |
| GreenhouseTokens.LookupResult | src/get_greenhouse_tokens.py:74-88 | what the lookup may return for any order of the candidate set; FindTokenForCompany and SingleWordLookup state it |
| GreenhouseTokens.FindTokenForCompany | src/get_greenhouse_tokens.py:74-88 | the result is a possible lookup result for any visiting order, and a token is well-formed |
| GreenhouseTokens.SingleWordLookup | src/get_greenhouse_tokens.py:23-88 | a lower-case token name finds itself exactly when its board exists |
| GreenhouseTokens.IndexOf | src/get_greenhouse_tokens.py:154-155 | `index` is the first position of the column |
| GreenhouseTokens.WithTokenColumn | src/get_greenhouse_tokens.py:143-145 | the header with the token column appended when missing; WithTokenColumnIndices states its properties |
| GreenhouseTokens.WithTokenColumnIndices | src/get_greenhouse_tokens.py:143-155 | the token column is appended only when missing, and the two columns have distinct indices |
| GreenhouseTokens.RowsToProcess | src/get_greenhouse_tokens.py:160-163 | a non-zero limit keeps `rows[:limit]`, with Python's meaning for a negative limit; otherwise every row is kept |
| GreenhouseTokens.Pad | src/get_greenhouse_tokens.py:168-169 | the padded row keeps every cell and adds empty cells up to the token column |
| GreenhouseTokens.PadRow | src/get_greenhouse_tokens.py:167-169 | the padding loop computes that row |
| GreenhouseTokens.Company | src/get_greenhouse_tokens.py:171 | the stripped company cell, `""` when the row is too short |
| GreenhouseTokens.NeedsLookup | src/get_greenhouse_tokens.py:171-180 | the row names a company and has no token yet; UpdateRow, CountLookups, ExistingTokenKept and WrittenTokenWellFormed use it |
| GreenhouseTokens.UpdateRow | src/get_greenhouse_tokens.py:166-187 | one loop pass updates the row, and counts it exactly when it is looked up |
| GreenhouseTokens.CountLookups | src/get_greenhouse_tokens.py:182-186 | no more rows are processed than there are rows |
| GreenhouseTokens.UpdateRows | src/get_greenhouse_tokens.py:158-187 | the header, then each row updated in order; the count is the number of looked-up rows |
| GreenhouseTokens.UpdateSheet | src/get_greenhouse_tokens.py:134-194 | empty sheet, missing company column, or the header, header write-back flag, updated rows and count |
| GreenhouseTokens.OnlyTokenCellChanges | src/get_greenhouse_tokens.py:168-185 | only the token cell changes, and the added cells are empty |
| GreenhouseTokens.ExistingTokenKept | src/get_greenhouse_tokens.py:176-180 | a row that already has a token is left as it was |
| GreenhouseTokens.WrittenTokenWellFormed | src/get_greenhouse_tokens.py:182-184 | a looked-up row's token cell is empty or a well-formed token |

## Left out

- Network calls are parameters of the model: the Hunter search, the HEAD request, the page GET and the chat completion. Their timeouts, headers and retries are not modelled.
- `_extract_job_block` and BeautifulSoup text extraction (`src/scraper.py:27-57`) are not modelled. `Scraper.PageFetch` carries the extracted block and the page text.
- The prompt of `draft_email` (`src/email_generator.py:142-252`) and the style profile are not modelled. Only the handling of the completion is.
- Gmail and Google Sheets calls, OAuth credentials (`get_credentials`), CSV reading and writing, `Path.exists`, `mkdir`, `sys.exit`, `time.sleep` and every `print` are not modelled. The model returns the values the scripts would write.
- Raw CSV rows are maps from column to cell, and a missing cell is an absent key. `csv.DictReader` instead fills the missing cells of a short row with `None`. Then `raw.get("job_title", "").strip()` (build_job_list.py:57) and `row.get("job_id", "").strip()` (batch_apply.py:18) raise `AttributeError` and stop the script. The model has no such crash; only the `use_jd` cell (batch_apply.py:26) guards against `None`.
- `src/email_generator.py:12-14` raises `RuntimeError` at import when `OPENROUTER_API_KEY` is unset, so `batch_apply.py` stops before `main` runs. The model takes the generator's reply as a parameter and has no such stop.
- Strings.Lower: lower-cases ASCII letters only; Unicode case mapping is not modelled.
- UrlParse.Parse: ports, IPv6 bracket validation beyond balance, and the NFKC netloc check are not modelled.
- GreenhouseTokens.CollectBoardUrls: the order of iterating over a Python set is unspecified, so the loop picks the next variant nondeterministically; `FindTokenForCompany` is proved for every order.
- GreenhouseTokens.FirstToken: requires every URL to parse. The source would propagate a parse error, but no candidate URL can cause one (`CandidatesParse`).
- GreenhouseTokens.TokenPatternMatches: models that the regex `$` also matches before a final newline. Such a token cannot reach it, because `urlparse` removes newlines.
- GreenhouseTokens.UpdateRows: the row lists that the script mutates in place are rebuilt as sequences. Aliasing between `values` and `updated_values` is not modelled, because only `updated_values` is written back.
- Scraper.Truncate: the length bound is stated for a non-negative `max_chars`. A negative value counts from the end, as a Python slice does, and no caller passes one.
- ContactEnricher.FindContacts: the handling of a 200 reply (`src/contact_enricher.py:137-150`) runs outside the `try`. A JSON body that is not an object, a null or non-object `data`, an entry that is not an object, or a non-text `position` raises out of `find_contacts_for_company` and stops `build_job_list.py`. `HunterBody` only tells unparseable JSON from a list of well-typed entries, so the model has no such crash.
- EmailGenerator.DraftFromCompletion: `completion.choices[0]` (`src/email_generator.py:257`) is outside the `try`, so a reply with no choices raises out of `draft_email` and out of `process_row`, whose `try` covers only draft creation, and stops `batch_apply.py`. `Completion` has no such case, so the model has no such crash.
- ContactEnricher.ExtractDomain: the exception handler around `urlparse` is modelled as a parse failure giving no domain. No other exception is possible in the model.
- `main.py`, `export_sheet_to_csv.py`, `src/profile.py`, `src/config.py`, `src/style_profile.py`, `src/gmail_draft.py` and `src/gmail_client.py` are not part of this model.
