/**
 * Title relevance and the scrape decision (`src/job_profile_rules.py`).
 * The two keyword lists are configuration; negative keywords take precedence.
 */
module JobProfileRules {
  import opened Strings

  /** Titles wanted. The last entry is mixed-case and therefore never matches a lower-cased title. */
  const PositiveKeywords: seq<string> := [
    "data scientist",
    "senior data scientist",
    "staff data scientist",
    "machine learning engineer",
    "ml engineer",
    "applied scientist",
    "research scientist",
    "ml scientist",
    "quantitative researcher",
    "ml research engineer",
    "ai engineer",
    "ml ops",
    "mlops",
    "risk data scientist",
    "fraud data scientist",
    "risk modeling",
    "risk analytics",
    "Data Analyst"
  ]

  /** Titles to avoid. */
  const NegativeKeywords: seq<string> := [
    "product manager",
    "account manager",
    "sales",
    "customer success",
    "frontend",
    "backend",
    "full stack",
    "marketing",
    "designer",
    "intern",
    "junior"
  ]

  /** `title.strip().lower()`: no surrounding whitespace and no upper-case letter. */
  function NormalizeTitle(title: string): (t: string)
    ensures NoUpper(t)
    ensures t == [] || (!IsSpace(t[0]) && !IsSpace(t[|t| - 1]))
  {
    var s := Strip(title);
    LowerNoUpper(s);
    if s == [] then Lower(s)
    else
      LowerCharSpace(s[0]);
      LowerCharSpace(s[|s| - 1]);
      Lower(s)
  }

  /** `any(k in t for k in keywords)` */
  predicate MentionsAny(t: string, keywords: seq<string>) {
    exists k :: k in keywords && Contains(t, k)
  }

  /** `is_title_relevant` */
  function IsTitleRelevant(title: string): bool {
    var t := NormalizeTitle(title);
    if MentionsAny(t, NegativeKeywords) then false
    else if MentionsAny(t, PositiveKeywords) then true
    else if Contains(t, "data scientist") then true
    else false
  }

  /** `guess_use_jd`: "no" for LinkedIn postings (in any letter case), "yes" for everything else. */
  function GuessUseJd(jobUrl: string): (r: string)
    ensures r == "no" || r == "yes"
    ensures r == "no" <==> Contains(Lower(jobUrl), "linkedin.com")
  {
    if Contains(Lower(jobUrl), "linkedin.com") then "no" else "yes"
  }

  /** Normalising twice is normalising once. */
  lemma NormalizeIdempotent(title: string)
    ensures NormalizeTitle(NormalizeTitle(title)) == NormalizeTitle(title)
  {
    var s := Strip(title);
    StripLower(s);
    StripIdempotent(title);
    LowerIdempotent(s);
  }

  /** The filter ignores letter case and surrounding whitespace. */
  lemma RelevanceIgnoresCaseAndSpace(title: string)
    ensures IsTitleRelevant(title) == IsTitleRelevant(NormalizeTitle(title))
  {
    NormalizeIdempotent(title);
  }

  /**
   * The whole rule: a title is relevant exactly when no negative keyword and
   * at least one positive keyword occurs in it. The "data scientist" catch-all
   * adds nothing, because that phrase is itself the first positive keyword.
   */
  lemma RelevantIff(title: string)
    ensures IsTitleRelevant(title) <==>
              !MentionsAny(NormalizeTitle(title), NegativeKeywords)
              && MentionsAny(NormalizeTitle(title), PositiveKeywords)
  {
    assert PositiveKeywords[0] == "data scientist";
  }

  /**
   * The mixed-case keyword "Data Analyst" never matches: whether a title
   * mentions a positive keyword is decided by the other seventeen alone.
   */
  lemma DataAnalystNeverMatches(title: string)
    ensures !Contains(NormalizeTitle(title), "Data Analyst")
    ensures (MentionsAny(NormalizeTitle(title), PositiveKeywords)
             <==> MentionsAny(NormalizeTitle(title), PositiveKeywords[..17]))
  {
    NotContainsUpper(Strip(title), "Data Analyst", 0);
    assert PositiveKeywords == PositiveKeywords[..17] + ["Data Analyst"];
  }

  /** A title with no surrounding whitespace normalises to its lower-case form. */
  lemma NormalizesTo(title: string, t: string)
    requires title == [] || (!IsSpace(title[0]) && !IsSpace(title[|title| - 1]))
    requires Lower(title) == t
    ensures NormalizeTitle(title) == t
  {
    StripUnchanged(title);
  }

  /** Verdicts read off the keyword lists, one keyword at a time. */
  lemma RejectedByNegative(title: string, t: string, k: string)
    requires NormalizeTitle(title) == t
    requires k in NegativeKeywords && Contains(t, k)
    ensures !IsTitleRelevant(title)
  {
  }

  lemma AcceptedByPositive(title: string, t: string, k: string)
    requires NormalizeTitle(title) == t && !MentionsAny(t, NegativeKeywords)
    requires k in PositiveKeywords && Contains(t, k)
    ensures IsTitleRelevant(title)
  {
  }

  lemma JuniorDataScientistNormal()
    ensures NormalizeTitle("Junior Data Scientist") == "junior data scientist"
  {
    NormalizesTo("Junior Data Scientist", "junior data scientist");
  }

  lemma StaffDataScientistNormal()
    ensures NormalizeTitle("Staff Data Scientist") == "staff data scientist"
  {
    NormalizesTo("Staff Data Scientist", "staff data scientist");
  }

  lemma SeniorDataAnalystNormal()
    ensures NormalizeTitle("Senior Data Analyst") == "senior data analyst"
  {
    NormalizesTo("Senior Data Analyst", "senior data analyst");
  }

  lemma StaffDataScientistNoNegative()
    ensures !MentionsAny("staff data scientist", NegativeKeywords)
  {
    NoneOccur("staff data scientist", NegativeKeywords, "polurbumgrj");
  }

  lemma SeniorDataAnalystNoLivePositive()
    ensures !MentionsAny("senior data analyst", PositiveKeywords[..17])
  {
    NoneOccur("senior data analyst", PositiveKeywords[..17], "ccfmmpcmqmgmmkfkk");
  }

  lemma JuniorKeyword()
    ensures "junior" in NegativeKeywords && Contains("junior data scientist", "junior")
  {
    assert NegativeKeywords[10] == "junior";
    ContainsFromOccurrence("junior data scientist", "junior", 0);
  }

  lemma StaffKeyword()
    ensures "staff data scientist" in PositiveKeywords
    ensures Contains("staff data scientist", "staff data scientist")
  {
    assert PositiveKeywords[2] == "staff data scientist";
    ContainsFromOccurrence("staff data scientist", "staff data scientist", 0);
  }

  /** A negative keyword wins over a positive one: "Junior Data Scientist" is rejected. */
  lemma JuniorDataScientistRejected()
    ensures !IsTitleRelevant("Junior Data Scientist")
  {
    JuniorDataScientistNormal();
    JuniorKeyword();
    RejectedByNegative("Junior Data Scientist", "junior data scientist", "junior");
  }

  /** A positive keyword with no negative one is accepted: "Staff Data Scientist". */
  lemma StaffDataScientistAccepted()
    ensures IsTitleRelevant("Staff Data Scientist")
  {
    StaffDataScientistNormal();
    StaffDataScientistNoNegative();
    StaffKeyword();
    AcceptedByPositive("Staff Data Scientist", "staff data scientist", "staff data scientist");
  }

  /** "Senior Data Analyst" is rejected: its only candidate keyword is the dead "Data Analyst". */
  lemma SeniorDataAnalystRejected()
    ensures !IsTitleRelevant("Senior Data Analyst")
  {
    SeniorDataAnalystNormal();
    SeniorDataAnalystNoLivePositive();
    DataAnalystNeverMatches("Senior Data Analyst");
    RelevantIff("Senior Data Analyst");
  }
}
