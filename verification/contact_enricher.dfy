/**
 * Contact lookup for one company (`src/contact_enricher.py`): derive a domain,
 * ask the Hunter domain search for people at that domain, keep the ones whose
 * position mentions a role keyword, best first, and fall back to a generic
 * `jobs@<domain>` contact whenever the lookup yields nothing usable.
 *
 * The Hunter HTTP call is a parameter: `hunter(domain)` is the reply the
 * service gives for that domain.
 */
module ContactEnricher {
  import opened Wrappers
  import opened Strings
  import UrlParse

  /** Position keywords; each one found in a position adds one to its score. */
  const RoleKeywords: seq<string> := [
    "data",
    "machine learning",
    "ml",
    "ai",
    "analytics",
    "science",
    "scientist",
    "recruiter",
    "talent",
    "people",
    "hiring",
    "engineering manager",
    "head of",
    "vp",
    "director"
  ]

  /** One contact as returned to callers. */
  datatype Contact = Contact(name: string, email: string, position: string, score: nat)

  /** One entry of the `emails` list in a Hunter reply; every key may be absent. */
  datatype HunterEmail = HunterEmail(
    value: Option<string>,
    firstName: Option<string>,
    lastName: Option<string>,
    position: Option<string>)

  /**
   * The body of a status-200 reply: not JSON at all, or JSON whose
   * `data.emails` list is `emails` (an absent key reads as an empty list).
   */
  datatype HunterBody = Unparseable | Emails(emails: seq<HunterEmail>)

  /** What the domain-search request produced: an exception, or a response. */
  datatype HunterReply = TransportError | Reply(status: int, body: HunterBody)

  /** `host[4:]` when the host starts with "www." */
  function DropWww(host: string): (r: string)
    ensures StartsWith(host, "www.") ==> host == "www." + r
    ensures !StartsWith(host, "www.") ==> r == host
  {
    if StartsWith(host, "www.") then host[4..] else host
  }

  /**
   * `_extract_domain`: an explicit domain wins (stripped, letter case kept);
   * otherwise the URL's netloc, or its path when there is no netloc,
   * lower-cased and without a leading "www.". `None` when nothing usable is
   * left, including when `urlparse` raises.
   */
  function ExtractDomain(companyUrl: string, companyDomain: Option<string>): (r: Option<string>)
    ensures r.Some? ==> r.value != ""
  {
    if companyDomain.Some? && Strip(companyDomain.value) != "" then Some(Strip(companyDomain.value))
    else if companyUrl == "" then None
    else match UrlParse.Parse(companyUrl)
      case None => None
      case Some(p) =>
        var host := DropWww(Lower(if p.netloc != "" then p.netloc else p.path));
        if host == "" then None else Some(host)
  }

  /** How many of `keywords` occur in `pos`. */
  function KeywordCount(pos: string, keywords: seq<string>): (n: nat)
    ensures n <= |keywords|
    ensures n == 0 <==> forall k :: k in keywords ==> !Contains(pos, k)
    decreases |keywords|
  {
    if keywords == [] then 0
    else
      var last := keywords[|keywords| - 1];
      assert keywords == keywords[..|keywords| - 1] + [last];
      assert (forall k :: k in keywords ==> !Contains(pos, k))
             <==> (forall k :: k in keywords[..|keywords| - 1] ==> !Contains(pos, k)) && !Contains(pos, last);
      KeywordCount(pos, keywords[..|keywords| - 1]) + if Contains(pos, last) then 1 else 0
  }

  /** The score `_score_contact` computes: 0 for a missing or empty position. */
  function Score(position: Option<string>): (n: nat)
    ensures n <= |RoleKeywords|
  {
    if position.None? || position.value == "" then 0
    else KeywordCount(Lower(position.value), RoleKeywords)
  }

  /** `_score_contact` */
  method ScoreContact(position: Option<string>) returns (score: nat)
    ensures score == Score(position)
  {
    if position.None? || position.value == "" {
      return 0;
    }
    var pos := Lower(position.value);
    score := 0;
    for i := 0 to |RoleKeywords|
      invariant score == KeywordCount(pos, RoleKeywords[..i])
    {
      assert RoleKeywords[..i + 1][..i] == RoleKeywords[..i];
      if Contains(pos, RoleKeywords[i]) {
        score := score + 1;
      }
    }
    assert RoleKeywords[..|RoleKeywords|] == RoleKeywords;
  }

  /** `" ".join(filter(None, [first, last])).strip()` */
  function FullName(first: Option<string>, last: Option<string>): string {
    var parts := (if first.Some? && first.value != "" then [first.value] else [])
                 + (if last.Some? && last.value != "" then [last.value] else []);
    Strip(Join(parts, " "))
  }

  /**
   * `_fallback_contact`: one generic "Hiring Manager" contact at
   * `jobs@<domain>`, or nothing when there is no domain.
   */
  function Fallback(domain: Option<string>): (r: seq<Contact>)
    ensures |r| <= 1
    ensures r != [] <==> domain.Some? && domain.value != ""
    ensures r != [] ==> r == [Contact("Hiring Manager", "jobs@" + domain.value, "Hiring Manager", 1)]
  {
    if domain.None? || domain.value == "" then []
    else [Contact("Hiring Manager", "jobs@" + domain.value, "Hiring Manager", 1)]
  }

  /** The contact one Hunter entry contributes: none without an email or with score 0. */
  function Candidate(e: HunterEmail): (r: seq<Contact>)
    ensures |r| <= 1
    ensures r != [] ==> r[0].email != "" && 1 <= r[0].score <= |RoleKeywords|
  {
    if e.value.None? || e.value.value == "" then []
    else
      var position := e.position.GetOr("");
      var score := Score(Some(position));
      if score == 0 then []
      else [Contact(FullName(e.firstName, e.lastName), e.value.value, position, score)]
  }

  /** The `scored` list after the loop over `emails`, in provider order. */
  function Scored(emails: seq<HunterEmail>): seq<Contact>
    decreases |emails|
  {
    if emails == [] then []
    else Scored(emails[..|emails| - 1]) + Candidate(emails[|emails| - 1])
  }

  /** Contacts are ordered best first. */
  predicate NonIncreasing(s: seq<Contact>) {
    forall i, j :: 0 <= i < j < |s| ==> s[i].score >= s[j].score
  }

  /** The contacts of `s` with score `v`, in their order in `s`. */
  function WithScore(s: seq<Contact>, v: int): seq<Contact>
    decreases |s|
  {
    if s == [] then []
    else (if s[0].score == v then [s[0]] else []) + WithScore(s[1..], v)
  }

  /** Insert `c` before the first contact that does not outscore it. */
  function InsertByScore(c: Contact, sorted: seq<Contact>): seq<Contact>
    decreases |sorted|
  {
    if sorted == [] || sorted[0].score <= c.score then [c] + sorted
    else [sorted[0]] + InsertByScore(c, sorted[1..])
  }

  /** `sort(key=score, reverse=True)`, which is stable. */
  function SortByScore(s: seq<Contact>): seq<Contact>
    decreases |s|
  {
    if s == [] then [] else InsertByScore(s[0], SortByScore(s[1..]))
  }

  /** What a reply for `domain` turns into. */
  function FromReply(domain: string, reply: HunterReply, maxContacts: int): seq<Contact> {
    match reply
    case TransportError => Fallback(Some(domain))
    case Reply(status, body) =>
      if status != 200 then Fallback(Some(domain))
      else match body
        case Unparseable => Fallback(Some(domain))
        case Emails(emails) =>
          if emails == [] then Fallback(Some(domain))
          else if Scored(emails) == [] then Fallback(Some(domain))
          else PyPrefix(SortByScore(Scored(emails)), maxContacts)
  }

  /** An API key is configured when the variable is set and not empty. */
  predicate HasKey(apiKey: Option<string>) {
    apiKey.Some? && apiKey.value != ""
  }

  /** The contacts `find_contacts_for_company` returns. */
  function FindContacts(companyUrl: Option<string>, companyDomain: Option<string>, maxContacts: int,
                        apiKey: Option<string>, hunter: string -> HunterReply): seq<Contact>
  {
    var domain := ExtractDomain(companyUrl.GetOr(""), companyDomain);
    if !HasKey(apiKey) then Fallback(domain)
    else if domain.None? then []
    else FromReply(domain.value, hunter(domain.value), maxContacts)
  }

  /** The loop of `find_contacts_for_company` that builds `scored`. */
  method ScoreEmails(emails: seq<HunterEmail>) returns (scored: seq<Contact>)
    ensures scored == Scored(emails)
  {
    scored := [];
    for i := 0 to |emails|
      invariant scored == Scored(emails[..i])
    {
      ScoredLast(emails[..i + 1]);
      assert emails[..i + 1][..i] == emails[..i];
      var e := emails[i];
      if e.value.Some? && e.value.value != "" {
        var position := e.position.GetOr("");
        var fullName := FullName(e.firstName, e.lastName);
        var score := ScoreContact(Some(position));
        if score != 0 {
          scored := scored + [Contact(fullName, e.value.value, position, score)];
        }
      }
    }
    assert emails[..|emails|] == emails;
  }

  /** `find_contacts_for_company` */
  method FindContactsForCompany(companyUrl: Option<string>, companyDomain: Option<string>, maxContacts: int,
                                apiKey: Option<string>, hunter: string -> HunterReply)
    returns (contacts: seq<Contact>)
    ensures contacts == FindContacts(companyUrl, companyDomain, maxContacts, apiKey, hunter)
  {
    var domain := ExtractDomain(companyUrl.GetOr(""), companyDomain);
    if !HasKey(apiKey) {
      return Fallback(domain);
    }
    if domain.None? {
      return [];
    }
    var reply := hunter(domain.value);
    if reply.TransportError? || reply.status != 200 || reply.body.Unparseable? {
      return Fallback(domain);
    }
    var emails := reply.body.emails;
    if emails == [] {
      return Fallback(domain);
    }
    var scored := ScoreEmails(emails);
    if scored == [] {
      return Fallback(domain);
    }
    scored := SortByScore(scored);
    contacts := PyPrefix(scored, maxContacts);
  }

  // ---------------------------------------------------------------- lemmas

  /** Inserting adds exactly `c`. */
  lemma {:induction false} InsertByScorePerm(c: Contact, t: seq<Contact>)
    ensures multiset(InsertByScore(c, t)) == multiset(t) + multiset{c}
    ensures |InsertByScore(c, t)| == |t| + 1
    decreases |t|
  {
    if t != [] && t[0].score > c.score {
      InsertByScorePerm(c, t[1..]);
      assert t == [t[0]] + t[1..];
    }
  }

  /** Inserting into a best-first list keeps it best first. */
  lemma {:induction false} InsertByScoreSorted(c: Contact, t: seq<Contact>)
    requires NonIncreasing(t)
    ensures NonIncreasing(InsertByScore(c, t))
    decreases |t|
  {
    var r := InsertByScore(c, t);
    if t != [] && t[0].score > c.score {
      var rest := InsertByScore(c, t[1..]);
      InsertByScoreSorted(c, t[1..]);
      InsertByScorePerm(c, t[1..]);
      forall j | 0 <= j < |rest| ensures t[0].score >= rest[j].score {
        assert rest[j] in multiset(rest);
        if rest[j] != c {
          var k :| 0 <= k < |t[1..]| && t[1..][k] == rest[j];
          assert t[1 + k] == rest[j];
        }
      }
      assert r == [t[0]] + rest;
      forall i, j | 0 <= i < j < |r| ensures r[i].score >= r[j].score {
        assert r[j] == rest[j - 1];
        if i > 0 {
          assert r[i] == rest[i - 1];
        }
      }
    }
  }

  /** Inserting puts `c` after the contacts of its own score: equal scores keep their order. */
  lemma {:induction false} InsertByScoreStable(c: Contact, t: seq<Contact>, v: int)
    ensures WithScore(InsertByScore(c, t), v) == (if c.score == v then [c] else []) + WithScore(t, v)
    decreases |t|
  {
    var r := InsertByScore(c, t);
    if t == [] || t[0].score <= c.score {
      assert r[0] == c && r[1..] == t;
    } else {
      var rest := InsertByScore(c, t[1..]);
      InsertByScoreStable(c, t[1..], v);
      assert r[0] == t[0] && r[1..] == rest;
      var head := if t[0].score == v then [t[0]] else [];
      assert WithScore(r, v) == head + WithScore(rest, v);
      assert WithScore(t, v) == head + WithScore(t[1..], v);
      if c.score == v {
        assert head == [];
      }
    }
  }

  /** The sort is a permutation. */
  lemma {:induction false} SortByScorePerm(s: seq<Contact>)
    ensures |SortByScore(s)| == |s|
    ensures multiset(SortByScore(s)) == multiset(s)
    decreases |s|
  {
    if s != [] {
      SortByScorePerm(s[1..]);
      InsertByScorePerm(s[0], SortByScore(s[1..]));
      assert s == [s[0]] + s[1..];
    }
  }

  /** The sort puts the best contacts first. */
  lemma {:induction false} SortByScoreSorted(s: seq<Contact>)
    ensures NonIncreasing(SortByScore(s))
    decreases |s|
  {
    if s != [] {
      SortByScoreSorted(s[1..]);
      InsertByScoreSorted(s[0], SortByScore(s[1..]));
    }
  }

  /** The sort is stable: contacts of equal score keep their relative order. */
  lemma {:induction false} SortByScoreStable(s: seq<Contact>, v: int)
    ensures WithScore(SortByScore(s), v) == WithScore(s, v)
    decreases |s|
  {
    if s != [] {
      SortByScoreStable(s[1..], v);
      InsertByScoreStable(s[0], SortByScore(s[1..]), v);
    }
  }

  lemma ScoredLast(emails: seq<HunterEmail>)
    requires emails != []
    ensures Scored(emails) == Scored(emails[..|emails| - 1]) + Candidate(emails[|emails| - 1])
  {
  }

  /** Every scored contact has an email and a positive score. */
  lemma {:induction false} ScoredContacts(emails: seq<HunterEmail>)
    ensures forall c :: c in Scored(emails) ==> c.email != "" && 1 <= c.score <= |RoleKeywords|
    decreases |emails|
  {
    if emails != [] {
      ScoredContacts(emails[..|emails| - 1]);
      ScoredLast(emails);
    }
  }

  /** Every scored contact comes from one entry of the reply. */
  lemma {:induction false} ScoredFromEntries(emails: seq<HunterEmail>)
    ensures forall c :: c in Scored(emails) ==> exists i :: 0 <= i < |emails| && Candidate(emails[i]) == [c]
    decreases |emails|
  {
    if emails != [] {
      var init := emails[..|emails| - 1];
      ScoredFromEntries(init);
      ScoredLast(emails);
      forall c | c in Scored(emails)
        ensures exists i :: 0 <= i < |emails| && Candidate(emails[i]) == [c]
      {
        if c in Scored(init) {
          var i :| 0 <= i < |init| && Candidate(init[i]) == [c];
          assert emails[i] == init[i];
        } else {
          assert Candidate(emails[|emails| - 1]) == [c];
        }
      }
    }
  }

  /** Every entry with an email and a relevant position is scored. */
  lemma {:induction false} EntriesAreScored(emails: seq<HunterEmail>)
    ensures forall i :: 0 <= i < |emails| && Candidate(emails[i]) != [] ==> Candidate(emails[i])[0] in Scored(emails)
    decreases |emails|
  {
    if emails != [] {
      var init := emails[..|emails| - 1];
      var last := Candidate(emails[|emails| - 1]);
      EntriesAreScored(init);
      ScoredLast(emails);
      forall i | 0 <= i < |emails| && Candidate(emails[i]) != []
        ensures Candidate(emails[i])[0] in Scored(emails)
      {
        var c := Candidate(emails[i])[0];
        if i < |init| {
          assert emails[i] == init[i];
          assert c in Scored(init);
        } else {
          assert i == |emails| - 1;
          assert last == Candidate(emails[i]);
        }
        assert c in Scored(init) + last;
      }
    }
  }

  lemma CutRest(s: seq<Contact>, k: nat)
    requires k <= |s|
    ensures multiset(s) - multiset(s[..k]) == multiset(s[k..])
  {
    assert s == s[..k] + s[k..];
  }

  lemma CutOrdered(sorted: seq<Contact>, k: nat)
    requires NonIncreasing(sorted) && k <= |sorted|
    ensures forall c, d :: c in sorted[k..] && d in sorted[..k] ==> d.score >= c.score
  {
    forall c, d | c in sorted[k..] && d in sorted[..k] ensures d.score >= c.score {
      var j :| 0 <= j < |sorted[k..]| && sorted[k..][j] == c;
      var i :| 0 <= i < |sorted[..k]| && sorted[..k][i] == d;
      assert sorted[i] == d && sorted[k + j] == c;
    }
  }

  /** Cutting a best-first list after `k` contacts leaves nothing behind that outscores what is kept. */
  lemma CutKeepsBest(sorted: seq<Contact>, k: nat)
    requires NonIncreasing(sorted) && k <= |sorted|
    ensures forall c :: c in multiset(sorted) - multiset(sorted[..k]) ==>
              forall d :: d in sorted[..k] ==> d.score >= c.score
  {
    CutRest(sorted, k);
    CutOrdered(sorted, k);
    forall c | c in multiset(sorted) - multiset(sorted[..k]) ensures c in sorted[k..] {
      assert c in multiset(sorted[k..]);
    }
  }

  /** Python's `sorted[:n]` of a best-first list keeps it best first and keeps the best. */
  lemma PrefixKeepsBest(sorted: seq<Contact>, n: int)
    requires NonIncreasing(sorted)
    ensures NonIncreasing(PyPrefix(sorted, n))
    ensures forall c :: c in multiset(sorted) - multiset(PyPrefix(sorted, n)) ==>
              forall d :: d in PyPrefix(sorted, n) ==> d.score >= c.score
  {
    CutKeepsBest(sorted, |PyPrefix(sorted, n)|);
  }

  /** With no API key the result is the fallback for whatever domain can be derived. */
  lemma NoKeyGivesFallback(companyUrl: Option<string>, companyDomain: Option<string>, maxContacts: int,
                           apiKey: Option<string>, hunter: string -> HunterReply)
    requires !HasKey(apiKey)
    ensures FindContacts(companyUrl, companyDomain, maxContacts, apiKey, hunter)
            == Fallback(ExtractDomain(companyUrl.GetOr(""), companyDomain))
  {
  }

  /**
   * Hunter is consulted at most once, for the derived domain: two services
   * that agree on that domain give the same contacts, and without a key or
   * a domain the service is not consulted at all.
   */
  lemma HunterConsultedOnlyForDomain(companyUrl: Option<string>, companyDomain: Option<string>, maxContacts: int,
                                     apiKey: Option<string>, hunter: string -> HunterReply,
                                     other: string -> HunterReply)
    requires var d := ExtractDomain(companyUrl.GetOr(""), companyDomain);
             !HasKey(apiKey) || d.None? || hunter(d.value) == other(d.value)
    ensures FindContacts(companyUrl, companyDomain, maxContacts, apiKey, hunter)
            == FindContacts(companyUrl, companyDomain, maxContacts, apiKey, other)
  {
  }

  /** With a key but no derivable domain there are no contacts, not even the fallback. */
  lemma NoDomainNoContacts(companyUrl: Option<string>, companyDomain: Option<string>, maxContacts: int,
                           apiKey: Option<string>, hunter: string -> HunterReply)
    requires HasKey(apiKey) && ExtractDomain(companyUrl.GetOr(""), companyDomain).None?
    ensures FindContacts(companyUrl, companyDomain, maxContacts, apiKey, hunter) == []
  {
  }

  /**
   * Every failure of the lookup (an exception, a non-200 status, a body that
   * is not JSON, no emails, or no entry with a relevant position) yields
   * exactly the generic contact `jobs@<domain>`.
   */
  lemma FailureGivesFallback(companyUrl: Option<string>, companyDomain: Option<string>, maxContacts: int,
                             apiKey: Option<string>, hunter: string -> HunterReply, domain: string)
    requires HasKey(apiKey) && ExtractDomain(companyUrl.GetOr(""), companyDomain) == Some(domain)
    requires var reply := hunter(domain);
             || reply.TransportError?
             || reply.status != 200
             || reply.body.Unparseable?
             || Scored(reply.body.emails) == []
    ensures FindContacts(companyUrl, companyDomain, maxContacts, apiKey, hunter)
            == [Contact("Hiring Manager", "jobs@" + domain, "Hiring Manager", 1)]
  {
  }

  /**
   * A usable reply yields the best `maxContacts` relevant entries, best
   * first, equal scores in provider order, each with an email and a score
   * of at least 1; every relevant entry left out scores no higher than any
   * kept one.
   */
  lemma ProviderContacts(companyUrl: Option<string>, companyDomain: Option<string>, maxContacts: int,
                         apiKey: Option<string>, hunter: string -> HunterReply,
                         domain: string, emails: seq<HunterEmail>)
    requires HasKey(apiKey) && ExtractDomain(companyUrl.GetOr(""), companyDomain) == Some(domain)
    requires hunter(domain) == Reply(200, Emails(emails)) && Scored(emails) != []
    ensures var r := FindContacts(companyUrl, companyDomain, maxContacts, apiKey, hunter);
            && r == PyPrefix(SortByScore(Scored(emails)), maxContacts)
            && (maxContacts >= 0 ==> |r| == Min(maxContacts, |Scored(emails)|))
            && NonIncreasing(r)
            && (forall v :: WithScore(SortByScore(Scored(emails)), v) == WithScore(Scored(emails), v))
            && (forall c :: c in r ==> c.email != "" && 1 <= c.score <= |RoleKeywords|)
            && (forall c :: c in multiset(Scored(emails)) - multiset(r) ==> forall d :: d in r ==> d.score >= c.score)
  {
    var scored := Scored(emails);
    var sorted := SortByScore(scored);
    assert emails != [];
    assert FindContacts(companyUrl, companyDomain, maxContacts, apiKey, hunter) == PyPrefix(sorted, maxContacts);
    SortByScorePerm(scored);
    SortByScoreSorted(scored);
    forall v ensures WithScore(sorted, v) == WithScore(scored, v) {
      SortByScoreStable(scored, v);
    }
    PrefixKeepsBest(sorted, maxContacts);
    ScoredContacts(emails);
    forall c | c in PyPrefix(sorted, maxContacts) ensures c.email != "" && 1 <= c.score <= |RoleKeywords| {
      assert c in multiset(sorted);
    }
  }

  /** Sorting and cutting keep only contacts that were there. */
  lemma SortedPrefixValid(scored: seq<Contact>, maxContacts: int)
    requires forall c :: c in scored ==> c.email != "" && c.score >= 1
    ensures forall c :: c in PyPrefix(SortByScore(scored), maxContacts) ==> c.email != "" && c.score >= 1
  {
    var sorted := SortByScore(scored);
    SortByScorePerm(scored);
    forall c | c in PyPrefix(sorted, maxContacts) ensures c.email != "" && c.score >= 1 {
      assert c in multiset(sorted);
    }
  }

  /** Every contact made of a reply has an email and a positive score. */
  lemma FromReplyValid(domain: string, reply: HunterReply, maxContacts: int)
    ensures forall c :: c in FromReply(domain, reply, maxContacts) ==> c.email != "" && c.score >= 1
  {
    if reply.Reply? && reply.status == 200 && reply.body.Emails? && Scored(reply.body.emails) != [] {
      ScoredContacts(reply.body.emails);
      SortedPrefixValid(Scored(reply.body.emails), maxContacts);
    }
  }

  /** Whatever happens, every returned contact has an email and a positive score. */
  lemma EveryContactHasEmail(companyUrl: Option<string>, companyDomain: Option<string>, maxContacts: int,
                             apiKey: Option<string>, hunter: string -> HunterReply)
    ensures forall c :: c in FindContacts(companyUrl, companyDomain, maxContacts, apiKey, hunter)
                        ==> c.email != "" && c.score >= 1
  {
    var d := ExtractDomain(companyUrl.GetOr(""), companyDomain);
    if HasKey(apiKey) && d.Some? {
      FromReplyValid(d.value, hunter(d.value), maxContacts);
    }
  }

  /** An explicit, non-blank domain is used as given, only stripped. */
  lemma ExplicitDomainWins(companyUrl: string, companyDomain: string)
    requires Strip(companyDomain) != ""
    ensures ExtractDomain(companyUrl, Some(companyDomain)) == Some(Strip(companyDomain))
  {
  }

  /** A domain taken from a URL is lower-case. */
  lemma UrlDomainIsLower(companyUrl: string, companyDomain: Option<string>)
    requires companyDomain.None? || Strip(companyDomain.value) == ""
    ensures var r := ExtractDomain(companyUrl, companyDomain);
            r.Some? ==> NoUpper(r.value)
  {
    var r := ExtractDomain(companyUrl, companyDomain);
    if r.Some? {
      var p := UrlParse.Parse(companyUrl).value;
      var lowered := Lower(if p.netloc != "" then p.netloc else p.path);
      LowerNoUpper(if p.netloc != "" then p.netloc else p.path);
      assert r.value == DropWww(lowered);
      if StartsWith(lowered, "www.") {
        assert forall i :: 0 <= i < |r.value| ==> r.value[i] == lowered[i + 4];
      }
    }
  }

  /** For `https://host/path` the domain is the lower-cased host without "www.". */
  lemma HttpsUrlDomain(host: string, path: string)
    requires host != []
    requires UrlParse.Avoids(host, {'/', '?', '#', '[', ']', '\t', '\r', '\n'})
    requires path == [] || path[0] == '/'
    requires UrlParse.Avoids(path, {'?', '#', ';', '\t', '\r', '\n'})
    ensures var h := DropWww(Lower(host));
            ExtractDomain("https://" + host + path, None) == if h == "" then None else Some(h)
  {
    UrlParse.HttpsHostAndPath(host, path);
  }

  /** A bare `host/path` without a scheme is taken whole (path included) as the domain. */
  lemma BareUrlDomain(url: string)
    requires url != [] && !UrlParse.IsC0OrSpace(url[0]) && !StartsWith(url, "//")
    requires UrlParse.Avoids(url, {':', '?', '#', ';', '\t', '\r', '\n'})
    ensures var h := DropWww(Lower(url));
            ExtractDomain(url, None) == if h == "" then None else Some(h)
  {
    UrlParse.SchemelessIsPath(url);
  }

  lemma SalesRepLower()
    ensures Lower("Sales Rep") == "sales rep"
  {
  }

  lemma DataScientistLower()
    ensures Lower("Data Scientist") == "data scientist"
  {
  }

  /** A sales position mentions no role keyword and scores 0. */
  lemma SalesRepScoresZero()
    ensures Score(Some("Sales Rep")) == 0
  {
    SalesRepLower();
    NoneOccur("sales rep", RoleKeywords, "dmminccctohnhvd");
  }

  /** Counting over two keyword lists one after the other adds their counts. */
  lemma {:induction false} KeywordCountAppend(pos: string, a: seq<string>, b: seq<string>)
    ensures KeywordCount(pos, a + b) == KeywordCount(pos, a) + KeywordCount(pos, b)
    decreases |b|
  {
    if b == [] {
      assert a + b == a;
    } else {
      var init := b[..|b| - 1];
      assert (a + b)[..|a + b| - 1] == a + init;
      assert (a + b)[|a + b| - 1] == b[|b| - 1];
      KeywordCountAppend(pos, a, init);
    }
  }

  lemma KeywordCountOne(pos: string, k: string)
    ensures KeywordCount(pos, [k]) == if Contains(pos, k) then 1 else 0
  {
    assert [k][..0] == [];
  }

  /** No keyword of `ks` occurs in `pos`, so the count is 0. */
  lemma CountZero(pos: string, ks: seq<string>)
    requires forall i :: 0 <= i < |ks| ==> !Contains(pos, ks[i])
    ensures KeywordCount(pos, ks) == 0
  {
  }

  /**
   * Neither "ai" nor "science" occurs in a text where every 'a' stands before
   * position `p` and every 'i' after it, and every 'e' before position `q`
   * and every 'c' after it, neither split falling right after an 'a' or a 'c'.
   */
  lemma PairsAbsent(pos: string, p: nat, q: nat)
    requires 0 < p <= |pos| && 'i' !in pos[..p] && 'a' !in pos[p..] && pos[p - 1] != 'a'
    requires 0 < q <= |pos| && 'e' !in pos[..q] && 'c' !in pos[q..] && pos[q - 1] != 'c'
    ensures !Contains(pos, "ai") && !Contains(pos, "science")
  {
    PairAbsentAt(pos, p, "ai");
    PairAbsentAt(pos, q, "ce");
    assert "science" == "scien" + "ce" + "";
    NotContainsOuter(pos, "scien", "ce", "");
  }

  /** "machine learning", "ml", "ai", "analytics" and "science" are absent from `pos`. */
  lemma MiddleAbsentOf(pos: string)
    requires 'm' !in pos && 'l' !in pos
    requires !Contains(pos, "ai") && !Contains(pos, "science")
    ensures KeywordCount(pos, RoleKeywords[1..6]) == 0
  {
    var ks := RoleKeywords[1..6];
    assert ks[0] == "machine learning" && ks[1] == "ml" && ks[2] == "ai";
    assert ks[3] == "analytics" && ks[4] == "science";
    NotContainsByChar(pos, "machine learning", 'm');
    NotContainsByChar(pos, "ml", 'm');
    NotContainsByChar(pos, "analytics", 'l');
    CountZero(pos, ks);
  }

  /** The same, read off character facts about the text and the two split points. */
  lemma MiddleAbsent(pos: string, p: nat, q: nat)
    requires 'm' !in pos && 'l' !in pos
    requires 0 < p <= |pos| && 'i' !in pos[..p] && 'a' !in pos[p..] && pos[p - 1] != 'a'
    requires 0 < q <= |pos| && 'e' !in pos[..q] && 'c' !in pos[q..] && pos[q - 1] != 'c'
    ensures KeywordCount(pos, RoleKeywords[1..6]) == 0
  {
    PairsAbsent(pos, p, q);
    MiddleAbsentOf(pos);
  }

  /** A text that matches the first and the seventh keyword of `ks` and no other scores 2. */
  lemma CountOfFirstAndSeventh(pos: string, ks: seq<string>)
    requires |ks| >= 7 && Contains(pos, ks[0]) && Contains(pos, ks[6])
    requires KeywordCount(pos, ks[1..6]) == 0 && KeywordCount(pos, ks[7..]) == 0
    ensures KeywordCount(pos, ks) == 2
  {
    assert ks == [ks[0]] + ks[1..6] + [ks[6]] + ks[7..];
    KeywordCountAppend(pos, [ks[0]] + ks[1..6] + [ks[6]], ks[7..]);
    KeywordCountAppend(pos, [ks[0]] + ks[1..6], [ks[6]]);
    KeywordCountAppend(pos, [ks[0]], ks[1..6]);
    KeywordCountOne(pos, ks[0]);
    KeywordCountOne(pos, ks[6]);
  }

  /** "data" and "scientist", the first and seventh role keywords, occur in "data scientist". */
  lemma DataScientistMatches()
    ensures Contains("data scientist", RoleKeywords[0]) && Contains("data scientist", RoleKeywords[6])
  {
    assert RoleKeywords[0] == "data" && RoleKeywords[6] == "scientist";
    assert "data scientist"[..4] == "data" && "data scientist"[5..14] == "scientist";
    ContainsFromOccurrence("data scientist", "data", 0);
    ContainsFromOccurrence("data scientist", "scientist", 5);
  }

  /** None of "machine learning", "ml", "ai", "analytics", "science" occurs in "data scientist". */
  lemma DataScientistMiddle()
    ensures KeywordCount("data scientist", RoleKeywords[1..6]) == 0
  {
    MiddleAbsent("data scientist", 5, 8);
  }

  /** None of the keywords after "scientist" occurs in "data scientist". */
  lemma DataScientistRest()
    ensures KeywordCount("data scientist", RoleKeywords[7..]) == 0
  {
    NoneOccur("data scientist", RoleKeywords[7..], "rlphghvr");
  }

  /** A data-science position matches exactly "data" and "scientist", so it scores 2. */
  lemma DataScientistScores()
    ensures Score(Some("Data Scientist")) == 2
  {
    DataScientistLower();
    DataScientistMatches();
    DataScientistMiddle();
    DataScientistRest();
    CountOfFirstAndSeventh("data scientist", RoleKeywords);
  }

  lemma ScoredOne(a: HunterEmail)
    ensures Scored([a]) == Candidate(a)
  {
    ScoredLast([a]);
    assert [a][..0] == [] && [a][0] == a;
  }

  lemma ScoredPair(a: HunterEmail, b: HunterEmail)
    ensures Scored([a, b]) == Candidate(a) + Candidate(b)
  {
    ScoredLast([a, b]);
    assert [a, b][..1] == [a] && [a, b][1] == b;
    ScoredOne(a);
  }

  lemma SalesRepDropped(e: HunterEmail)
    requires e.value == Some("rep@acme.com") && e.position == Some("Sales Rep")
    ensures Candidate(e) == []
  {
    SalesRepScoresZero();
  }

  lemma DataScientistKept(e: HunterEmail)
    requires e.value == Some("ada@acme.com") && e.position == Some("Data Scientist")
    ensures Candidate(e) == [Contact(FullName(e.firstName, e.lastName), "ada@acme.com", "Data Scientist",
                                     Score(Some("Data Scientist")))]
  {
    DataScientistScores();
  }

  /** Of a sales rep and a data scientist, only the data scientist is kept. */
  lemma OnlyRelevantPositionsKept(sales: HunterEmail, scientist: HunterEmail)
    requires sales == HunterEmail(Some("rep@acme.com"), Some("Sam"), None, Some("Sales Rep"))
    requires scientist == HunterEmail(Some("ada@acme.com"), Some("Ada"), Some("Lovelace"), Some("Data Scientist"))
    ensures Scored([sales, scientist])
            == [Contact(FullName(Some("Ada"), Some("Lovelace")), "ada@acme.com", "Data Scientist", Score(Some("Data Scientist")))]
  {
    ScoredPair(sales, scientist);
    SalesRepDropped(sales);
    DataScientistKept(scientist);
  }
}
