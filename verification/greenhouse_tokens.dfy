/**
 * Looking up a company's Greenhouse job-board token (`src/get_greenhouse_tokens.py`):
 * candidate board URLs are made from variants of the company name, each is
 * parsed, its first path segment checked against the token pattern and the
 * board confirmed with a HEAD request; the token column of a sheet of
 * companies is then filled in row by row.
 *
 * The HEAD request is a parameter (what it answers for each URL). The
 * Google Sheets calls, the credentials and the pause between lookups are
 * outside the model.
 */
module GreenhouseTokens {
  import opened Wrappers
  import opened Strings
  import UrlParse

  /** The host of Greenhouse job boards. */
  const BoardHost: string := "boards." + "greenhouse.io"

  /** Every candidate URL is this followed by a name variant. */
  const BoardPrefix: string := "https://" + BoardHost + "/"

  // ---------------------------------------------------------------------
  // Name variants and candidate URLs

  /** The length of the run of non-whitespace characters at the start of `s`. */
  function WordLength(s: string): (n: nat)
    ensures n <= |s|
    ensures forall j :: 0 <= j < n ==> !IsSpace(s[j])
    ensures n < |s| ==> IsSpace(s[n])
    decreases |s|
  {
    if s == [] || IsSpace(s[0]) then 0 else 1 + WordLength(s[1..])
  }

  /** `w` stands at position `k` of `s` with only whitespace before it and whitespace or the end after it. */
  predicate WordAt(s: string, k: int, w: string) {
    && 0 <= k && k + |w| <= |s| && s[k..k + |w|] == w
    && (forall j :: 0 <= j < k ==> IsSpace(s[j]))
    && (k + |w| < |s| ==> IsSpace(s[k + |w|]))
  }

  /**
   * `s.split()[0]`: the first maximal run of non-whitespace characters.
   * `None` is the `IndexError` raised when `s` has no word at all.
   */
  function FirstWord(s: string): (r: Option<string>)
    ensures r.None? <==> IsBlank(s)
    ensures r.Some? ==> exists k :: WordAt(s, k, r.value)
    ensures r.Some? ==> r.value != [] && forall j :: 0 <= j < |r.value| ==> !IsSpace(r.value[j])
  {
    var t := LStrip(s);
    if t == [] then None
    else
      WordAfterSpaces(s, t, WordLength(t));
      Some(t[..WordLength(t)])
  }

  /**
   * A word that starts a suffix `t` of `s` preceded only by whitespace, and
   * is followed in `t` by whitespace or the end, is a word of `s`.
   */
  lemma WordAfterSpaces(s: string, t: string, n: nat)
    requires |t| <= |s| && t == s[|s| - |t|..] && n <= |t|
    requires forall i :: 0 <= i < |s| - |t| ==> IsSpace(s[i])
    requires n < |t| ==> IsSpace(t[n])
    ensures WordAt(s, |s| - |t|, t[..n])
  {
    SliceWithin(s, t, |s| - |t|, n);
  }

  /** A prefix of a suffix is a slice. */
  lemma SliceWithin(s: string, t: string, k: nat, n: nat)
    requires k <= |s| && t == s[k..] && n <= |t|
    ensures s[k..k + n] == t[..n] && (n < |t| ==> s[k + n] == t[n])
  {
    forall j | 0 <= j < n ensures s[k..k + n][j] == t[..n][j] {
      assert s[k + j] == t[j];
    }
  }

  /** Lower-casing changes no character's whitespace-ness. */
  lemma BlankLower(s: string)
    ensures IsBlank(Lower(s)) <==> IsBlank(s)
  {
    forall i | 0 <= i < |s| ensures IsSpace(Lower(s)[i]) == IsSpace(s[i]) {
      LowerCharSpace(s[i]);
    }
  }

  /**
   * The three variants of `search_greenhouse_board`, each of the lower-cased
   * name: spaces removed, spaces turned into hyphens, and the first word.
   * `None` is the `IndexError` of a name with no word.
   */
  function Variants(name: string): (r: Option<seq<string>>)
    ensures r.None? <==> IsBlank(name)
    ensures r.Some? ==> |r.value| == 3 && ' ' !in r.value[0] && ' ' !in r.value[1] && r.value[2] != []
  {
    var lower := Lower(name);
    BlankLower(name);
    match FirstWord(lower)
    case None => None
    case Some(w) =>
      assert ' ' !in w by {
        forall j | 0 <= j < |w| ensures w[j] != ' ' {
          assert !IsSpace(w[j]);
        }
      }
      Some([Replace(lower, ' ', ""), Replace(lower, ' ', "-"), w])
  }

  /** The board URLs of a set of variants: one per non-empty variant. */
  function BoardUrls(variants: set<string>): set<string> {
    set v | v in variants && v != "" :: BoardPrefix + v
  }

  /** The URLs `search_greenhouse_board` returns for a name with a word in it, as a set. */
  function Candidates(name: string): set<string>
    requires !IsBlank(name)
  {
    var vs := Variants(name).value;
    BoardUrls({vs[0], vs[1], vs[2]})
  }

  predicate Distinct(s: seq<string>) {
    forall i, j :: 0 <= i < j < |s| ==> s[i] != s[j]
  }

  /** Different variants give different URLs. */
  lemma BoardPrefixInjective(v: string, w: string)
    requires BoardPrefix + v == BoardPrefix + w
    ensures v == w
  {
    assert v == (BoardPrefix + v)[|BoardPrefix|..];
    assert w == (BoardPrefix + w)[|BoardPrefix|..];
  }

  /**
   * The loop of `search_greenhouse_board`: the board URL of every non-empty
   * variant in the set, in the unspecified order of iterating over a set.
   */
  method CollectBoardUrls(variants: set<string>) returns (urls: seq<string>)
    ensures forall u :: u in urls <==> u in BoardUrls(variants)
    ensures Distinct(urls) && |urls| <= |variants|
  {
    var pending := variants;
    urls := [];
    while pending != {}
      invariant pending <= variants
      invariant forall u :: u in urls <==> u in BoardUrls(variants - pending)
      invariant Distinct(urls)
      invariant |urls| <= |variants - pending|
      decreases pending
    {
      var v :| v in pending;
      ghost var done := variants - pending;
      pending := pending - {v};
      assert variants - pending == done + {v};
      BoardUrlsAdd(done, v);
      if v != "" {
        var u := BoardPrefix + v;
        assert u !in urls by {
          assert u !in BoardUrls(done);
        }
        urls := urls + [u];
      }
    }
  }

  /** A variant not seen before adds its own URL, which is new, to the board URLs. */
  lemma BoardUrlsAdd(done: set<string>, v: string)
    requires v !in done
    ensures BoardUrls(done + {v}) == BoardUrls(done) + (if v != "" then {BoardPrefix + v} else {})
    ensures v != "" ==> BoardPrefix + v !in BoardUrls(done)
  {
    if v != "" && BoardPrefix + v in BoardUrls(done) {
      var w :| w in done && w != "" && BoardPrefix + w == BoardPrefix + v;
      BoardPrefixInjective(v, w);
    }
  }

  /**
   * `search_greenhouse_board(company_name)`: the board URL of every distinct
   * non-empty variant, in set order; `None` when the name has no word (the
   * `IndexError`).
   */
  method SearchGreenhouseBoard(name: string) returns (urls: Option<seq<string>>)
    ensures urls.None? <==> IsBlank(name)
    ensures urls.Some? ==> |urls.value| <= 3 && Distinct(urls.value)
    ensures urls.Some? ==> (set u | u in urls.value) == Candidates(name)
  {
    var variants := Variants(name);
    if variants.None? {
      return None;
    }
    var vs := variants.value;
    var found := CollectBoardUrls({vs[0], vs[1], vs[2]});
    assert |{vs[0], vs[1], vs[2]}| <= 3;
    assert (set u | u in found) == BoardUrls({vs[0], vs[1], vs[2]});
    return Some(found);
  }

  // ---------------------------------------------------------------------
  // Extracting a token from a URL

  /** What the HEAD request did: raised (timeout, connection error, ...) or answered with a status. */
  datatype HeadReply = HeadRaised | HeadStatus(code: int)

  /** A board that answers 200, or 403 (access restricted), exists. */
  predicate BoardExists(reply: HeadReply) {
    reply.HeadStatus? && (reply.code == 200 || reply.code == 403)
  }

  predicate IsTokenChar(c: char) {
    'a' <= c <= 'z' || 'A' <= c <= 'Z' || '0' <= c <= '9' || c == '-'
  }

  /** A board token: one or more letters, digits and hyphens. */
  predicate IsToken(t: string) {
    t != [] && forall i :: 0 <= i < |t| ==> IsTokenChar(t[i])
  }

  /** `re.match(r"^[a-zA-Z0-9\-]+$", t)`: `$` also matches just before a final newline. */
  predicate TokenPatternMatches(t: string) {
    IsToken(t) || (|t| >= 2 && t[|t| - 1] == '\n' && IsToken(t[..|t| - 1]))
  }

  /** `s.lstrip(c)` */
  function LStripChar(s: string, c: char): (r: string)
    ensures |r| <= |s| && r == s[|s| - |r|..]
    ensures r == [] || r[0] != c
    ensures forall i :: 0 <= i < |s| - |r| ==> s[i] == c
    decreases |s|
  {
    if s != [] && s[0] == c then LStripChar(s[1..], c) else s
  }

  /** `s.rstrip(c)` */
  function RStripChar(s: string, c: char): (r: string)
    ensures |r| <= |s| && r == s[..|r|]
    ensures r == [] || r[|r| - 1] != c
    ensures forall i :: |r| <= i < |s| ==> s[i] == c
    decreases |s|
  {
    if s != [] && s[|s| - 1] == c then RStripChar(s[..|s| - 1], c) else s
  }

  /** `s.strip(c)`: `s` without the runs of `c` at either end. */
  function StripChar(s: string, c: char): (r: string)
    ensures r == [] || (r[0] != c && r[|r| - 1] != c)
    ensures forall x :: x in r ==> x in s
  {
    var l := LStripChar(s, c);
    var r := RStripChar(l, c);
    assert forall x :: x in r ==> x in l;
    r
  }

  /** `s.split("/")[0]`: everything before the first slash. */
  function FirstSegment(s: string): (r: string)
    ensures |r| <= |s| && r == s[..|r|] && '/' !in r
    ensures |r| < |s| ==> s[|r|] == '/'
  {
    var i := UrlParse.FirstIn(s, {'/'});
    assert forall j :: 0 <= j < i ==> s[..i][j] == s[j];
    s[..i]
  }

  /** `FirstSegment` is indeed the first piece of splitting on `/`. */
  lemma {:induction false} FirstSegmentIsSplitHead(s: string)
    ensures FirstSegment(s) == Split(s, '/')[0]
    decreases |s|
  {
    if s != [] && s[0] != '/' {
      FirstSegmentIsSplitHead(s[1..]);
      assert UrlParse.FirstIn(s, {'/'}) == 1 + UrlParse.FirstIn(s[1..], {'/'});
      assert s[..UrlParse.FirstIn(s, {'/'})] == [s[0]] + s[1..][..UrlParse.FirstIn(s[1..], {'/'})];
    }
  }

  /** What `extract_greenhouse_token_from_url` does. */
  datatype Extraction =
    | InvalidUrl                        // `urlparse` raised `ValueError`
    | Extracted(token: Option<string>)

  /**
   * `extract_greenhouse_token_from_url(url)`: the first segment of the URL's
   * path, when the host is a Greenhouse board host, the segment has the
   * token's form and the HEAD request finds the board.
   */
  function ExtractToken(url: string, head: string -> HeadReply): (r: Extraction)
    ensures r.InvalidUrl? <==> UrlParse.Parse(url).None?
    ensures r.Extracted? && r.token.Some? ==>
              && IsToken(r.token.value)
              && BoardExists(head(url))
              && Contains(UrlParse.Parse(url).value.netloc, BoardHost)
  {
    match UrlParse.Parse(url)
    case None => InvalidUrl
    case Some(p) =>
      if !Contains(p.netloc, BoardHost) then Extracted(None)
      else
        var path := StripChar(p.path, '/');
        if path == "" then Extracted(None)
        else
          var token := FirstSegment(path);
          if !TokenPatternMatches(token) then Extracted(None)
          else if !BoardExists(head(url)) then Extracted(None)
          else
            UrlParse.ParsedPathClean(url);
            assert '\n' !in token by {
              assert forall x :: x in token ==> x in path;
            }
            Extracted(Some(token))
  }

  /** `t` stands at position `k` of `path` with only slashes before it and a slash or the end after it. */
  predicate SegmentAt(path: string, k: int, t: string) {
    && 0 <= k && k + |t| <= |path| && path[k..k + |t|] == t
    && (forall j :: 0 <= j < k ==> path[j] == '/')
    && (k + |t| < |path| ==> path[k + |t|] == '/')
  }

  /**
   * A returned token is what follows the leading slashes of the URL's path,
   * up to the next slash or the end.
   */
  lemma ExtractedTokenIsFirstSegment(url: string, head: string -> HeadReply, t: string)
    requires ExtractToken(url, head) == Extracted(Some(t))
    ensures exists k :: SegmentAt(UrlParse.Parse(url).value.path, k, t)
  {
    var path := UrlParse.Parse(url).value.path;
    TokenFromPath(path, t);
  }

  /** The first segment of a path stripped of slashes stands after the leading slashes. */
  lemma TokenFromPath(path: string, t: string)
    requires StripChar(path, '/') != [] && t == FirstSegment(StripChar(path, '/'))
    ensures exists k :: SegmentAt(path, k, t)
  {
    var l := LStripChar(path, '/');
    var s := RStripChar(l, '/');
    assert StripChar(path, '/') == s;
    assert t == l[..|t|];
    if |t| < |l| {
      if |t| < |s| {
        assert l[|t|] == s[|t|];
      }
    }
    SegmentInSuffix(path, l, t);
  }

  /**
   * A prefix `t` of the suffix `l` of `path` that follows only slashes, and
   * is followed by a slash or the end, is a segment of `path`.
   */
  lemma SegmentInSuffix(path: string, l: string, t: string)
    requires |l| <= |path| && l == path[|path| - |l|..]
    requires forall j :: 0 <= j < |path| - |l| ==> path[j] == '/'
    requires |t| <= |l| && t == l[..|t|] && (|t| < |l| ==> l[|t|] == '/')
    ensures SegmentAt(path, |path| - |l|, t)
  {
    var k := |path| - |l|;
    assert path[k..k + |t|] == t;
    if |t| < |l| {
      assert path[k + |t|] == l[|t|];
    }
  }

  /** Every candidate URL parses, with the board host as its netloc. */
  lemma BoardUrlParses(v: string)
    ensures UrlParse.Parse(BoardPrefix + v).Some?
    ensures UrlParse.Parse(BoardPrefix + v).value.netloc == BoardHost
  {
    var path := "/" + UrlParse.RemoveUnsafe(v);
    BoardUrlCleaned(v);
    BoardHostClean();
    HostOfCleanUrl(BoardPrefix + v, path);
  }

  /** The literal pieces of a candidate URL hold none of the characters `urlparse` treats specially. */
  lemma BoardHostClean()
    ensures BoardHost != [] && UrlParse.Avoids(BoardHost, {'/', '?', '#', '[', ']', '\t', '\r', '\n'})
    ensures UrlParse.Avoids(BoardPrefix, {'\t', '\r', '\n'})
  {
  }

  /** Cleaning a candidate URL only cleans its variant. */
  lemma BoardUrlCleaned(v: string)
    ensures UrlParse.RemoveUnsafe(UrlParse.LStripC0(BoardPrefix + v))
            == "https://" + BoardHost + ("/" + UrlParse.RemoveUnsafe(v))
  {
    var url := BoardPrefix + v;
    assert UrlParse.LStripC0(url) == url;
    BoardHostClean();
    UrlParse.RemoveUnsafeUnchanged(BoardPrefix);
    UrlParse.RemoveUnsafeAppend(BoardPrefix, v);
  }

  /** A URL that cleans to `https://` + the board host + a path starting with `/` parses with that host. */
  lemma HostOfCleanUrl(url: string, path: string)
    requires UrlParse.RemoveUnsafe(UrlParse.LStripC0(url)) == "https://" + BoardHost + path
    requires path != [] && path[0] == '/'
    requires UrlParse.Avoids(BoardHost, {'/', '?', '#', '[', ']', '\t', '\r', '\n'})
    ensures UrlParse.Parse(url).Some? && UrlParse.Parse(url).value.netloc == BoardHost
  {
    UrlParse.SchemeOfHttps(BoardHost, path);
    UrlParse.AvoidsSubset(BoardHost, {'/', '?', '#', '[', ']', '\t', '\r', '\n'}, {'/', '?', '#'});
    UrlParse.NetlocOfHttps(BoardHost, path);
    UrlParse.ParseFromParts(url, "https", "//" + BoardHost + path, BoardHost, path);
  }

  /** The board host contains itself, so candidate URLs pass the host check. */
  lemma BoardHostContained()
    ensures Contains(BoardHost, BoardHost)
  {
    assert BoardHost[0..|BoardHost|] == BoardHost;
    ContainsFromOccurrence(BoardHost, BoardHost, 0);
  }

  /**
   * The round trip: from the board URL of a token, the token itself is
   * extracted exactly when the board exists.
   */
  lemma ExtractFromBoardUrl(v: string, head: string -> HeadReply)
    requires IsToken(v)
    ensures ExtractToken(BoardPrefix + v, head)
            == Extracted(if BoardExists(head(BoardPrefix + v)) then Some(v) else None)
  {
    TokenBoardUrlParses(v);
    BoardHostContained();
    TokenPathStrips(v);
    ExtractWhenParsed(BoardPrefix + v, head, UrlParse.ParsedUrl("https", BoardHost, "/" + v, "", "", ""), v);
  }

  /** The board URL of a token parses into the board host and the path `/` + token. */
  lemma TokenBoardUrlParses(v: string)
    requires IsToken(v)
    ensures UrlParse.Parse(BoardPrefix + v) == Some(UrlParse.ParsedUrl("https", BoardHost, "/" + v, "", "", ""))
  {
    BoardHostClean();
    TokenPathPlain(v);
    UrlParse.HttpsHostAndPath(BoardHost, "/" + v);
    BoardUrlSplit(v);
  }

  /** A candidate URL is `https://`, the board host and the path `/` + variant. */
  lemma BoardUrlSplit(v: string)
    ensures BoardPrefix + v == "https://" + BoardHost + ("/" + v)
  {
  }

  /** A token holds no character that would end or split a URL path. */
  lemma TokenPathPlain(v: string)
    requires IsToken(v)
    ensures UrlParse.Avoids("/" + v, {'?', '#', ';', '\t', '\r', '\n'})
  {
    forall i | 0 <= i < |v| ensures v[i] !in {'?', '#', ';', '\t', '\r', '\n'} {
      assert IsTokenChar(v[i]);
    }
    UrlParse.AvoidsAppend("/", v, {'?', '#', ';', '\t', '\r', '\n'});
  }

  /** The path `/` + token strips to the token, which is its own first segment and matches the pattern. */
  lemma TokenPathStrips(v: string)
    requires IsToken(v)
    ensures StripChar("/" + v, '/') == v && FirstSegment(v) == v && TokenPatternMatches(v)
  {
    assert forall i :: 0 <= i < |v| ==> v[i] != '/' by {
      forall i | 0 <= i < |v| ensures v[i] != '/' {
        assert IsTokenChar(v[i]);
      }
    }
    SlashThenSegment(v);
    WholeSegment(v);
  }

  /** `/` + a non-empty string with no slash at either end strips to that string. */
  lemma SlashThenSegment(v: string)
    requires v != [] && v[0] != '/' && v[|v| - 1] != '/'
    ensures StripChar("/" + v, '/') == v
  {
    assert ("/" + v)[1..] == v;
    assert LStripChar("/" + v, '/') == v;
  }

  /** A string with no slash is its own first segment. */
  lemma WholeSegment(v: string)
    requires forall i :: 0 <= i < |v| ==> v[i] != '/'
    ensures FirstSegment(v) == v
  {
    assert v[..|v|] == v;
  }

  /** The outcome of extraction once the URL's parse and its token are known. */
  lemma ExtractWhenParsed(url: string, head: string -> HeadReply, p: UrlParse.ParsedUrl, t: string)
    requires UrlParse.Parse(url) == Some(p) && Contains(p.netloc, BoardHost)
    requires StripChar(p.path, '/') == t && t != "" && FirstSegment(t) == t && TokenPatternMatches(t)
    ensures ExtractToken(url, head) == Extracted(if BoardExists(head(url)) then Some(t) else None)
  {
  }

  // ---------------------------------------------------------------------
  // Looking a company up

  /**
   * What `find_greenhouse_token_for_company` may return, whichever order the
   * set of candidate URLs is visited in: nothing for a name with no word;
   * otherwise a token some candidate yields, or nothing when none yields one.
   */
  predicate LookupResult(name: string, head: string -> HeadReply, token: Option<string>) {
    if IsBlank(name) then token.None?
    else if token.Some? then exists u :: u in Candidates(name) && ExtractToken(u, head) == Extracted(token)
    else forall u :: u in Candidates(name) ==> ExtractToken(u, head) == Extracted(None)
  }

  /** No candidate URL makes `urlparse` raise. */
  lemma CandidatesParse(name: string, head: string -> HeadReply)
    requires !IsBlank(name)
    ensures forall u :: u in Candidates(name) ==> ExtractToken(u, head).Extracted?
  {
    forall u | u in Candidates(name) ensures ExtractToken(u, head).Extracted? {
      var vs := Variants(name).value;
      var v :| v in {vs[0], vs[1], vs[2]} && v != "" && BoardPrefix + v == u;
      BoardUrlParses(v);
    }
  }

  /**
   * The loop of `find_greenhouse_token_for_company`: the token of the first
   * URL that yields one. No URL it is given makes `urlparse` raise.
   */
  method FirstToken(urls: seq<string>, extract: string -> Extraction) returns (token: Option<string>)
    requires forall j :: 0 <= j < |urls| ==> extract(urls[j]).Extracted?
    ensures token.Some? ==>
              exists j :: 0 <= j < |urls| && extract(urls[j]) == Extracted(token)
                          && forall k :: 0 <= k < j ==> extract(urls[k]) == Extracted(None)
    ensures token.None? ==> forall j :: 0 <= j < |urls| ==> extract(urls[j]) == Extracted(None)
  {
    var i := 0;
    while i < |urls|
      invariant 0 <= i <= |urls|
      invariant forall j :: 0 <= j < i ==> extract(urls[j]) == Extracted(None)
    {
      var extraction := extract(urls[i]);
      if extraction.token.Some? {
        // a returned token is never empty, so it is always truthy
        return extraction.token;
      }
      i := i + 1;
    }
    return None;
  }

  /**
   * `find_greenhouse_token_for_company(company_name)`: the first candidate
   * URL, in iteration order, that yields a token; `None` when the name has
   * no word (the search raised) or no candidate yields one.
   */
  method FindTokenForCompany(name: string, head: string -> HeadReply) returns (token: Option<string>)
    ensures LookupResult(name, head, token)
    ensures token.Some? ==> IsToken(token.value)
  {
    var urls := SearchGreenhouseBoard(name);
    if urls.None? {
      return None;
    }
    ScanCandidatesParse(name, head, urls.value);
    token := FirstToken(urls.value, url => ExtractToken(url, head));
    LookupFromScan(name, head, urls.value, token);
  }

  /** Each URL of the search parses. */
  lemma ScanCandidatesParse(name: string, head: string -> HeadReply, urls: seq<string>)
    requires !IsBlank(name) && (set u | u in urls) == Candidates(name)
    ensures forall j :: 0 <= j < |urls| ==> ExtractToken(urls[j], head).Extracted?
  {
    CandidatesParse(name, head);
    forall j | 0 <= j < |urls| ensures ExtractToken(urls[j], head).Extracted? {
      assert urls[j] in set u | u in urls;
    }
  }

  /** Scanning the URLs of the search in any order gives a lookup result. */
  lemma LookupFromScan(name: string, head: string -> HeadReply, urls: seq<string>, token: Option<string>)
    requires !IsBlank(name) && (set u | u in urls) == Candidates(name)
    requires token.Some? ==> exists j :: 0 <= j < |urls| && ExtractToken(urls[j], head) == Extracted(token)
    requires token.None? ==> forall j :: 0 <= j < |urls| ==> ExtractToken(urls[j], head) == Extracted(None)
    ensures LookupResult(name, head, token)
    ensures token.Some? ==> IsToken(token.value)
  {
    if token.Some? {
      var j :| 0 <= j < |urls| && ExtractToken(urls[j], head) == Extracted(token);
      assert urls[j] in set u | u in urls;
    } else {
      forall u | u in Candidates(name) ensures ExtractToken(u, head) == Extracted(None) {
        assert u in set x | x in urls;
        var j :| 0 <= j < |urls| && urls[j] == u;
      }
    }
  }

  /**
   * A one-word name that is already a lower-case token has a single
   * candidate, its own board URL: the lookup then finds the name itself
   * exactly when that board exists.
   */
  lemma SingleWordLookup(name: string, head: string -> HeadReply, token: Option<string>)
    requires IsToken(name) && NoUpper(name)
    requires LookupResult(name, head, token)
    ensures token == if BoardExists(head(BoardPrefix + name)) then Some(name) else None
  {
    CandidatesOfToken(name);
    var extract := u => ExtractToken(u, head);
    SingleCandidate(Candidates(name), BoardPrefix + name, extract, token);
    ExtractFromBoardUrl(name, head);
  }

  /** A lower-case token's only candidate URL is its own board URL. */
  lemma CandidatesOfToken(name: string)
    requires IsToken(name) && NoUpper(name)
    ensures !IsBlank(name) && Candidates(name) == {BoardPrefix + name}
  {
    VariantsOfToken(name);
    assert {name, name, name} == {name};
  }

  /** With a single candidate, the lookup's answer is what extraction gives for it. */
  lemma SingleCandidate(candidates: set<string>, u: string, extract: string -> Extraction, token: Option<string>)
    requires candidates == {u}
    requires token.Some? ==> exists x :: x in candidates && extract(x) == Extracted(token)
    requires token.None? ==> forall x :: x in candidates ==> extract(x) == Extracted(None)
    ensures extract(u) == Extracted(token)
  {
  }

  /** The three variants of a lower-case token are the token itself. */
  lemma VariantsOfToken(name: string)
    requires IsToken(name) && NoUpper(name)
    ensures !IsBlank(name) && Variants(name) == Some([name, name, name])
  {
    assert forall j :: 0 <= j < |name| ==> !IsSpace(name[j]) && name[j] != ' ' by {
      forall j | 0 <= j < |name| ensures !IsSpace(name[j]) && name[j] != ' ' {
        assert IsTokenChar(name[j]);
      }
    }
    assert !IsSpace(name[0]);
    LowerUnchanged(name);
    ReplaceAbsent(name, ' ', "");
    ReplaceAbsent(name, ' ', "-");
    FirstWordWhole(name);
  }

  /** A non-empty string without whitespace is its own first word. */
  lemma FirstWordWhole(s: string)
    requires s != [] && forall j :: 0 <= j < |s| ==> !IsSpace(s[j])
    ensures FirstWord(s) == Some(s)
  {
    assert LStrip(s) == s;
    WordLengthWhole(s);
    assert s[..|s|] == s;
  }

  lemma {:induction false} WordLengthWhole(s: string)
    requires forall j :: 0 <= j < |s| ==> !IsSpace(s[j])
    ensures WordLength(s) == |s|
    decreases |s|
  {
    if s != [] {
      WordLengthWhole(s[1..]);
    }
  }

  lemma {:induction false} ReplaceAbsent(s: string, c: char, with: string)
    requires c !in s
    ensures Replace(s, c, with) == s
    decreases |s|
  {
    if s != [] {
      ReplaceAbsent(s[1..], c, with);
      assert [s[0]] + s[1..] == s;
    }
  }

  // ---------------------------------------------------------------------
  // Filling in the token column of the sheet

  const CompanyColumn: string := "company_" + "name"
  const TokenColumn: string := "greenhouse_" + "board_token"

  /** `headers.index(x)`: the first position of `x`. */
  function IndexOf(headers: seq<string>, x: string): (i: nat)
    requires x in headers
    ensures i < |headers| && headers[i] == x
    ensures forall j :: 0 <= j < i ==> headers[j] != x
    decreases |headers|
  {
    if headers[0] == x then 0 else 1 + IndexOf(headers[1..], x)
  }

  /** The header row once the token column is ensured: appended at the end when missing. */
  function WithTokenColumn(headers: seq<string>): seq<string> {
    if TokenColumn in headers then headers else headers + [TokenColumn]
  }

  /**
   * Ensuring the token column keeps every existing header where it was, so
   * the company column keeps its position, and a new token column is the last one.
   */
  lemma WithTokenColumnIndices(headers: seq<string>)
    requires CompanyColumn in headers
    ensures var h := WithTokenColumn(headers);
            && TokenColumn in h && CompanyColumn in h
            && h[..|headers|] == headers
            && IndexOf(h, CompanyColumn) == IndexOf(headers, CompanyColumn)
            && (TokenColumn !in headers ==> IndexOf(h, TokenColumn) == |headers|)
            && IndexOf(h, TokenColumn) != IndexOf(h, CompanyColumn)
  {
    var h := WithTokenColumn(headers);
    var c := IndexOf(headers, CompanyColumn);
    assert h[c] == CompanyColumn;
    IndexOfFirst(h, CompanyColumn, c);
    if TokenColumn !in headers {
      IndexOfFirst(h, TokenColumn, |headers|);
    }
    assert CompanyColumn != TokenColumn by {
      assert CompanyColumn[0] == 'c' && TokenColumn[0] == 'g';
    }
  }

  /** `IndexOf` is pinned down by the first occurrence. */
  lemma {:induction false} IndexOfFirst(headers: seq<string>, x: string, i: nat)
    requires i < |headers| && headers[i] == x && forall j :: 0 <= j < i ==> headers[j] != x
    ensures IndexOf(headers, x) == i
    decreases i
  {
    if i > 0 {
      IndexOfFirst(headers[1..], x, i - 1);
    }
  }

  /** `rows[:limit]` when `limit` is given and non-zero (the `if args.limit:` test), all rows otherwise. */
  function RowsToProcess(rows: seq<seq<string>>, limit: Option<int>): (r: seq<seq<string>>)
    ensures limit.None? || limit == Some(0) ==> r == rows
    ensures limit.Some? && limit.value > 0 ==> r == rows[..Min(limit.value, |rows|)]
    ensures limit.Some? && limit.value < 0 ==> r == rows[..if |rows| + limit.value >= 0 then |rows| + limit.value else 0]
  {
    if limit.Some? && limit.value != 0 then PyPrefix(rows, limit.value) else rows
  }

  /** The row with `""` appended until `colIdx` is a valid position. */
  function Pad(row: seq<string>, colIdx: nat): (r: seq<string>)
    ensures |r| == if |row| > colIdx then |row| else colIdx + 1
    ensures forall j :: 0 <= j < |row| ==> r[j] == row[j]
    ensures forall j :: |row| <= j < |r| ==> r[j] == ""
  {
    if |row| > colIdx then row else row + seq(colIdx + 1 - |row|, _ => "")
  }

  /** The stripped company cell, empty when the row is too short to have one. */
  function Company(row: seq<string>, companyIdx: nat): string {
    Strip(if companyIdx < |row| then row[companyIdx] else "")
  }

  /** The row names a company and has no token yet, so it is looked up. */
  predicate NeedsLookup(row: seq<string>, colIdx: nat, companyIdx: nat) {
    Company(row, companyIdx) != "" && !(colIdx < |row| && Strip(row[colIdx]) != "")
  }

  /**
   * What the loop does to one row: pad it; then, when it is looked up, put
   * the token found (or `""`) in the token cell; leave it as padded otherwise.
   */
  ghost predicate RowUpdated(before: seq<string>, after: seq<string>, colIdx: nat, companyIdx: nat,
                       head: string -> HeadReply)
  {
    var padded := Pad(before, colIdx);
    if NeedsLookup(padded, colIdx, companyIdx) then
      exists t :: LookupResult(Company(padded, companyIdx), head, t)
                  && after == padded[colIdx := if t.Some? then t.value else ""]
    else after == padded
  }

  /** The number of rows the loop looks up. */
  function CountLookups(rows: seq<seq<string>>, colIdx: nat, companyIdx: nat): (n: nat)
    ensures n <= |rows|
  {
    if rows == [] then 0
    else CountLookups(rows[..|rows| - 1], colIdx, companyIdx)
         + (if NeedsLookup(Pad(rows[|rows| - 1], colIdx), colIdx, companyIdx) then 1 else 0)
  }

  /** `while len(row) <= col_idx: row.append("")`. */
  method PadRow(before: seq<string>, colIdx: nat) returns (row: seq<string>)
    ensures row == Pad(before, colIdx)
  {
    row := before;
    while |row| <= colIdx
      invariant |before| <= |row| <= if |before| > colIdx then |before| else colIdx + 1
      invariant row == before + seq(|row| - |before|, _ => "")
      decreases colIdx + 1 - |row|
    {
      row := row + [""];
    }
  }

  /**
   * The body of the row loop of `main`: pad the row, then look the company
   * up when the row names one and has no token yet. `looked` tells whether
   * the row counts as processed.
   */
  method UpdateRow(before: seq<string>, colIdx: nat, companyIdx: nat, head: string -> HeadReply)
    returns (row: seq<string>, looked: bool)
    ensures RowUpdated(before, row, colIdx, companyIdx, head)
    ensures looked == NeedsLookup(Pad(before, colIdx), colIdx, companyIdx)
  {
    row := PadRow(before, colIdx);
    var company := Strip(if companyIdx < |row| then row[companyIdx] else "");
    if company == "" || (colIdx < |row| && Strip(row[colIdx]) != "") {
      looked := false;
      RowKept(before, colIdx, companyIdx, head);
    } else {
      var token := FindTokenForCompany(company, head);
      RowLookedUp(before, token, colIdx, companyIdx, head);
      row := row[colIdx := if token.Some? then token.value else ""];
      looked := true;
    }
  }

  lemma RowKept(before: seq<string>, colIdx: nat, companyIdx: nat, head: string -> HeadReply)
    requires !NeedsLookup(Pad(before, colIdx), colIdx, companyIdx)
    ensures RowUpdated(before, Pad(before, colIdx), colIdx, companyIdx, head)
  {
  }

  lemma RowLookedUp(before: seq<string>, token: Option<string>, colIdx: nat, companyIdx: nat,
                    head: string -> HeadReply)
    requires NeedsLookup(Pad(before, colIdx), colIdx, companyIdx)
    requires LookupResult(Company(Pad(before, colIdx), companyIdx), head, token)
    ensures RowUpdated(before, Pad(before, colIdx)[colIdx := if token.Some? then token.value else ""],
                       colIdx, companyIdx, head)
  {
  }

  /** Position by position, `rel` holds between the rows of `xs` and those of `ys`. */
  ghost predicate Pairwise(xs: seq<seq<string>>, ys: seq<seq<string>>, rel: (seq<string>, seq<string>) -> bool) {
    |xs| == |ys| && forall j :: 0 <= j < |xs| ==> rel(xs[j], ys[j])
  }

  lemma PairwiseSnoc(xs: seq<seq<string>>, ys: seq<seq<string>>, x: seq<string>, y: seq<string>,
                     rel: (seq<string>, seq<string>) -> bool)
    requires Pairwise(xs, ys, rel) && rel(x, y)
    ensures Pairwise(xs + [x], ys + [y], rel)
  {
    forall j | 0 <= j < |xs| + 1 ensures rel((xs + [x])[j], (ys + [y])[j]) {
      if j < |xs| {
        assert (xs + [x])[j] == xs[j] && (ys + [y])[j] == ys[j];
      }
    }
  }

  /** `RowUpdated` as a relation between a row before and after the loop body. */
  ghost function RowRelation(colIdx: nat, companyIdx: nat, head: string -> HeadReply)
    : (seq<string>, seq<string>) -> bool
  {
    (before, after) => RowUpdated(before, after, colIdx, companyIdx, head)
  }

  /** Row by row, `after` is `before` updated. */
  ghost predicate RowsUpdated(before: seq<seq<string>>, after: seq<seq<string>>, colIdx: nat, companyIdx: nat,
                              head: string -> HeadReply)
  {
    Pairwise(before, after, RowRelation(colIdx, companyIdx, head))
  }

  /** Appending the next updated row keeps the loop's row-by-row relation. */
  lemma PairwiseLoopStep(rows: seq<seq<string>>, i: nat, updated: seq<seq<string>>, row: seq<string>,
                         rel: (seq<string>, seq<string>) -> bool)
    requires i < |rows| && |updated| == i + 1
    requires Pairwise(rows[..i], updated[1..], rel) && rel(rows[i], row)
    ensures Pairwise(rows[..i + 1], (updated + [row])[1..], rel)
  {
    PairwiseSnoc(rows[..i], updated[1..], rows[i], row, rel);
    assert rows[..i + 1] == rows[..i] + [rows[i]];
    assert (updated + [row])[1..] == updated[1..] + [row];
  }

  /** The lookup count over one more row. */
  lemma CountLookupsStep(rows: seq<seq<string>>, i: nat, colIdx: nat, companyIdx: nat)
    requires i < |rows|
    ensures CountLookups(rows[..i + 1], colIdx, companyIdx)
            == CountLookups(rows[..i], colIdx, companyIdx)
               + (if NeedsLookup(Pad(rows[i], colIdx), colIdx, companyIdx) then 1 else 0)
  {
    assert rows[..i + 1][..i] == rows[..i];
  }

  /**
   * The row loop of `main`: every row is updated (padded, and filled in when
   * looked up) and appended to the rows written back after the header row;
   * the processed count is the number of lookups.
   */
  method UpdateRows(rows: seq<seq<string>>, headers: seq<string>, colIdx: nat, companyIdx: nat,
                    head: string -> HeadReply)
    returns (updated: seq<seq<string>>, processed: nat)
    ensures |updated| == |rows| + 1 && updated[0] == headers
    ensures RowsUpdated(rows, updated[1..], colIdx, companyIdx, head)
    ensures processed == CountLookups(rows, colIdx, companyIdx)
  {
    updated := [headers];
    processed := 0;
    var i := 0;
    while i < |rows|
      invariant 0 <= i <= |rows|
      invariant |updated| == i + 1 && updated[0] == headers
      invariant RowsUpdated(rows[..i], updated[1..], colIdx, companyIdx, head)
      invariant processed == CountLookups(rows[..i], colIdx, companyIdx)
    {
      var row, looked := UpdateRow(rows[i], colIdx, companyIdx, head);
      if looked {
        processed := processed + 1;
      }
      PairwiseLoopStep(rows, i, updated, row, RowRelation(colIdx, companyIdx, head));
      CountLookupsStep(rows, i, colIdx, companyIdx);
      updated := updated + [row];
      i := i + 1;
    }
    assert rows[..|rows|] == rows;
  }

  /** What `main` does with the sheet it read. */
  datatype SheetUpdate =
    | NoData                     // the sheet is empty: nothing is written
    | MissingCompanyColumn       // `ValueError`
    | Written(headerWritten: bool, values: seq<seq<string>>, processed: nat)

  /**
   * `main` after reading the sheet: ensure the token column (written back
   * at once when it had to be added), keep the first `limit` rows when a
   * limit is given, fill them in and write the header and those rows back.
   */
  method UpdateSheet(values: seq<seq<string>>, limit: Option<int>, head: string -> HeadReply)
    returns (r: SheetUpdate)
    ensures r.NoData? <==> values == []
    ensures r.MissingCompanyColumn? <==> values != [] && CompanyColumn !in values[0]
    ensures r.Written? ==>
              values != [] && CompanyColumn in values[0]
              && r.headerWritten == (TokenColumn !in values[0])
              && var headers := WithTokenColumn(values[0]);
                 var todo := RowsToProcess(values[1..], limit);
                 var colIdx := IndexOf(headers, TokenColumn);
                 var companyIdx := IndexOf(headers, CompanyColumn);
                 && |r.values| == |todo| + 1 && r.values[0] == headers
                 && RowsUpdated(todo, r.values[1..], colIdx, companyIdx, head)
                 && r.processed == CountLookups(todo, colIdx, companyIdx)
  {
    if values == [] {
      return NoData;
    }
    var headers := values[0];
    if CompanyColumn !in headers {
      return MissingCompanyColumn;
    }
    var headerWritten := false;
    if TokenColumn !in headers {
      headers := headers + [TokenColumn];
      headerWritten := true;
    }
    var colIdx := IndexOf(headers, TokenColumn);
    var companyIdx := IndexOf(headers, CompanyColumn);
    var todo := RowsToProcess(values[1..], limit);
    var updated, processed := UpdateRows(todo, headers, colIdx, companyIdx, head);
    return Written(headerWritten, updated, processed);
  }

  // ---------------------------------------------------------------------
  // Properties of the row update

  /**
   * The update only pads the row and, for a looked-up row, sets the token
   * cell: every other cell keeps its value, and the new cells are empty.
   */
  lemma OnlyTokenCellChanges(before: seq<string>, after: seq<string>, colIdx: nat, companyIdx: nat,
                             head: string -> HeadReply)
    requires RowUpdated(before, after, colIdx, companyIdx, head)
    ensures |after| == if |before| > colIdx then |before| else colIdx + 1
    ensures forall j :: 0 <= j < |before| && j != colIdx ==> after[j] == before[j]
    ensures forall j :: |before| <= j < |after| && j != colIdx ==> after[j] == ""
  {
    var padded := Pad(before, colIdx);
    if NeedsLookup(padded, colIdx, companyIdx) {
      var t :| LookupResult(Company(padded, companyIdx), head, t)
               && after == padded[colIdx := if t.Some? then t.value else ""];
    }
  }

  /** A row that already has a token keeps it. */
  lemma ExistingTokenKept(before: seq<string>, after: seq<string>, colIdx: nat, companyIdx: nat,
                          head: string -> HeadReply)
    requires RowUpdated(before, after, colIdx, companyIdx, head)
    requires colIdx < |before| && Strip(before[colIdx]) != ""
    ensures after == before
  {
  }

  /** The token cell of a looked-up row ends up empty or holding a well-formed token. */
  lemma WrittenTokenWellFormed(before: seq<string>, after: seq<string>, colIdx: nat, companyIdx: nat,
                               head: string -> HeadReply)
    requires RowUpdated(before, after, colIdx, companyIdx, head)
    requires NeedsLookup(Pad(before, colIdx), colIdx, companyIdx)
    ensures after[colIdx] == "" || IsToken(after[colIdx])
  {
    var padded := Pad(before, colIdx);
    var t :| LookupResult(Company(padded, companyIdx), head, t)
             && after == padded[colIdx := if t.Some? then t.value else ""];
    if t.Some? {
      var u :| u in Candidates(Company(padded, companyIdx)) && ExtractToken(u, head) == Extracted(t);
    }
  }
}
