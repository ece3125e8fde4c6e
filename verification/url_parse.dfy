/**
 * `urllib.parse.urlparse` as CPython 3.12 computes it, reduced to what the
 * repository reads from its result (`netloc` and `path`). Steps, in order:
 * drop leading C0-control-or-space characters, remove every tab, CR and LF,
 * split off a scheme (`letters/digits/+-.` before the first `:`, starting with
 * a letter), split off `//netloc` (up to the first `/`, `?` or `#`), raise
 * `ValueError` when the netloc has one square bracket without the other, split
 * off `#fragment`, then `?query`, then `;params` for the schemes that use them.
 */
module UrlParse {
  import opened Wrappers
  import opened Strings

  datatype ParsedUrl = ParsedUrl(scheme: string, netloc: string, path: string,
                                 params: string, query: string, fragment: string)

  /** The WHATWG "C0 control or space" characters that `urlsplit` strips from the front. */
  predicate IsC0OrSpace(c: char) { c <= ' ' }

  /** The characters `urlsplit` deletes wherever they occur. */
  predicate IsUnsafe(c: char) { c == '\t' || c == '\r' || c == '\n' }

  predicate IsAsciiAlpha(c: char) { 'a' <= c <= 'z' || 'A' <= c <= 'Z' }

  predicate IsSchemeChar(c: char) {
    IsAsciiAlpha(c) || '0' <= c <= '9' || c == '+' || c == '-' || c == '.'
  }

  /** Schemes whose last path segment may carry `;params` (`urllib.parse.uses_params`). */
  const UsesParams: seq<string> :=
    ["", "ftp", "hdl", "prospero", "http", "imap", "https", "shttp", "rtsp", "rtsps",
     "rtspu", "sip", "sips", "mms", "sftp", "tel"]

  function LStripC0(s: string): (r: string)
    ensures |r| <= |s| && r == s[|s| - |r|..]
    ensures r == [] || !IsC0OrSpace(r[0])
    decreases |s|
  {
    if |s| > 0 && IsC0OrSpace(s[0]) then LStripC0(s[1..]) else s
  }

  function RemoveUnsafe(s: string): (r: string)
    ensures forall i :: 0 <= i < |r| ==> !IsUnsafe(r[i])
    ensures forall c :: c in r ==> c in s
    decreases |s|
  {
    if s == [] then []
    else (if IsUnsafe(s[0]) then [] else [s[0]]) + RemoveUnsafe(s[1..])
  }

  /** Index of the first character of `s` that lies in `cs`, or `|s|` when there is none. */
  function FirstIn(s: string, cs: set<char>): (i: nat)
    ensures i <= |s|
    ensures forall j :: 0 <= j < i ==> s[j] !in cs
    ensures i < |s| ==> s[i] in cs
    decreases |s|
  {
    if s == [] || s[0] in cs then 0 else 1 + FirstIn(s[1..], cs)
  }

  /** Index of the last occurrence of `c` in `s` (`str.rfind` when `c in s`). */
  function LastIndex(s: string, c: char): (i: nat)
    requires c in s
    ensures i < |s| && s[i] == c
    ensures forall j :: i < j < |s| ==> s[j] != c
    decreases |s|
  {
    if s[|s| - 1] == c then |s| - 1
    else
      assert c in s[..|s| - 1] by {
        var k :| 0 <= k < |s| && s[k] == c;
        assert s[..|s| - 1][k] == c;
      }
      LastIndex(s[..|s| - 1], c)
  }

  /** The scheme, lower-cased, and what follows its colon; or no scheme. */
  function SplitScheme(u: string): (string, string) {
    var i := FirstIn(u, {':'});
    if 0 < i < |u| && IsAsciiAlpha(u[0]) && (forall j :: 0 <= j < i ==> IsSchemeChar(u[j]))
    then (Lower(u[..i]), u[i + 1..])
    else ("", u)
  }

  /** `_splitparams`: cut the path at the first `;` of its last segment (of the whole path without `/`). */
  function SplitParams(path: string): (r: (string, string))
    requires ';' in path
    ensures |r.0| <= |path| && r.0 == path[..|r.0|]
  {
    if '/' in path then
      var k := LastIndex(path, '/');
      var j := FirstIn(path[k..], {';'});
      if k + j == |path| then (path, "") else (path[..k + j], path[k + j + 1..])
    else
      var i := FirstIn(path, {';'});
      (path[..i], path[i + 1..])
  }

  /** A string with none of the characters `chars`. */
  predicate Avoids(s: string, chars: set<char>) {
    forall i :: 0 <= i < |s| ==> s[i] !in chars
  }

  /** `FirstIn` is pinned down by its first hit. */
  lemma {:induction false} FirstInIs(s: string, cs: set<char>, i: nat)
    requires i <= |s| && Avoids(s[..i], cs) && (i < |s| ==> s[i] in cs)
    ensures FirstIn(s, cs) == i
    decreases i
  {
    if i > 0 {
      assert s[0] == s[..i][0];
      assert s[1..][..i - 1] == s[..i][1..];
      FirstInIs(s[1..], cs, i - 1);
    }
  }

  /** Python's `s.split(c, 1)` when `c in s`, and `(s, "")` otherwise: the part before the first `c` and the rest. */
  function CutAt(s: string, c: char): (r: (string, string))
    ensures |r.0| <= |s| && r.0 == s[..|r.0|] && Avoids(r.0, {c})
  {
    var i := FirstIn(s, {c});
    if i < |s| then (s[..i], s[i + 1..]) else (s, "")
  }

  /** `_splitnetloc(rest, 2)` for a `rest` starting with `//`: the netloc and what follows it. */
  function SplitNetloc(rest: string): (r: (string, string))
    requires StartsWith(rest, "//")
    ensures Avoids(r.0, {'/', '?', '#'})
  {
    var d := 2 + FirstIn(rest[2..], {'/', '?', '#'});
    (rest[2..d], rest[d..])
  }

  /** The netloc (empty when `rest` does not start with `//`) and what follows it. */
  function NetlocPart(rest: string): (r: (string, string))
    ensures Avoids(r.0, {'/', '?', '#'})
  {
    if StartsWith(rest, "//") then SplitNetloc(rest) else ("", rest)
  }

  /** Path, parameters, query and fragment of what follows the netloc. */
  function PathPart(scheme: string, netloc: string, rest: string): (r: ParsedUrl)
    ensures r.scheme == scheme && r.netloc == netloc
    ensures Avoids(r.path, {'?', '#'})
  {
    var (beforeFragment, fragment) := CutAt(rest, '#');
    var (path, query) := CutAt(beforeFragment, '?');
    assert Avoids(path, {'?', '#'}) by {
      assert path == beforeFragment[..|path|];
    }
    var (path', params) := if scheme in UsesParams && ';' in path then SplitParams(path) else (path, "");
    assert path' == path[..|path'|];
    ParsedUrl(scheme, netloc, path', params, query, fragment)
  }

  /** `urlparse(url)`; `None` is the `ValueError` raised for an unbalanced `[`/`]` in the netloc. */
  function Parse(url: string): (r: Option<ParsedUrl>)
    ensures r.Some? ==> Avoids(r.value.netloc, {'/', '?', '#'})
    ensures r.Some? ==> Avoids(r.value.path, {'?', '#'})
  {
    var (scheme, rest) := SplitScheme(RemoveUnsafe(LStripC0(url)));
    var (netloc, rest') := NetlocPart(rest);
    if ('[' in netloc) != (']' in netloc) then None
    else Some(PathPart(scheme, netloc, rest'))
  }

  lemma AvoidsAppend(a: string, b: string, cs: set<char>)
    requires Avoids(a, cs) && Avoids(b, cs)
    ensures Avoids(a + b, cs)
  {
  }

  lemma AvoidsSubset(s: string, cs: set<char>, ds: set<char>)
    requires Avoids(s, cs) && ds <= cs
    ensures Avoids(s, ds)
  {
  }

  lemma RemoveUnsafeUnchanged(s: string)
    requires Avoids(s, {'\t', '\r', '\n'})
    ensures RemoveUnsafe(s) == s
  {
    if s != [] {
      RemoveUnsafeUnchanged(s[1..]);
      assert [s[0]] + s[1..] == s;
    }
  }

  /**
   * A bare `host/path` string (no colon, no `//` in front, no query, fragment
   * or parameters) has no netloc: `urlparse` returns the whole string as path.
   */
  lemma SchemelessIsPath(url: string)
    requires url != [] && !IsC0OrSpace(url[0]) && !StartsWith(url, "//")
    requires Avoids(url, {':', '?', '#', ';', '\t', '\r', '\n'})
    ensures Parse(url) == Some(ParsedUrl("", "", url, "", "", ""))
  {
    assert LStripC0(url) == url;
    AvoidsSubset(url, {':', '?', '#', ';', '\t', '\r', '\n'}, {'\t', '\r', '\n'});
    RemoveUnsafeUnchanged(url);
    assert url[..|url|] == url;
    FirstInIs(url, {':'}, |url|);
    assert SplitScheme(url) == ("", url);
    assert NetlocPart(url) == ("", url);
    assert PathPart("", "", url) == ParsedUrl("", "", url, "", "", "") by {
      NoCut(url, '#');
      NoCut(url, '?');
      assert ';' !in url;
    }
  }

  /**
   * In `https://host/path` the netloc is `host` and the path is `/path`,
   * when the host has no `/`, `?`, `#` or bracket and the path has no query,
   * fragment or parameters.
   */
  lemma HttpsHostAndPath(host: string, path: string)
    requires host != []
    requires Avoids(host, {'/', '?', '#', '[', ']', '\t', '\r', '\n'})
    requires path == [] || path[0] == '/'
    requires Avoids(path, {'?', '#', ';', '\t', '\r', '\n'})
    ensures Parse("https://" + host + path) == Some(ParsedUrl("https", host, path, "", "", ""))
  {
    HttpsClean(host, path);
    SchemeOfHttps(host, path);
    AvoidsSubset(host, {'/', '?', '#', '[', ']', '\t', '\r', '\n'}, {'/', '?', '#'});
    NetlocOfHttps(host, path);
    AvoidsSubset(path, {'?', '#', ';', '\t', '\r', '\n'}, {'?', '#', ';'});
    PlainPath("https", host, path);
    ParseFromParts("https://" + host + path, "https", "//" + host + path, host, path);
  }

  lemma HttpsClean(host: string, path: string)
    requires Avoids(host, {'/', '?', '#', '[', ']', '\t', '\r', '\n'})
    requires Avoids(path, {'?', '#', ';', '\t', '\r', '\n'})
    ensures RemoveUnsafe(LStripC0("https://" + host + path)) == "https://" + host + path
  {
    var url := "https://" + host + path;
    assert LStripC0(url) == url;
    AvoidsSubset(host, {'/', '?', '#', '[', ']', '\t', '\r', '\n'}, {'\t', '\r', '\n'});
    AvoidsSubset(path, {'?', '#', ';', '\t', '\r', '\n'}, {'\t', '\r', '\n'});
    AvoidsAppend("https://", host, {'\t', '\r', '\n'});
    AvoidsAppend("https://" + host, path, {'\t', '\r', '\n'});
    RemoveUnsafeUnchanged(url);
  }

  /** A path with no query, fragment or parameters is kept whole. */
  lemma PlainPath(scheme: string, netloc: string, path: string)
    requires Avoids(path, {'?', '#', ';'})
    ensures PathPart(scheme, netloc, path) == ParsedUrl(scheme, netloc, path, "", "", "")
  {
    AvoidsSubset(path, {'?', '#', ';'}, {'#'});
    AvoidsSubset(path, {'?', '#', ';'}, {'?'});
    NoCut(path, '#');
    NoCut(path, '?');
    assert ';' !in path;
  }

  /** `Parse` assembled from its three stages. */
  lemma ParseFromParts(url: string, scheme: string, rest: string, netloc: string, rest': string)
    requires SplitScheme(RemoveUnsafe(LStripC0(url))) == (scheme, rest)
    requires NetlocPart(rest) == (netloc, rest')
    requires '[' !in netloc && ']' !in netloc
    ensures Parse(url) == Some(PathPart(scheme, netloc, rest'))
  {
  }

  lemma SchemeOfHttps(host: string, path: string)
    ensures SplitScheme("https://" + host + path) == ("https", "//" + host + path)
  {
    var url := "https://" + host + path;
    assert url[..5] == "https";
    FirstInIs(url, {':'}, 5);
    assert Lower("https") == "https";
    assert forall j :: 0 <= j < 5 ==> IsSchemeChar(url[j]);
    assert url[6..] == "//" + host + path;
  }

  lemma NetlocOfHttps(host: string, path: string)
    requires Avoids(host, {'/', '?', '#'})
    requires path == [] || path[0] == '/'
    ensures NetlocPart("//" + host + path) == (host, path)
  {
    var rest := "//" + host + path;
    assert rest[2..] == host + path;
    assert (host + path)[..|host|] == host;
    FirstInIs(host + path, {'/', '?', '#'}, |host|);
    assert rest[2..2 + |host|] == host;
    assert rest[2 + |host|..] == path;
  }

  lemma NoCut(s: string, c: char)
    requires Avoids(s, {c})
    ensures CutAt(s, c) == (s, "")
  {
    assert s[..|s|] == s;
    FirstInIs(s, {c}, |s|);
  }
  /** What follows the scheme is a suffix of the URL. */
  lemma SplitSchemeSuffix(u: string)
    ensures var rest := SplitScheme(u).1; |rest| <= |u| && rest == u[|u| - |rest|..]
  {
  }

  /** What follows the netloc is a suffix of what followed the scheme. */
  lemma NetlocPartSuffix(rest: string)
    ensures var rest' := NetlocPart(rest).1; |rest'| <= |rest| && rest' == rest[|rest| - |rest'|..]
  {
  }

  /** The path is a prefix of what followed the netloc. */
  lemma PathPartPrefix(scheme: string, netloc: string, rest: string)
    ensures var path := PathPart(scheme, netloc, rest).path; |path| <= |rest| && path == rest[..|path|]
  {
    var (beforeFragment, fragment) := CutAt(rest, '#');
    var (path, query) := CutAt(beforeFragment, '?');
    assert path == rest[..|path|];
  }

  /** The path `urlparse` returns holds no tab, CR or LF: those are removed before anything is split off. */
  lemma ParsedPathClean(url: string)
    requires Parse(url).Some?
    ensures Avoids(Parse(url).value.path, {'\t', '\r', '\n'})
  {
    var u := RemoveUnsafe(LStripC0(url));
    var (scheme, rest) := SplitScheme(u);
    var (netloc, rest') := NetlocPart(rest);
    assert Parse(url) == Some(PathPart(scheme, netloc, rest'));
    PiecesClean(u, scheme, rest, netloc, rest');
  }

  /** Each piece `urlparse` splits off a clean string is clean. */
  lemma PiecesClean(u: string, scheme: string, rest: string, netloc: string, rest': string)
    requires Avoids(u, {'\t', '\r', '\n'})
    requires SplitScheme(u) == (scheme, rest) && NetlocPart(rest) == (netloc, rest')
    ensures Avoids(PathPart(scheme, netloc, rest').path, {'\t', '\r', '\n'})
  {
    SplitSchemeSuffix(u);
    AvoidsSlice(u, |u| - |rest|, |u|, {'\t', '\r', '\n'});
    NetlocPartSuffix(rest);
    AvoidsSlice(rest, |rest| - |rest'|, |rest|, {'\t', '\r', '\n'});
    var p := PathPart(scheme, netloc, rest').path;
    PathPartPrefix(scheme, netloc, rest');
    AvoidsSlice(rest', 0, |p|, {'\t', '\r', '\n'});
  }

  lemma AvoidsSlice(s: string, i: int, j: int, cs: set<char>)
    requires 0 <= i <= j <= |s| && Avoids(s, cs)
    ensures Avoids(s[i..j], cs)
  {
  }

  /** Removing tab, CR and LF from a concatenation removes them from each part. */
  lemma {:induction false} RemoveUnsafeAppend(a: string, b: string)
    ensures RemoveUnsafe(a + b) == RemoveUnsafe(a) + RemoveUnsafe(b)
    decreases |a|
  {
    if a == [] {
      assert a + b == b;
    } else {
      assert (a + b)[1..] == a[1..] + b && (a + b)[0] == a[0];
      RemoveUnsafeAppend(a[1..], b);
      var x := if IsUnsafe(a[0]) then [] else [a[0]];
      assert RemoveUnsafe(a + b) == x + (RemoveUnsafe(a[1..]) + RemoveUnsafe(b));
      assert RemoveUnsafe(a) == x + RemoveUnsafe(a[1..]);
      assert x + (RemoveUnsafe(a[1..]) + RemoveUnsafe(b)) == (x + RemoveUnsafe(a[1..])) + RemoveUnsafe(b);
    }
  }
}
