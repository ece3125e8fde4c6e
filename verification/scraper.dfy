/**
 * Scraped-text cleanup (`src/scraper.py`): `_clean_text` is four
 * substitutions in a row (drop carriage returns, collapse runs of three or
 * more line feeds separated only by whitespace to one blank line, squeeze
 * runs of spaces and tabs to one space, strip), and `fetch_job_description`
 * cleans the page text and cuts it at `max_chars` with a fixed marker.
 *
 * The HTTP request and the HTML extraction are not modelled: what the page
 * yields is a parameter (`PageFetch`).
 */
module Scraper {
  import opened Wrappers
  import opened Strings

  // ---------------------------------------------------------------------
  // Step 1: `re.sub(r"\r", "", text)`

  function DropCr(s: string): (r: string)
    ensures '\r' !in r
    ensures multiset(r) == multiset(s)['\r' := 0]
    decreases |s|
  {
    if s == [] then []
    else
      var rest := DropCr(s[1..]);
      assert s == [s[0]] + s[1..];
      if s[0] == '\r' then rest else [s[0]] + rest
  }

  // ---------------------------------------------------------------------
  // Step 2: `re.sub(r"\n\s*\n\s*\n+", "\n\n", text)`

  /** Length of the whitespace prefix of `s` (`\s` is Python's `str.isspace`). */
  function SpaceRun(s: string): (k: nat)
    ensures k <= |s|
    ensures forall i {:trigger IsSpace(s[i])} :: 0 <= i < k ==> IsSpace(s[i])
    ensures k < |s| ==> !IsSpace(s[k])
    decreases |s|
  {
    if s != [] && IsSpace(s[0]) then 1 + SpaceRun(s[1..]) else 0
  }

  /** Number of line feeds in `s`. */
  function NewLines(s: string): nat
    decreases |s|
  {
    if s == [] then 0 else (if s[0] == '\n' then 1 else 0) + NewLines(s[1..])
  }

  /** What follows the last line feed of `s` (all of `s` when it has none). */
  function AfterLastNewLine(s: string): (r: string)
    ensures |r| <= |s| && r == s[|s| - |r|..]
    ensures '\n' !in r
    ensures |r| < |s| ==> s[|s| - |r| - 1] == '\n'
    decreases |s|
  {
    if s == [] || s[|s| - 1] == '\n' then []
    else AfterLastNewLine(s[..|s| - 1]) + [s[|s| - 1]]
  }

  /**
   * The regular expression matches from the first line feed of a whitespace
   * run to its last one, when the run holds at least three line feeds; the
   * match becomes "\n\n" and the whitespace around it stays.
   */
  function CollapseBlankRuns(s: string): (r: string)
    ensures '\r' !in s ==> '\r' !in r
    decreases |s|
  {
    if s == [] then []
    else if s[0] != '\n' then [s[0]] + CollapseBlankRuns(s[1..])
    else
      var k := SpaceRun(s);
      assert s[..k][0] == '\n';
      RunReplacement(s[..k]) + CollapseBlankRuns(s[k..])
  }

  /** What a whitespace run starting with a line feed becomes. */
  function RunReplacement(run: string): (r: string)
    requires run != [] && run[0] == '\n'
    ensures '\r' !in run ==> '\r' !in r
  {
    if NewLines(run) >= 3 then "\n\n" + AfterLastNewLine(run) else run
  }

  // ---------------------------------------------------------------------
  // Step 3: `re.sub(r"[ \t]+", " ", text)`

  predicate IsSpaceOrTab(c: char) {
    c == ' ' || c == '\t'
  }

  /** Length of the space-and-tab prefix of `s`. */
  function BlankRun(s: string): (k: nat)
    ensures k <= |s|
    ensures forall i :: 0 <= i < k ==> IsSpaceOrTab(s[i])
    ensures k < |s| ==> !IsSpaceOrTab(s[k])
    decreases |s|
  {
    if s != [] && IsSpaceOrTab(s[0]) then 1 + BlankRun(s[1..]) else 0
  }

  /** Every run of spaces and tabs becomes one space. */
  function SqueezeBlanks(s: string): (r: string)
    ensures '\t' !in r
    ensures forall i :: 0 <= i < |r| - 1 && r[i] == ' ' ==> r[i + 1] != ' '
    ensures '\r' !in s ==> '\r' !in r
    ensures s != [] && !IsSpaceOrTab(s[0]) ==> r != [] && r[0] == s[0]
    decreases |s|
  {
    if s == [] then []
    else if IsSpaceOrTab(s[0]) then
      var rest := SqueezeBlanks(s[BlankRun(s)..]);
      " " + rest
    else
      [s[0]] + SqueezeBlanks(s[1..])
  }

  // ---------------------------------------------------------------------
  // Step 4 and the whole cleanup

  /** `_clean_text(text)` */
  function CleanText(text: string): string {
    Strip(SqueezeBlanks(CollapseBlankRuns(DropCr(text))))
  }

  /**
   * No whitespace run of `s` holds three line feeds when `n` line feeds of
   * the run at its front were already seen: `\n\s*\n\s*\n+` matches nowhere.
   */
  predicate FewNewLines(s: string, n: nat)
    decreases |s|
  {
    if s == [] then true
    else if s[0] == '\n' then n < 2 && FewNewLines(s[1..], n + 1)
    else if IsSpace(s[0]) then FewNewLines(s[1..], n)
    else FewNewLines(s[1..], 0)
  }

  predicate AllSpace(s: string) {
    forall i :: 0 <= i < |s| ==> IsSpace(s[i])
  }

  // ---------------------------------------------------------------------
  // Facts about the stages

  lemma {:induction false} NewLinesAppend(a: string, b: string)
    ensures NewLines(a + b) == NewLines(a) + NewLines(b)
    decreases |a|
  {
    if a != [] {
      assert (a + b)[1..] == a[1..] + b;
      NewLinesAppend(a[1..], b);
    } else {
      assert a + b == b;
    }
  }

  lemma {:induction false} NoNewLines(s: string)
    requires '\n' !in s
    ensures NewLines(s) == 0
    decreases |s|
  {
    if s != [] {
      NoNewLines(s[1..]);
    }
  }

  /** A run of whitespace moves the line-feed count on by its own line feeds. */
  lemma {:induction false} FewAfterSpaces(w: string, t: string, n: nat)
    requires AllSpace(w) && n <= 2
    ensures FewNewLines(w + t, n) <==> n + NewLines(w) <= 2 && FewNewLines(t, n + NewLines(w))
    decreases |w|
  {
    if w != [] {
      assert (w + t)[0] == w[0] && (w + t)[1..] == w[1..] + t;
      if w[0] == '\n' {
        if n < 2 {
          FewAfterSpaces(w[1..], t, n + 1);
        }
      } else {
        FewAfterSpaces(w[1..], t, n);
      }
    } else {
      assert w + t == t;
    }
  }

  /** Before a non-space character the count does not matter. */
  lemma FewAtWord(t: string, n: nat, m: nat)
    requires t == [] || !IsSpace(t[0])
    ensures FewNewLines(t, n) == FewNewLines(t, m)
  {
  }

  /** Fewer line feeds seen is never worse. */
  lemma {:induction false} FewMonotone(s: string, n: nat, m: nat)
    requires m <= n && FewNewLines(s, n)
    ensures FewNewLines(s, m)
    decreases |s|
  {
    if s != [] {
      if s[0] == '\n' {
        FewMonotone(s[1..], n + 1, m + 1);
      } else if IsSpace(s[0]) {
        FewMonotone(s[1..], n, m);
      }
    }
  }

  lemma {:induction false} FewPrefix(s: string, n: nat, k: nat)
    requires k <= |s| && FewNewLines(s, n)
    ensures FewNewLines(s[..k], n)
    decreases |s|
  {
    if k > 0 {
      assert s[..k][0] == s[0] && s[..k][1..] == s[1..][..k - 1];
      if s[0] == '\n' {
        FewPrefix(s[1..], n + 1, k - 1);
      } else if IsSpace(s[0]) {
        FewPrefix(s[1..], n, k - 1);
      } else {
        FewPrefix(s[1..], 0, k - 1);
      }
    }
  }

  lemma {:induction false} FewSuffix(s: string, k: nat)
    requires k <= |s| && FewNewLines(s, 0)
    ensures FewNewLines(s[k..], 0)
    decreases k
  {
    if k > 0 {
      if s[0] == '\n' {
        FewMonotone(s[1..], 1, 0);
      }
      FewSuffix(s[1..], k - 1);
      assert s[1..][k - 1..] == s[k..];
    }
  }

  /** After step 2 no whitespace run holds three line feeds. */
  lemma {:induction false} CollapsedFew(s: string)
    ensures FewNewLines(CollapseBlankRuns(s), 0)
    decreases |s|
  {
    if s != [] {
      if s[0] != '\n' {
        CollapsedFew(s[1..]);
        var t := CollapseBlankRuns(s[1..]);
        assert ([s[0]] + t)[1..] == t;
      } else {
        var k := SpaceRun(s);
        var w := RunReplacement(s[..k]);
        var rest := CollapseBlankRuns(s[k..]);
        CollapsedFew(s[k..]);
        ReplacementFew(s[..k]);
        FewAtWord(rest, 0, NewLines(w));
        FewAfterSpaces(w, rest, 0);
      }
    }
  }

  /** A replaced run is whitespace with at most two line feeds. */
  lemma ReplacementFew(run: string)
    requires run != [] && run[0] == '\n' && AllSpace(run)
    ensures AllSpace(RunReplacement(run)) && NewLines(RunReplacement(run)) <= 2
  {
    if NewLines(run) >= 3 {
      var tail := AfterLastNewLine(run);
      NoNewLines(tail);
      NewLinesAppend("\n\n", tail);
      assert NewLines("\n\n") == 2;
      assert forall i :: 0 <= i < |tail| ==> tail[i] == run[|run| - |tail| + i];
    }
  }

  /** Step 3 leaves the line feeds of every whitespace run alone. */
  lemma {:induction false} SqueezedFew(s: string, n: nat)
    requires FewNewLines(s, n) && n <= 2
    ensures FewNewLines(SqueezeBlanks(s), n)
    decreases |s|
  {
    if s != [] {
      if IsSpaceOrTab(s[0]) {
        var k := BlankRun(s);
        var rest := s[k..];
        assert s == s[..k] + rest;
        NoNewLines(s[..k]);
        FewAfterSpaces(s[..k], rest, n);
        SqueezedFew(rest, n);
        FewAfterSpaces(" ", SqueezeBlanks(rest), n);
      } else {
        var t := SqueezeBlanks(s[1..]);
        assert ([s[0]] + t)[1..] == t;
        if s[0] == '\n' {
          SqueezedFew(s[1..], n + 1);
        } else if IsSpace(s[0]) {
          SqueezedFew(s[1..], n);
        } else {
          SqueezedFew(s[1..], 0);
        }
      }
    }
  }

  /** `strip()` keeps a slice of its argument. */
  lemma StripSlice(s: string)
    ensures var i := |s| - |LStrip(s)|;
            i + |Strip(s)| <= |s| && Strip(s) == s[i..i + |Strip(s)|]
  {
  }

  lemma StrippedFew(s: string)
    requires FewNewLines(s, 0)
    ensures FewNewLines(Strip(s), 0)
  {
    var i := |s| - |LStrip(s)|;
    StripSlice(s);
    FewSuffix(s, i);
    FewPrefix(s[i..], 0, |Strip(s)|);
    assert s[i..][..|Strip(s)|] == Strip(s);
  }

  /** `strip()` adds no character. */
  lemma StripKeepsChars(c: string, ch: char)
    requires ch !in c
    ensures ch !in Strip(c)
  {
    var i := |c| - |LStrip(c)|;
    StripSlice(c);
    var r := Strip(c);
    forall j | 0 <= j < |r| ensures r[j] != ch {
      assert r[j] == c[i + j];
    }
  }

  lemma StripKeepsSingleSpaces(c: string)
    requires forall i :: 0 <= i < |c| - 1 && c[i] == ' ' ==> c[i + 1] != ' '
    ensures var r := Strip(c);
            forall j :: 0 <= j < |r| - 1 && r[j] == ' ' ==> r[j + 1] != ' '
  {
    var i := |c| - |LStrip(c)|;
    StripSlice(c);
    var r := Strip(c);
    forall j | 0 <= j < |r| - 1 && r[j] == ' ' ensures r[j + 1] != ' ' {
      assert r[j] == c[i + j] && r[j + 1] == c[i + j + 1];
    }
  }

  /** The cleaned text has no carriage return, no tab and no two spaces in a row. */
  lemma CleanTextChars(text: string)
    ensures var r := CleanText(text);
            && '\r' !in r && '\t' !in r
            && (forall i :: 0 <= i < |r| - 1 && r[i] == ' ' ==> r[i + 1] != ' ')
  {
    var c := SqueezeBlanks(CollapseBlankRuns(DropCr(text)));
    StripKeepsChars(c, '\r');
    StripKeepsChars(c, '\t');
    StripKeepsSingleSpaces(c);
  }

  /** The cleaned text has no surrounding whitespace and no whitespace run with three line feeds. */
  lemma CleanTextRuns(text: string)
    ensures Trimmed(CleanText(text)) && FewNewLines(CleanText(text), 0)
  {
    var a := DropCr(text);
    var b := CollapseBlankRuns(a);
    CollapsedFew(a);
    SqueezedFew(b, 0);
    StrippedFew(SqueezeBlanks(b));
  }

  // ---------------------------------------------------------------------
  // Step 2 precisely

  lemma {:induction false} SpaceRunAppend(x: string, y: string)
    requires x != [] && !IsSpace(x[|x| - 1])
    ensures SpaceRun(x + y) == SpaceRun(x) < |x|
    decreases |x|
  {
    if IsSpace(x[0]) {
      assert (x + y)[1..] == x[1..] + y;
      SpaceRunAppend(x[1..], y);
    }
  }

  lemma {:induction false} SpaceRunAll(w: string, y: string)
    requires AllSpace(w) && (y == [] || !IsSpace(y[0]))
    ensures SpaceRun(w + y) == |w|
    decreases |w|
  {
    if w != [] {
      assert (w + y)[1..] == w[1..] + y;
      SpaceRunAll(w[1..], y);
    } else {
      assert w + y == y;
    }
  }

  /** Text up to a non-space character is collapsed independently of what follows. */
  lemma {:induction false} CollapseAppend(x: string, y: string)
    requires x == [] || !IsSpace(x[|x| - 1])
    ensures CollapseBlankRuns(x + y) == CollapseBlankRuns(x) + CollapseBlankRuns(y)
    decreases |x|, 1
  {
    if x == [] {
      assert x + y == y;
    } else if x[0] != '\n' {
      assert (x + y)[1..] == x[1..] + y;
      CollapseAppend(x[1..], y);
      ConcatAssoc([x[0]], CollapseBlankRuns(x[1..]), CollapseBlankRuns(y));
    } else {
      CollapseAppendRun(x, y);
    }
  }

  /** The case of `CollapseAppend` where the text opens with a line feed. */
  lemma {:induction false} CollapseAppendRun(x: string, y: string)
    requires x != [] && x[0] == '\n' && !IsSpace(x[|x| - 1])
    ensures CollapseBlankRuns(x + y) == CollapseBlankRuns(x) + CollapseBlankRuns(y)
    decreases |x|, 0
  {
    var k := SpaceRun(x);
    CollapseAtRun(x);
    CollapseHead(x, y);
    var rest := x[k..];
    assert rest[|rest| - 1] == x[|x| - 1];
    CollapseAppend(rest, y);
    ConcatAssoc(RunReplacement(x[..k]), CollapseBlankRuns(rest), CollapseBlankRuns(y));
  }

  /** Stated once so that the solver need not rediscover it inside larger proofs. */
  lemma ConcatAssoc(a: string, b: string, c: string)
    ensures a + (b + c) == (a + b) + c
  {
  }

  /** Collapsing a text that opens with a run ending inside `x` replaces that run. */
  lemma CollapseHead(x: string, y: string)
    requires x != [] && x[0] == '\n' && !IsSpace(x[|x| - 1])
    ensures 0 < SpaceRun(x) < |x|
    ensures CollapseBlankRuns(x + y)
            == RunReplacement(x[..SpaceRun(x)]) + CollapseBlankRuns(x[SpaceRun(x)..] + y)
  {
    var k := SpaceRun(x);
    var xy := x + y;
    SpaceRunAppend(x, y);
    CollapseAtRun(xy);
    assert xy[..k] == x[..k];
    assert xy[k..] == x[k..] + y;
  }

  /** The defining equation of `CollapseBlankRuns` at a line feed. */
  lemma CollapseAtRun(s: string)
    requires s != [] && s[0] == '\n'
    ensures 0 < SpaceRun(s)
    ensures CollapseBlankRuns(s) == RunReplacement(s[..SpaceRun(s)]) + CollapseBlankRuns(s[SpaceRun(s)..])
  {
  }

  /**
   * A whitespace run from a line feed to a line feed holding three or more
   * line feeds becomes exactly one blank line, "\n\n".
   */
  lemma BlankRunCollapses(x: string, w: string, y: string)
    requires x == [] || !IsSpace(x[|x| - 1])
    requires AllSpace(w) && w != [] && w[0] == '\n' && w[|w| - 1] == '\n' && NewLines(w) >= 3
    requires y == [] || !IsSpace(y[0])
    ensures CollapseBlankRuns(x + w + y) == CollapseBlankRuns(x) + "\n\n" + CollapseBlankRuns(y)
  {
    ConcatAssoc(x, w, y);
    CollapseAppend(x, w + y);
    RunCollapses(w, y);
    ConcatAssoc(CollapseBlankRuns(x), "\n\n", CollapseBlankRuns(y));
  }

  /** A run of three or more line feeds ending in a line feed becomes a blank line. */
  lemma RunCollapses(w: string, y: string)
    requires AllSpace(w) && w != [] && w[0] == '\n' && w[|w| - 1] == '\n' && NewLines(w) >= 3
    requires y == [] || !IsSpace(y[0])
    ensures CollapseBlankRuns(w + y) == "\n\n" + CollapseBlankRuns(y)
  {
    SpaceRunAll(w, y);
    var s := w + y;
    assert s[0] == '\n';
    assert s[..|w|] == w && s[|w|..] == y;
    assert CollapseBlankRuns(s) == RunReplacement(w) + CollapseBlankRuns(y);
    assert AfterLastNewLine(w) == [];
  }

  /** Text where no run holds three line feeds is left as it is. */
  lemma {:induction false} CollapseUnchanged(s: string)
    requires FewNewLines(s, 0)
    ensures CollapseBlankRuns(s) == s
    decreases |s|
  {
    if s != [] {
      if s[0] != '\n' {
        CollapseUnchanged(s[1..]);
      } else {
        var k := SpaceRun(s);
        var run, rest := s[..k], s[k..];
        assert s == run + rest;
        FewAfterSpaces(run, rest, 0);
        FewAtWord(rest, NewLines(run), 0);
        CollapseUnchanged(rest);
      }
    }
  }

  /** Collapsing twice is collapsing once. */
  lemma CollapseIdempotent(s: string)
    ensures CollapseBlankRuns(CollapseBlankRuns(s)) == CollapseBlankRuns(s)
  {
    CollapsedFew(s);
    CollapseUnchanged(CollapseBlankRuns(s));
  }

  lemma {:induction false} DropCrUnchanged(s: string)
    requires '\r' !in s
    ensures DropCr(s) == s
    decreases |s|
  {
    if s != [] {
      DropCrUnchanged(s[1..]);
    }
  }

  lemma {:induction false} SqueezeUnchanged(s: string)
    requires '\t' !in s
    requires forall i :: 0 <= i < |s| - 1 && s[i] == ' ' ==> s[i + 1] != ' '
    ensures SqueezeBlanks(s) == s
    decreases |s|
  {
    if s != [] {
      if IsSpaceOrTab(s[0]) {
        assert BlankRun(s) == 1 by {
          if |s| > 1 {
            assert s[1] != ' ' && s[1] != '\t';
            assert BlankRun(s[1..]) == 0;
          }
        }
      }
      SqueezeUnchanged(s[1..]);
    }
  }

  /** Cleaning scraped text twice is cleaning it once. */
  lemma CleanTextIdempotent(text: string)
    ensures CleanText(CleanText(text)) == CleanText(text)
  {
    var r := CleanText(text);
    CleanTextChars(text);
    CleanTextRuns(text);
    DropCrUnchanged(r);
    CollapseUnchanged(r);
    SqueezeUnchanged(r);
    StripTrimmed(r);
  }

  // ---------------------------------------------------------------------
  // `fetch_job_description`

  const TruncationMarker: string := "\n\n[truncated]"
  const DefaultMaxChars: int := 8000

  /**
   * `cleaned[:max_chars] + "\n\n[truncated]"` when the text is longer than
   * `max_chars`; a negative `max_chars` counts from the end, as a Python slice does.
   */
  function Truncate(cleaned: string, maxChars: int): (r: string)
    ensures |cleaned| <= maxChars ==> r == cleaned
    ensures maxChars >= 0 ==> |r| <= maxChars + |TruncationMarker|
    ensures 0 <= maxChars < |cleaned| ==>
              |r| == maxChars + |TruncationMarker| && r[..maxChars] == cleaned[..maxChars]
              && r[maxChars..] == TruncationMarker
  {
    if |cleaned| > maxChars then PyPrefix(cleaned, maxChars) + TruncationMarker else cleaned
  }

  /** What the GET request and the HTML extraction yield. */
  datatype PageFetch =
    | RequestFailed                                  // the request raised or the status was an error
    | Fetched(block: Option<string>, pageText: string)  // the job block found, and the whole page's text

  /** The extracted block, or the page text when no (non-empty) block was found. */
  function RawText(page: PageFetch): string
    requires page.Fetched?
  {
    if page.block.Some? && page.block.value != "" then page.block.value else page.pageText
  }

  /** `fetch_job_description(url, max_chars)` for what the page yields. */
  function FetchJobDescription(page: PageFetch, maxChars: int): (r: string)
    ensures page.RequestFailed? ==> r == ""
    ensures maxChars >= 0 ==> |r| <= maxChars + |TruncationMarker|
  {
    match page
    case RequestFailed => ""
    case Fetched(_, _) => Truncate(CleanText(RawText(page)), maxChars)
  }

  /** A fetched description that fits is the cleaned text itself, with all its guarantees. */
  lemma ShortDescriptionIsClean(page: PageFetch, maxChars: int)
    requires page.Fetched? && |CleanText(RawText(page))| <= maxChars
    ensures var r := FetchJobDescription(page, maxChars);
            && r == CleanText(RawText(page))
            && '\r' !in r && '\t' !in r && Trimmed(r) && FewNewLines(r, 0)
  {
    CleanTextChars(RawText(page));
    CleanTextRuns(RawText(page));
  }
}
