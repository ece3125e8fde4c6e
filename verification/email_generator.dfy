/**
 * Clean-up and HTML wrapping of the e-mail body returned by the language
 * model (`src/email_generator.py`). The model is asked for the body only;
 * whatever greeting, sign-off, name or link footer it adds anyway is removed
 * here, and the fixed greeting and closing are added around what is left.
 */
module EmailGenerator {
  import opened Wrappers
  import opened Strings

  // ---------------------------------------------------------------------
  // Sequences of lines

  /** `[l for l in s if p(l)]` */
  function Keep(s: seq<string>, p: string -> bool): (r: seq<string>)
    ensures |r| <= |s|
    ensures forall i :: 0 <= i < |r| ==> p(r[i])
  {
    if s == [] then []
    else Keep(s[..|s| - 1], p) + (if p(s[|s| - 1]) then [s[|s| - 1]] else [])
  }

  /** `a` is `b` with some elements left out and the rest in their order. */
  predicate Subseq<T(==)>(a: seq<T>, b: seq<T>)
    decreases |b|
  {
    if a == [] then true
    else if b == [] then false
    else (a[|a| - 1] == b[|b| - 1] && Subseq(a[..|a| - 1], b[..|b| - 1]))
         || Subseq(a, b[..|b| - 1])
  }


  lemma {:induction false} SubseqRefl<T>(a: seq<T>)
    ensures Subseq(a, a)
    decreases |a|
  {
    if a != [] {
      SubseqRefl(a[..|a| - 1]);
    }
  }

  lemma {:induction false} SubseqTrans<T>(a: seq<T>, b: seq<T>, c: seq<T>)
    requires Subseq(a, b) && Subseq(b, c)
    ensures Subseq(a, c)
    decreases |c|
  {
    if a != [] {
      var b', c' := b[..|b| - 1], c[..|c| - 1];
      if Subseq(b, c') {
        SubseqTrans(a, b, c');
      } else if a[|a| - 1] == b[|b| - 1] && Subseq(a[..|a| - 1], b') {
        SubseqTrans(a[..|a| - 1], b', c');
      } else {
        SubseqTrans(a, b', c');
      }
    }
  }

  /** Every element of a subsequence is an element of the whole. */
  lemma {:induction false} SubseqMembers<T>(a: seq<T>, b: seq<T>)
    requires Subseq(a, b)
    ensures forall i :: 0 <= i < |a| ==> a[i] in b
    decreases |b|
  {
    if a != [] {
      var a', b' := a[..|a| - 1], b[..|b| - 1];
      if a[|a| - 1] == b[|b| - 1] && Subseq(a', b') {
        SubseqMembers(a', b');
        forall i | 0 <= i < |a| ensures a[i] in b {
          if i < |a| - 1 {
            assert a[i] == a'[i];
          }
        }
      } else {
        SubseqMembers(a, b');
      }
    }
  }

  /** A suffix is a subsequence. */
  lemma {:induction false} SubseqSuffix<T>(s: seq<T>, k: nat)
    requires k <= |s|
    ensures Subseq(s[k..], s)
    decreases |s|
  {
    if k < |s| {
      SubseqSuffix(s[..|s| - 1], k);
      assert s[k..][..|s[k..]| - 1] == s[..|s| - 1][k..];
    }
  }

  /** Appending the same element, or an element to the whole only, keeps a subsequence. */
  lemma SubseqAppend<T>(a: seq<T>, b: seq<T>, x: T)
    requires Subseq(a, b)
    ensures Subseq(a + [x], b + [x]) && Subseq(a, b + [x])
  {
    assert (a + [x])[..|a|] == a;
    assert (b + [x])[..|b|] == b;
  }

  lemma {:induction false} KeepSubseq(s: seq<string>, p: string -> bool)
    ensures Subseq(Keep(s, p), s)
    decreases |s|
  {
    if s != [] {
      var s', x := s[..|s| - 1], s[|s| - 1];
      KeepSubseq(s', p);
      SubseqAppend(Keep(s', p), s', x);
      assert s' + [x] == s;
      if !p(x) {
        assert Keep(s, p) == Keep(s', p);
      }
    }
  }

  /** Keeping what already satisfies `p` keeps everything. */
  lemma {:induction false} KeepAll(s: seq<string>, p: string -> bool)
    requires forall i :: 0 <= i < |s| ==> p(s[i])
    ensures Keep(s, p) == s
    decreases |s|
  {
    if s != [] {
      KeepAll(s[..|s| - 1], p);
    }
  }

  lemma KeepAppend(s: seq<string>, x: string, p: string -> bool)
    ensures Keep(s + [x], p) == Keep(s, p) + (if p(x) then [x] else [])
  {
    assert (s + [x])[..|s|] == s;
  }

  /** `[g(l) for l in lines]` */
  function MapLines(lines: seq<string>, g: string -> string): (r: seq<string>)
    ensures |r| == |lines|
    ensures forall i :: 0 <= i < |lines| ==> r[i] == g(lines[i])
  {
    seq(|lines|, i requires 0 <= i < |lines| => g(lines[i]))
  }

  /** The list a loop builds by appending `step(l)` for each line `l` in turn. */
  function FlatMap(lines: seq<string>, step: string -> seq<string>): seq<string>
  {
    if lines == [] then []
    else FlatMap(lines[..|lines| - 1], step) + step(lines[|lines| - 1])
  }

  lemma FlatMapStep(lines: seq<string>, i: nat, step: string -> seq<string>)
    requires i < |lines|
    ensures FlatMap(lines[..i + 1], step) == FlatMap(lines[..i], step) + step(lines[i])
  {
    assert lines[..i + 1][..i] == lines[..i];
  }

  /** Whatever every step produces satisfies `P`, so the whole list does. */
  lemma {:induction false} FlatMapAll(lines: seq<string>, step: string -> seq<string>, P: string -> bool)
    requires forall i :: 0 <= i < |lines| ==> forall x :: x in step(lines[i]) ==> P(x)
    ensures forall x :: x in FlatMap(lines, step) ==> P(x)
    decreases |lines|
  {
    if lines != [] {
      FlatMapAll(lines[..|lines| - 1], step, P);
    }
  }

  /** A step that yields nothing or `g` of its line keeps a subsequence of the mapped lines. */
  lemma {:induction false} FlatMapSubseq(lines: seq<string>, step: string -> seq<string>, g: string -> string)
    requires forall i :: 0 <= i < |lines| ==> step(lines[i]) == [] || step(lines[i]) == [g(lines[i])]
    ensures Subseq(FlatMap(lines, step), MapLines(lines, g))
    decreases |lines|
  {
    if lines != [] {
      var lines', x := lines[..|lines| - 1], g(lines[|lines| - 1]);
      FlatMapSubseq(lines', step, g);
      SubseqAppend(FlatMap(lines', step), MapLines(lines', g), x);
      assert MapLines(lines, g) == MapLines(lines', g) + [x];
      if step(lines[|lines| - 1]) == [] {
        assert FlatMap(lines, step) == FlatMap(lines', step);
      }
    }
  }

  lemma FlatMapOne(a: string, step: string -> seq<string>)
    ensures FlatMap([a], step) == step(a)
  {
    assert [a][..0] == [];
  }

  lemma FlatMapTwo(a: string, b: string, step: string -> seq<string>)
    ensures FlatMap([a, b], step) == step(a) + step(b)
  {
    assert [a, b][..1] == [a];
    FlatMapOne(a, step);
  }

  lemma FlatMapThree(a: string, b: string, c: string, step: string -> seq<string>)
    ensures FlatMap([a, b, c], step) == step(a) + step(b) + step(c)
  {
    assert [a, b, c][..2] == [a, b];
    FlatMapTwo(a, b, step);
  }

  // ---------------------------------------------------------------------
  // `_clean_body_text`, stage by stage

  /** `[line.rstrip() for line in raw.strip().splitlines()]` */
  function Lines(raw: string): seq<string> {
    MapLines(SplitLines(Strip(raw)), RStrip)
  }

  /** A greeting: `hi `, `hello ` or `dear ` at the start and `,` or `:` at the end, ignoring case and surrounding whitespace. */
  predicate IsGreeting(line: string) {
    var low := Lower(Strip(line));
    (StartsWith(low, "hi ") || StartsWith(low, "hello ") || StartsWith(low, "dear "))
    && (EndsWith(low, ",") || EndsWith(low, ":"))
  }

  /**
   * The leading-line skip in general: from `i` on, every line `lead` accepts
   * is skipped together with one following line `gap` accepts, and the first
   * line `lead` rejects stops the skipping.
   */
  function SkipLeading(lines: seq<string>, i: nat, lead: string -> bool, gap: string -> bool): (j: nat)
    requires i <= |lines|
    ensures i <= j <= |lines|
    ensures j < |lines| ==> !lead(lines[j])
    decreases |lines| - i
  {
    if i < |lines| && lead(lines[i]) then
      var next := if i + 1 < |lines| && gap(lines[i + 1]) then i + 2 else i + 1;
      SkipLeading(lines, next, lead, gap)
    else i
  }

  /** The only skipped lines `lead` rejects are single `gap` lines right after an accepted one. */
  lemma {:induction false} SkipLeadingOnly(lines: seq<string>, i: nat, lead: string -> bool, gap: string -> bool)
    requires i <= |lines|
    ensures forall k :: i <= k < SkipLeading(lines, i, lead, gap) && !lead(lines[k]) ==>
                          i < k && lead(lines[k - 1]) && gap(lines[k])
    decreases |lines| - i
  {
    if i < |lines| && lead(lines[i]) {
      var next := if i + 1 < |lines| && gap(lines[i + 1]) then i + 2 else i + 1;
      SkipLeadingOnly(lines, next, lead, gap);
    }
  }

  predicate BlankLine(line: string) {
    Strip(line) == ""
  }

  /** Where the body starts once leading greetings, each with one blank line after it, are skipped from `i` on. */
  function SkipGreetings(lines: seq<string>, i: nat): (j: nat)
    requires i <= |lines|
    ensures i <= j <= |lines|
    ensures j < |lines| ==> !IsGreeting(lines[j])
  {
    SkipLeading(lines, i, IsGreeting, BlankLine)
  }

  /** The only non-greeting lines skipped are single blank lines right after a greeting. */
  lemma SkipOnlyGreetings(lines: seq<string>, i: nat)
    requires i <= |lines|
    ensures forall k :: i <= k < SkipGreetings(lines, i) && !IsGreeting(lines[k]) ==>
                          i < k && IsGreeting(lines[k - 1]) && Strip(lines[k]) == ""
  {
    SkipLeadingOnly(lines, i, IsGreeting, BlankLine);
  }

  /** The twelve sign-off phrases, compared with the lower-cased line. */
  const SignoffPhrases: set<string> := {
    "thanks", "thanks,", "thank you", "thank you,", "best", "best,",
    "sincerely", "sincerely,", "kind regards", "kind regards,", "regards", "regards,"
  }

  /**
   * A lower-cased, stripped line that is dropped: a bracketed placeholder, a
   * line naming the sender, a sign-off phrase, or a LinkedIn/GitHub footer.
   */
  predicate IsNoise(low: string) {
    || (StartsWith(low, "[") && EndsWith(low, "]"))
    || Contains(low, "sanyuja")
    || low in SignoffPhrases
    || Contains(low, "linkedin") || Contains(low, "github")
  }

  /** What the filter loop appends for one line: a blank as "", noise as nothing, anything else stripped. */
  function FilterLine(line: string): seq<string> {
    var stripped := Strip(line);
    if stripped == "" then [stripped]
    else if IsNoise(Lower(stripped)) then []
    else [stripped]
  }

  /** The list `filtered` built by the filter loop. */
  function Filtered(lines: seq<string>): seq<string> {
    FlatMap(lines, FilterLine)
  }

  /** The list `cleaned` built by the collapsing loop: no leading blank and no two blanks in a row. */
  function Collapse(lines: seq<string>): (r: seq<string>)
    ensures r != [] ==> r[0] != ""
    ensures forall i :: 0 <= i < |r| - 1 ==> !(r[i] == "" && r[i + 1] == "")
  {
    if lines == [] then []
    else
      var c := Collapse(lines[..|lines| - 1]);
      var l := lines[|lines| - 1];
      if l == "" && (c == [] || c[|c| - 1] == "") then c else c + [l]
  }

  /** `while cleaned and cleaned[-1] == "": cleaned.pop()` */
  function DropTrailingBlanks(lines: seq<string>): (r: seq<string>)
    ensures r == [] || r[|r| - 1] != ""
  {
    if lines != [] && lines[|lines| - 1] == "" then DropTrailingBlanks(lines[..|lines| - 1])
    else lines
  }

  /** The test of the "final collapse": `l.strip() != "" or l == ""`. */
  predicate FinalLine(l: string) {
    Strip(l) != "" || l == ""
  }

  predicate NonEmptyLine(l: string) {
    l != ""
  }

  /** The lines `_clean_body_text` joins. */
  function BodyLines(raw: string): seq<string> {
    var lines := Lines(raw);
    var filtered := Filtered(lines[SkipGreetings(lines, 0)..]);
    Keep(Keep(DropTrailingBlanks(Collapse(filtered)), FinalLine), NonEmptyLine)
  }

  /** `_clean_body_text(raw)` */
  function CleanBody(raw: string): string {
    Join(BodyLines(raw), "\n")
  }

  /** A one-line string that no stripping changes. */
  predicate PlainPiece(l: string) {
    l != [] && Trimmed(l) && NoBreak(l)
  }

  /** A line of the cleaned body: non-empty, stripped, one line, and not noise. */
  predicate CleanLine(l: string) {
    PlainPiece(l) && !IsNoise(Lower(l))
  }

  predicate BlankOrClean(l: string) {
    l == "" || CleanLine(l)
  }

  // ---------------------------------------------------------------------
  // The loops of `_clean_body_text`

  /** Step 1: the index of the first line after the leading greetings. */
  method SkipGreetingLines(lines: seq<string>) returns (start: nat)
    ensures start == SkipGreetings(lines, 0)
  {
    start := 0;
    while start < |lines|
      invariant start <= |lines|
      invariant SkipLeading(lines, start, IsGreeting, BlankLine) == SkipGreetings(lines, 0)
      decreases |lines| - start
    {
      var l := Strip(lines[start]);
      var low := Lower(l);
      if (StartsWith(low, "hi ") || StartsWith(low, "hello ") || StartsWith(low, "dear "))
         && (EndsWith(low, ",") || EndsWith(low, ":"))
      {
        start := start + 1;
        if start < |lines| && Strip(lines[start]) == "" {
          start := start + 1;
        }
        continue;
      }
      break;
    }
  }

  /** Step 2: drop sign-offs, names and footers, keep blanks as "". */
  method FilterLines(lines: seq<string>) returns (filtered: seq<string>)
    ensures filtered == Filtered(lines)
  {
    filtered := [];
    for i := 0 to |lines|
      invariant filtered == FlatMap(lines[..i], FilterLine)
    {
      FlatMapStep(lines, i, FilterLine);
      var stripped := Strip(lines[i]);
      if stripped == "" {
        filtered := filtered + [stripped];
        continue;
      }
      var low := Lower(stripped);
      if StartsWith(low, "[") && EndsWith(low, "]") {
        continue;
      }
      if Contains(low, "sanyuja") {
        continue;
      }
      if low in SignoffPhrases {
        continue;
      }
      if Contains(low, "linkedin") || Contains(low, "github") {
        continue;
      }
      filtered := filtered + [stripped];
    }
    assert lines[..|lines|] == lines;
  }

  /** Step 3: collapse runs of blank lines, then pop trailing blanks. */
  method CollapseBlankLines(filtered: seq<string>) returns (cleaned: seq<string>)
    ensures cleaned == DropTrailingBlanks(Collapse(filtered))
  {
    cleaned := [];
    for i := 0 to |filtered|
      invariant cleaned == Collapse(filtered[..i])
    {
      assert filtered[..i + 1][..i] == filtered[..i];
      var l := filtered[i];
      if l == "" && (cleaned == [] || cleaned[|cleaned| - 1] == "") {
        continue;
      }
      cleaned := cleaned + [l];
    }
    assert filtered[..|filtered|] == filtered;
    while cleaned != [] && cleaned[|cleaned| - 1] == ""
      invariant DropTrailingBlanks(cleaned) == DropTrailingBlanks(Collapse(filtered))
      decreases |cleaned|
    {
      cleaned := cleaned[..|cleaned| - 1];
    }
  }

  /** `_clean_body_text` */
  method CleanBodyText(raw: string) returns (body: string)
    ensures body == CleanBody(raw)
  {
    var lines := Lines(raw);
    var start := SkipGreetingLines(lines);
    lines := lines[start..];
    var filtered := FilterLines(lines);
    var cleaned := CollapseBlankLines(filtered);
    cleaned := Keep(cleaned, FinalLine);
    body := Join(Keep(cleaned, NonEmptyLine), "\n");
  }

  // ---------------------------------------------------------------------
  // What the cleaning guarantees

  lemma LinesNoBreak(raw: string)
    ensures forall i :: 0 <= i < |Lines(raw)| ==> NoBreak(Lines(raw)[i])
  {
    var parts := SplitLines(Strip(raw));
    forall i | 0 <= i < |parts| ensures NoBreak(RStrip(parts[i])) {
      StripNoBreak(parts[i]);
    }
  }

  /** A stripped line that is neither blank nor noise is clean. */
  lemma StrippedClean(l: string)
    requires NoBreak(l) && Strip(l) != "" && !IsNoise(Lower(Strip(l)))
    ensures CleanLine(Strip(l))
  {
    StripNoBreak(l);
  }

  /** The filter keeps a line as "", drops it, or keeps it stripped; a kept non-blank line is clean. */
  lemma FilterLineClean(l: string)
    requires NoBreak(l)
    ensures forall x :: x in FilterLine(l) ==> BlankOrClean(x)
  {
    var s := Strip(l);
    if s == "" {
      assert FilterLine(l) == [""];
    } else if IsNoise(Lower(s)) {
      assert FilterLine(l) == [];
    } else {
      StrippedClean(l);
      assert FilterLine(l) == [s];
    }
  }

  lemma FilterLineShape(l: string)
    ensures FilterLine(l) == [] || FilterLine(l) == [Strip(l)]
  {
  }

  /** Everything the filter keeps is blank or clean. */
  lemma FilteredClean(lines: seq<string>)
    requires forall i :: 0 <= i < |lines| ==> NoBreak(lines[i])
    ensures forall x :: x in Filtered(lines) ==> BlankOrClean(x)
  {
    forall i | 0 <= i < |lines| ensures forall x :: x in FilterLine(lines[i]) ==> BlankOrClean(x) {
      FilterLineClean(lines[i]);
    }
    FlatMapAll(lines, FilterLine, BlankOrClean);
  }

  /** The filter keeps stripped input lines in their order. */
  lemma FilteredSubseq(lines: seq<string>)
    ensures Subseq(Filtered(lines), MapLines(lines, Strip))
  {
    forall i | 0 <= i < |lines| ensures FilterLine(lines[i]) == [] || FilterLine(lines[i]) == [Strip(lines[i])] {
      FilterLineShape(lines[i]);
    }
    FlatMapSubseq(lines, FilterLine, Strip);
  }

  lemma {:induction false} CollapseSubseq(lines: seq<string>)
    ensures Subseq(Collapse(lines), lines)
    decreases |lines|
  {
    if lines != [] {
      var lines' := lines[..|lines| - 1];
      CollapseSubseq(lines');
      SubseqAppend(Collapse(lines'), lines', lines[|lines| - 1]);
      assert lines' + [lines[|lines| - 1]] == lines;
    }
  }

  lemma {:induction false} DropSubseq(lines: seq<string>)
    ensures Subseq(DropTrailingBlanks(lines), lines)
    decreases |lines|
  {
    if lines != [] && lines[|lines| - 1] == "" {
      var lines' := lines[..|lines| - 1];
      DropSubseq(lines');
      SubseqAppend(DropTrailingBlanks(lines'), lines', "");
      assert lines' + [""] == lines;
    } else {
      SubseqRefl(lines);
    }
  }

  /** Collapsing blank lines does not change the non-empty lines. */
  lemma {:induction false} KeepCollapse(lines: seq<string>)
    ensures Keep(Collapse(lines), NonEmptyLine) == Keep(lines, NonEmptyLine)
    decreases |lines|
  {
    if lines != [] {
      var lines' := lines[..|lines| - 1];
      KeepCollapse(lines');
      KeepAppend(Collapse(lines'), lines[|lines| - 1], NonEmptyLine);
    }
  }

  /** Dropping trailing blank lines does not change the non-empty lines. */
  lemma {:induction false} KeepDrop(lines: seq<string>)
    ensures Keep(DropTrailingBlanks(lines), NonEmptyLine) == Keep(lines, NonEmptyLine)
    decreases |lines|
  {
    if lines != [] && lines[|lines| - 1] == "" {
      KeepDrop(lines[..|lines| - 1]);
    }
  }

  lemma CleanFinal(l: string)
    requires BlankOrClean(l)
    ensures FinalLine(l)
  {
    if l != "" {
      StripTrimmed(l);
    }
  }

  /** Collapsing, dropping trailing blanks and the final collapse keep exactly the non-empty lines of clean input. */
  lemma StagesVanish(f: seq<string>)
    requires forall x :: x in f ==> BlankOrClean(x)
    ensures Keep(Keep(DropTrailingBlanks(Collapse(f)), FinalLine), NonEmptyLine) == Keep(f, NonEmptyLine)
  {
    var d := DropTrailingBlanks(Collapse(f));
    CollapseSubseq(f);
    DropSubseq(Collapse(f));
    SubseqTrans(d, Collapse(f), f);
    SubseqMembers(d, f);
    forall i | 0 <= i < |d| ensures FinalLine(d[i]) {
      CleanFinal(d[i]);
    }
    KeepAll(d, FinalLine);
    KeepDrop(Collapse(f));
    KeepCollapse(f);
  }

  /**
   * The blank-line collapsing, the trailing-blank removal and the "final
   * collapse" leave no trace in the result: the cleaned body is the non-empty
   * lines of the filter's output, once leading greetings are skipped.
   */
  lemma BodyLinesAreFiltered(raw: string)
    ensures var lines := Lines(raw);
            BodyLines(raw) == Keep(Filtered(lines[SkipGreetings(lines, 0)..]), NonEmptyLine)
  {
    var lines := Lines(raw);
    var rest := lines[SkipGreetings(lines, 0)..];
    LinesNoBreak(raw);
    FilteredClean(rest);
    StagesVanish(Filtered(rest));
  }

  /**
   * Every line of the cleaned body is non-empty, stripped, free of line
   * breaks, and neither a bracketed placeholder, nor a sign-off phrase, nor a
   * line mentioning "sanyuja", "linkedin" or "github" in any letter case.
   */
  lemma BodyLinesClean(raw: string)
    ensures forall i :: 0 <= i < |BodyLines(raw)| ==> CleanLine(BodyLines(raw)[i])
  {
    var lines := Lines(raw);
    var rest := lines[SkipGreetings(lines, 0)..];
    var f := Filtered(rest);
    LinesNoBreak(raw);
    FilteredClean(rest);
    BodyLinesAreFiltered(raw);
    KeepSubseq(f, NonEmptyLine);
    SubseqMembers(Keep(f, NonEmptyLine), f);
  }

  /** What survives the greeting skip and the filter is a subsequence of the stripped lines. */
  lemma FilteredRestSubseq(lines: seq<string>, k: nat)
    requires k <= |lines|
    ensures Subseq(Keep(Filtered(lines[k..]), NonEmptyLine), MapLines(lines, Strip))
  {
    var f := Filtered(lines[k..]);
    KeepSubseq(f, NonEmptyLine);
    FilteredSubseq(lines[k..]);
    SubseqTrans(Keep(f, NonEmptyLine), f, MapLines(lines[k..], Strip));
    assert MapLines(lines[k..], Strip) == MapLines(lines, Strip)[k..];
    SubseqSuffix(MapLines(lines, Strip), k);
    SubseqTrans(Keep(f, NonEmptyLine), MapLines(lines[k..], Strip), MapLines(lines, Strip));
  }

  /** The cleaned body's lines are stripped input lines, in input order. */
  lemma BodyLinesSubseq(raw: string)
    ensures Subseq(BodyLines(raw), MapLines(Lines(raw), Strip))
  {
    BodyLinesAreFiltered(raw);
    FilteredRestSubseq(Lines(raw), SkipGreetings(Lines(raw), 0));
  }

  lemma BodyLinesPlain(raw: string)
    ensures forall i :: 0 <= i < |BodyLines(raw)| ==> PlainPiece(BodyLines(raw)[i])
  {
    BodyLinesClean(raw);
  }

  /** Plain lines joined by "\n" split back into the same lines. */
  lemma JoinedShape(b: seq<string>)
    requires forall i :: 0 <= i < |b| ==> PlainPiece(b[i])
    ensures Join(b, "\n") == "" <==> b == []
    ensures Join(b, "\n") != "" ==> Trimmed(Join(b, "\n"))
    ensures Join(b, "\n") != "" ==> Split(Join(b, "\n"), '\n') == b && SplitLines(Join(b, "\n")) == b
  {
    if b != [] {
      JoinEnds(b, "\n");
      assert forall i :: 0 <= i < |b| ==> '\n' !in b[i] by {
        forall i | 0 <= i < |b| ensures '\n' !in b[i] {
          assert NoBreak(b[i]);
        }
      }
      SplitJoin(b, '\n');
      SplitLinesJoin(b);
    }
  }

  /**
   * The cleaned body is empty or starts and ends with a non-blank character,
   * and both splitting it on "\n" and `splitlines()` give its lines back:
   * it has no empty line and no leading or trailing newline.
   */
  lemma CleanBodyShape(raw: string)
    ensures CleanBody(raw) == "" <==> BodyLines(raw) == []
    ensures CleanBody(raw) != "" ==> Trimmed(CleanBody(raw))
    ensures CleanBody(raw) != "" ==>
              Split(CleanBody(raw), '\n') == BodyLines(raw) && SplitLines(CleanBody(raw)) == BodyLines(raw)
  {
    BodyLinesPlain(raw);
    JoinedShape(BodyLines(raw));
  }

  // ---------------------------------------------------------------------
  // Cleaning is not idempotent

  lemma SplitThree(a: string, b: string, c: string)
    requires PlainPiece(a) && PlainPiece(b) && PlainPiece(c)
    ensures SplitLines(a + "\n" + b + "\n" + c) == [a, b, c]
  {
    assert a + "\n" + b + "\n" + c == a + "\n" + (b + "\n" + c);
    SplitLinesNoBreak(c);
    SplitLinesPiece(b, c);
    SplitLinesPiece(a, b + "\n" + c);
  }

  lemma SplitTwo(a: string, b: string)
    requires PlainPiece(a) && PlainPiece(b)
    ensures SplitLines(a + "\n" + b) == [a, b]
  {
    SplitLinesNoBreak(b);
    SplitLinesPiece(a, b);
  }

  lemma RStripPlain(lines: seq<string>)
    requires forall i :: 0 <= i < |lines| ==> PlainPiece(lines[i])
    ensures MapLines(lines, RStrip) == lines
  {
    forall i | 0 <= i < |lines| ensures RStrip(lines[i]) == lines[i] {
      RStripTrimmed(lines[i]);
    }
  }

  lemma TrimmedJoin(a: string, b: string)
    requires a != [] && b != [] && Trimmed(a) && Trimmed(b)
    ensures Trimmed(a + "\n" + b)
  {
    var s := a + "\n" + b;
    assert s[0] == a[0] && s[|s| - 1] == b[|b| - 1];
  }

  lemma LinesOfPlain(raw: string, parts: seq<string>)
    requires Trimmed(raw) && SplitLines(raw) == parts
    requires forall i :: 0 <= i < |parts| ==> PlainPiece(parts[i])
    ensures Lines(raw) == parts
  {
    StripTrimmed(raw);
    RStripPlain(parts);
  }

  lemma LinesOfThree(a: string, b: string, c: string)
    requires PlainPiece(a) && PlainPiece(b) && PlainPiece(c)
    ensures Lines(a + "\n" + b + "\n" + c) == [a, b, c]
  {
    TrimmedJoin(a, b);
    TrimmedJoin(a + "\n" + b, c);
    SplitThree(a, b, c);
    LinesOfPlain(a + "\n" + b + "\n" + c, [a, b, c]);
  }

  lemma LinesOfTwo(a: string, b: string)
    requires PlainPiece(a) && PlainPiece(b)
    ensures Lines(a + "\n" + b) == [a, b]
  {
    TrimmedJoin(a, b);
    SplitTwo(a, b);
    LinesOfPlain(a + "\n" + b, [a, b]);
  }

  /** The cleaned body read off the greeting skip and the filter. */
  lemma BodyFrom(raw: string, lines: seq<string>, k: nat, kept: seq<string>)
    requires Lines(raw) == lines && k <= |lines| && SkipGreetings(lines, 0) == k
    requires Keep(Filtered(lines[k..]), NonEmptyLine) == kept
    ensures CleanBody(raw) == Join(kept, "\n")
  {
    BodyLinesAreFiltered(raw);
  }

  lemma SkipNone(lines: seq<string>)
    requires lines != [] && !IsGreeting(lines[0])
    ensures SkipGreetings(lines, 0) == 0
  {
  }

  lemma SkipOne(lines: seq<string>)
    requires |lines| >= 2 && IsGreeting(lines[0]) && Strip(lines[1]) != "" && !IsGreeting(lines[1])
    ensures SkipGreetings(lines, 0) == 1
  {
    assert SkipLeading(lines, 1, IsGreeting, BlankLine) == 1;
  }

  lemma KeptTwo(g: string, b: string)
    requires g != "" && b != ""
    ensures Keep([g, b], NonEmptyLine) == [g, b]
  {
    KeepAll([g, b], NonEmptyLine);
  }

  lemma KeptOne(b: string)
    requires b != ""
    ensures Keep([b], NonEmptyLine) == [b]
  {
    KeepAll([b], NonEmptyLine);
  }

  /** A dropped line in front of a greeting stops the greeting from being recognised. */
  lemma NoiseBeforeGreeting(x: string, g: string, b: string)
    requires PlainPiece(x) && PlainPiece(g) && PlainPiece(b)
    requires SkipGreetings([x, g, b], 0) == 0
    requires FilterLine(x) == [] && FilterLine(g) == [g] && FilterLine(b) == [b]
    ensures CleanBody(x + "\n" + g + "\n" + b) == g + "\n" + b
  {
    var lines := [x, g, b];
    LinesOfThree(x, g, b);
    assert lines[0..] == lines;
    FlatMapThree(x, g, b, FilterLine);
    KeptTwo(g, b);
    BodyFrom(x + "\n" + g + "\n" + b, lines, 0, [g, b]);
  }

  /** A greeting in front is dropped. */
  lemma GreetingDropped(g: string, b: string)
    requires PlainPiece(g) && PlainPiece(b)
    requires SkipGreetings([g, b], 0) == 1 && FilterLine(b) == [b]
    ensures CleanBody(g + "\n" + b) == b
  {
    var lines := [g, b];
    LinesOfTwo(g, b);
    assert lines[1..] == [b];
    FlatMapOne(b, FilterLine);
    KeptOne(b);
    BodyFrom(g + "\n" + b, lines, 1, [b]);
  }

  /** A line with none of the letters y, k, g is free of the three names. */
  lemma NoNames(low: string)
    requires 'y' !in low && 'k' !in low && 'g' !in low
    ensures !Contains(low, "sanyuja") && !Contains(low, "linkedin") && !Contains(low, "github")
  {
    NotContainsByChar(low, "sanyuja", 'y');
    NotContainsByChar(low, "linkedin", 'k');
    NotContainsByChar(low, "github", 'g');
  }

  /** A lower-case line that cannot be mistaken for noise. */
  lemma NotNoise(low: string)
    requires low != [] && low !in SignoffPhrases
    requires low[0] != '[' && 'y' !in low && 'k' !in low && 'g' !in low
    ensures !IsNoise(low)
  {
    NoNames(low);
  }

  /** A stripped, lower-case line is kept as it is when it is not noise. */
  lemma KeptLine(l: string)
    requires l != [] && Trimmed(l) && NoUpper(l) && !IsNoise(l)
    ensures FilterLine(l) == [l]
  {
    StripTrimmed(l);
    LowerUnchanged(l);
  }

  lemma Bracketed(l: string)
    requires l != [] && l[0] == '[' && l[|l| - 1] == ']'
    ensures IsNoise(Lower(l))
  {
    assert StartsWith(Lower(l), "[") && EndsWith(Lower(l), "]");
  }

  /** A bracketed line is dropped. */
  lemma BracketDropped(l: string)
    requires l != [] && Trimmed(l) && l[0] == '[' && l[|l| - 1] == ']'
    ensures FilterLine(l) == []
  {
    Bracketed(l);
    StripTrimmed(l);
  }

  lemma HiGreetingLow(low: string)
    requires StartsWith(low, "hi ") && EndsWith(low, ",")
    ensures (StartsWith(low, "hi ") || StartsWith(low, "hello ") || StartsWith(low, "dear "))
            && (EndsWith(low, ",") || EndsWith(low, ":"))
  {
  }

  /** A stripped, lower-case line that starts with "hi " and ends with "," is a greeting. */
  lemma HiGreeting(l: string)
    requires Trimmed(l) && NoUpper(l) && StartsWith(l, "hi ") && EndsWith(l, ",")
    ensures IsGreeting(l)
  {
    StripTrimmed(l);
    LowerUnchanged(l);
    HiGreetingLow(l);
  }

  lemma NotGreetingLow(low: string)
    requires low != [] && low[0] != 'h' && low[0] != 'd'
    ensures !StartsWith(low, "hi ") && !StartsWith(low, "hello ") && !StartsWith(low, "dear ")
  {
    assert forall p: string :: p != [] && StartsWith(low, p) ==> low[0] == p[0];
  }

  /** A stripped line starting with neither h, H, d nor D is not a greeting. */
  lemma NotGreeting(l: string)
    requires l != [] && Trimmed(l) && l[0] != 'h' && l[0] != 'H' && l[0] != 'd' && l[0] != 'D'
    ensures !IsGreeting(l)
  {
    StripTrimmed(l);
    var low := Lower(l);
    assert low[0] == LowerChar(l[0]);
    NotGreetingLow(low);
  }

  /** The three sample lines: a placeholder, a greeting and a body line. */
  const Placeholder: string := "[x]"
  const Hello: string := "hi b,"
  const Line: string := "so"

  lemma SamplesPlain()
    ensures PlainPiece(Placeholder) && PlainPiece(Hello) && PlainPiece(Line)
  {
  }

  lemma PlaceholderDropped()
    ensures FilterLine(Placeholder) == [] && !IsGreeting(Placeholder)
  {
    BracketDropped(Placeholder);
    NotGreeting(Placeholder);
  }

  lemma HelloKept()
    ensures FilterLine(Hello) == [Hello] && IsGreeting(Hello)
  {
    NotNoise(Hello);
    KeptLine(Hello);
    HiGreeting(Hello);
  }

  lemma LineKept()
    ensures FilterLine(Line) == [Line] && !IsGreeting(Line) && Strip(Line) != ""
  {
    NotNoise(Line);
    KeptLine(Line);
    NotGreeting(Line);
  }

  /**
   * Cleaning is not idempotent: in "[x]\nhi b,\nso" the placeholder hides
   * the greeting from the first pass, which removes only "[x]"; a second
   * pass then removes the greeting too.
   */
  lemma CleanNotIdempotent()
    ensures CleanBody(Placeholder + "\n" + Hello + "\n" + Line) == Hello + "\n" + Line
    ensures CleanBody(Hello + "\n" + Line) == Line
  {
    SamplesPlain();
    PlaceholderDropped();
    HelloKept();
    LineKept();
    SkipNone([Placeholder, Hello, Line]);
    SkipOne([Hello, Line]);
    NoiseBeforeGreeting(Placeholder, Hello, Line);
    GreetingDropped(Hello, Line);
  }

  // ---------------------------------------------------------------------
  // `_format_email_html`

  const ParagraphBreak: string := "<br><br>"
  const Closing: string := "<br><br>Thanks,<br>Sanyuja"

  function Greeting(name: string): string {
    "Hi " + name + ",<br><br>"
  }

  lemma StrippedTrimmed(parts: seq<string>)
    ensures forall x :: x in MapLines(parts, Strip) ==> Trimmed(x)
  {
    forall i | 0 <= i < |parts| ensures Trimmed(Strip(parts[i])) {
      StripIsTrimmed(parts[i]);
    }
  }

  /** A blank body has no paragraphs. */
  lemma NoParagraphs()
    ensures Paragraphs(Split("", '\n')) == []
  {
    assert Split("", '\n') == [""];
    assert MapLines([""], Strip) == [""];
    assert Keep([""], NonEmptyLine) == [];
  }

  /** `[line.strip() for line in parts if line.strip()]`: non-empty stripped lines. */
  function Paragraphs(parts: seq<string>): (r: seq<string>)
    ensures forall i :: 0 <= i < |r| ==> r[i] != "" && Trimmed(r[i])
  {
    var stripped := MapLines(parts, Strip);
    StrippedTrimmed(parts);
    KeepSubseq(stripped, NonEmptyLine);
    SubseqMembers(Keep(stripped, NonEmptyLine), stripped);
    Keep(stripped, NonEmptyLine)
  }

  /** `_format_email_html(name, body)`: the fixed greeting, the body's lines as paragraphs, the fixed closing. */
  function FormatEmailHtml(name: string, body: string): (r: string)
    ensures StartsWith(r, Greeting(name)) && EndsWith(r, Closing)
  {
    var html := Join(Paragraphs(Split(Strip(body), '\n')), ParagraphBreak);
    assert (Greeting(name) + html + Closing)[..|Greeting(name)|] == Greeting(name);
    Greeting(name) + html + Closing
  }

  /** Lines that are already non-empty and stripped are their own paragraphs. */
  lemma ParagraphsOfStripped(parts: seq<string>)
    requires forall i :: 0 <= i < |parts| ==> parts[i] != "" && Trimmed(parts[i])
    ensures Paragraphs(parts) == parts
  {
    forall i | 0 <= i < |parts| ensures Strip(parts[i]) == parts[i] {
      StripTrimmed(parts[i]);
    }
    assert MapLines(parts, Strip) == parts;
    KeepAll(parts, NonEmptyLine);
  }

  /** Plain lines joined by "\n" come out as one paragraph each. */
  lemma FormatJoined(name: string, b: seq<string>)
    requires forall i :: 0 <= i < |b| ==> PlainPiece(b[i])
    ensures FormatEmailHtml(name, Join(b, "\n")) == Greeting(name) + Join(b, ParagraphBreak) + Closing
  {
    var body := Join(b, "\n");
    JoinedShape(b);
    if b != [] {
      StripTrimmed(body);
      ParagraphsOfStripped(b);
    } else {
      NoParagraphs();
    }
  }

  /** Wrapping a cleaned body makes each of its lines one paragraph. */
  lemma FormatCleanBody(name: string, raw: string)
    ensures FormatEmailHtml(name, CleanBody(raw))
            == Greeting(name) + Join(BodyLines(raw), ParagraphBreak) + Closing
  {
    BodyLinesPlain(raw);
    FormatJoined(name, BodyLines(raw));
  }

  /** An all-whitespace body puts the greeting directly against the closing. */
  lemma FormatBlankBody(name: string, body: string)
    requires IsBlank(body)
    ensures FormatEmailHtml(name, body) == Greeting(name) + Closing
  {
    StripEmptyIffBlank(body);
    NoParagraphs();
  }

  // ---------------------------------------------------------------------
  // The end of `draft_email`

  /** The completion call: it raised, or it returned a message whose content may be missing. */
  datatype Completion = Raised | Returned(content: Option<string>)

  const ErrorSentinel: string :=
    "[ERROR]" + " Failed to generate email. Check OPENROUTER_API_KEY, network, or model name."
  const EmptySentinel: string :=
    "[WARN]" + " Model returned empty content. Try a different model or check request."

  /**
   * What `draft_email` returns for a completion: a sentinel string when the
   * call raised or the content is missing or blank, the wrapped cleaned body
   * otherwise.
   */
  function DraftFromCompletion(managerName: string, reply: Completion): (r: string)
    ensures reply.Raised? ==> r == ErrorSentinel
    ensures reply.Returned? && (reply.content.None? || IsBlank(reply.content.value)) ==> r == EmptySentinel
    ensures r == ErrorSentinel || r == EmptySentinel || StartsWith(r, Greeting(managerName))
  {
    match reply
    case Raised => ErrorSentinel
    case Returned(content) =>
      if content.None? then EmptySentinel
      else
        StripEmptyIffBlank(content.value);
        if Strip(content.value) == "" then EmptySentinel
        else FormatEmailHtml(managerName, CleanBody(content.value))
  }

  /** A non-blank reply becomes the greeting, the cleaned lines as paragraphs, and the closing. */
  lemma DraftOfReply(managerName: string, text: string)
    requires !IsBlank(text)
    ensures DraftFromCompletion(managerName, Returned(Some(text)))
            == Greeting(managerName) + Join(BodyLines(text), ParagraphBreak) + Closing
  {
    StripEmptyIffBlank(text);
    FormatCleanBody(managerName, text);
  }

  /** A draft starts with "[" exactly when it is one of the two sentinels, never a real e-mail. */
  lemma SentinelIffBracket(managerName: string, reply: Completion)
    ensures var r := DraftFromCompletion(managerName, reply);
            (r != "" && r[0] == '[') <==> (r == ErrorSentinel || r == EmptySentinel)
  {
    var r := DraftFromCompletion(managerName, reply);
    assert ErrorSentinel[0] == '[' && EmptySentinel[0] == '[';
    if r != ErrorSentinel && r != EmptySentinel {
      var g := Greeting(managerName);
      assert g[0] == 'H';
      assert r[..|g|] == g;
      assert r[0] == r[..|g|][0];
    }
  }
}
