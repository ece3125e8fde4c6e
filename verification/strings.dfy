/**
 * The few operations on Python `str` values that the repository relies on:
 * `isspace`/`\s`, `lower`, `strip`, `startswith`/`endswith`, `in`, `split`,
 * `join`, `replace` and the prefix slice `s[:n]`.
 * `lower` is modelled on ASCII letters only (see README, "Left out").
 */
module Strings {

  /** Python's `str.isspace()` for one character; also the `\s` class of `re` on `str` patterns. */
  predicate IsSpace(c: char) {
    || c == ' '
    || ('\t' <= c <= '\r')
    || ('\U{1c}' <= c <= '\U{1f}')
    || c == '\U{85}' || c == '\U{a0}' || c == '\U{1680}'
    || ('\U{2000}' <= c <= '\U{200a}')
    || c == '\U{2028}' || c == '\U{2029}' || c == '\U{202f}' || c == '\U{205f}' || c == '\U{3000}'
  }

  /** Every character of `s` is whitespace (so `s.strip()` is empty). */
  predicate IsBlank(s: string) {
    forall i :: 0 <= i < |s| ==> IsSpace(s[i])
  }

  predicate IsUpper(c: char) { 'A' <= c <= 'Z' }

  function LowerChar(c: char): char {
    if IsUpper(c) then (c as int + 32) as char else c
  }

  /** `s.lower()` */
  function Lower(s: string): string {
    seq(|s|, i requires 0 <= i < |s| => LowerChar(s[i]))
  }

  /** No character of `s` is an upper-case letter: what `lower()` guarantees. */
  predicate NoUpper(s: string) {
    forall i :: 0 <= i < |s| ==> !IsUpper(s[i])
  }

  /** `s.lstrip()` */
  function LStrip(s: string): (r: string)
    ensures |r| <= |s| && r == s[|s| - |r|..]
    ensures r == [] || !IsSpace(r[0])
    ensures forall i :: 0 <= i < |s| - |r| ==> IsSpace(s[i])
    decreases |s|
  {
    if |s| > 0 && IsSpace(s[0]) then LStrip(s[1..]) else s
  }

  /** `s.rstrip()` */
  function RStrip(s: string): (r: string)
    ensures |r| <= |s| && r == s[..|r|]
    ensures r == [] || !IsSpace(r[|r| - 1])
    ensures forall i :: |r| <= i < |s| ==> IsSpace(s[i])
    decreases |s|
  {
    if |s| > 0 && IsSpace(s[|s| - 1]) then RStrip(s[..|s| - 1]) else s
  }

  /** `s.strip()`: the slice of `s` left once whitespace is removed from both ends. */
  function Strip(s: string): (r: string)
    ensures |r| <= |LStrip(s)| && r == LStrip(s)[..|r|]
    ensures r == [] || (!IsSpace(r[0]) && !IsSpace(r[|r| - 1]))
  {
    RStrip(LStrip(s))
  }

  /** `s` has no whitespace at either end, so `s.strip() == s`. */
  predicate Trimmed(s: string) {
    s == [] || (!IsSpace(s[0]) && !IsSpace(s[|s| - 1]))
  }

  /** Removing whitespace from the ends of a string that has none there changes nothing. */
  lemma StripUnchanged(s: string)
    requires s == [] || (!IsSpace(s[0]) && !IsSpace(s[|s| - 1]))
    ensures LStrip(s) == s && RStrip(s) == s && Strip(s) == s
  {
  }

  /** The `strip` half of `StripUnchanged`, for contexts where the other two equalities cost. */
  lemma StripIsTrimmed(s: string)
    ensures Trimmed(Strip(s))
  {
  }

  lemma StripTrimmed(s: string)
    requires Trimmed(s)
    ensures Strip(s) == s
  {
    StripUnchanged(s);
  }

  lemma RStripTrimmed(s: string)
    requires Trimmed(s)
    ensures RStrip(s) == s
  {
  }

  /** `strip` is idempotent. */
  lemma StripIdempotent(s: string)
    ensures Strip(Strip(s)) == Strip(s)
  {
    StripUnchanged(Strip(s));
  }

  /** `s.strip()` is empty exactly when `s` is all whitespace. */
  lemma StripEmptyIffBlank(s: string)
    ensures Strip(s) == [] <==> IsBlank(s)
  {
    var l := LStrip(s);
    if Strip(s) == [] {
      assert l == [];
    } else {
      var r := Strip(s);
      assert r[0] == s[|s| - |l|];
    }
  }

  lemma LowerSlice(s: string, i: int, j: int)
    requires 0 <= i <= j <= |s|
    ensures Lower(s[i..j]) == Lower(s)[i..j]
  {
  }

  lemma LowerIdempotent(s: string)
    ensures Lower(Lower(s)) == Lower(s)
  {
  }

  /** The output of `lower()` has no upper-case letter. */
  lemma LowerNoUpper(s: string)
    ensures NoUpper(Lower(s))
  {
  }

  /** Lower-casing never turns whitespace into non-whitespace or back. */
  lemma LowerCharSpace(c: char)
    ensures IsSpace(LowerChar(c)) == IsSpace(c)
  {
  }

  lemma {:induction false} LStripLower(s: string)
    ensures LStrip(Lower(s)) == Lower(LStrip(s))
    decreases |s|
  {
    var t := Lower(s);
    if |s| > 0 {
      LowerCharSpace(s[0]);
      assert t[0] == LowerChar(s[0]);
      if IsSpace(s[0]) {
        LowerSlice(s, 1, |s|);
        assert t[1..] == Lower(s[1..]);
        LStripLower(s[1..]);
      }
    }
  }

  lemma {:induction false} RStripLower(s: string)
    ensures RStrip(Lower(s)) == Lower(RStrip(s))
    decreases |s|
  {
    var t := Lower(s);
    if |s| > 0 {
      LowerCharSpace(s[|s| - 1]);
      assert t[|s| - 1] == LowerChar(s[|s| - 1]);
      if IsSpace(s[|s| - 1]) {
        LowerSlice(s, 0, |s| - 1);
        assert t[..|s| - 1] == Lower(s[..|s| - 1]);
        RStripLower(s[..|s| - 1]);
      }
    }
  }

  /** Case folding and whitespace stripping commute. */
  lemma StripLower(s: string)
    ensures Strip(Lower(s)) == Lower(Strip(s))
  {
    LStripLower(s);
    RStripLower(LStrip(s));
  }

  /** `s.startswith(p)` */
  predicate StartsWith(s: string, p: string) {
    |p| <= |s| && s[..|p|] == p
  }

  /** `s.endswith(p)` */
  predicate EndsWith(s: string, p: string) {
    |p| <= |s| && s[|s| - |p|..] == p
  }

  /** `k in s` for strings: `k` occurs in `s` as a contiguous substring. */
  predicate Contains(s: string, k: string)
    decreases |s|
  {
    StartsWith(s, k) || (|s| > 0 && Contains(s[1..], k))
  }

  /** An occurrence of `k` at position `i` of `s`. */
  predicate OccursAt(s: string, k: string, i: int) {
    0 <= i && i + |k| <= |s| && s[i..i + |k|] == k
  }

  lemma {:induction false} ContainsFromOccurrence(s: string, k: string, i: int)
    requires OccursAt(s, k, i)
    ensures Contains(s, k)
    decreases i
  {
    if i == 0 {
      assert s[..|k|] == k;
    } else {
      assert s[1..][i - 1..i - 1 + |k|] == s[i..i + |k|];
      ContainsFromOccurrence(s[1..], k, i - 1);
    }
  }

  lemma {:induction false} OccurrenceFromContains(s: string, k: string) returns (i: int)
    requires Contains(s, k)
    ensures OccursAt(s, k, i)
    decreases |s|
  {
    if StartsWith(s, k) {
      i := 0;
    } else {
      var j := OccurrenceFromContains(s[1..], k);
      assert s[1..][j..j + |k|] == s[j + 1..j + 1 + |k|];
      i := j + 1;
    }
  }

  /** `Contains` is exactly "has an occurrence somewhere". */
  lemma ContainsIff(s: string, k: string)
    ensures Contains(s, k) <==> exists i :: OccursAt(s, k, i)
  {
    if Contains(s, k) {
      var i := OccurrenceFromContains(s, k);
    }
    if exists i :: OccursAt(s, k, i) {
      var i :| OccursAt(s, k, i);
      ContainsFromOccurrence(s, k, i);
    }
  }

  /** Every character of a contained string is a character of the container. */
  lemma ContainsChar(s: string, k: string, j: int)
    requires Contains(s, k) && 0 <= j < |k|
    ensures k[j] in s
  {
    var i := OccurrenceFromContains(s, k);
    assert s[i + j] == s[i..i + |k|][j];
  }

  /** A string with a character that `s` lacks does not occur in `s`. */
  lemma NotContainsByChar(s: string, k: string, c: char)
    requires c in k && c !in s
    ensures !Contains(s, k)
  {
    if Contains(s, k) {
      var j :| 0 <= j < |k| && k[j] == c;
      ContainsChar(s, k, j);
    }
  }

  /** A two-character text cannot straddle or sit inside pieces that lack its characters. */
  lemma NotContainsPairAcross(a: string, b: string, k: string)
    requires |k| == 2 && k[1] !in a && k[0] !in b && (a == [] || a[|a| - 1] != k[0])
    ensures !Contains(a + b, k)
  {
    var s := a + b;
    forall i | 0 <= i ensures !OccursAt(s, k, i) {
      if i + 2 <= |s| {
      assert s[i..i + 2][0] == s[i] && s[i..i + 2][1] == s[i + 1];
      if i + 1 < |a| {
        assert s[i + 1] == a[i + 1];
      } else if i >= |a| {
        assert s[i] == b[i - |a|];
      } else {
        assert s[i] == a[|a| - 1];
      }
      }
    }
    ContainsIff(s, k);
  }

  /** The same, for a split of `s` at position `p`. */
  lemma PairAbsentAt(s: string, p: nat, k: string)
    requires |k| == 2 && 0 < p <= |s| && k[1] !in s[..p] && k[0] !in s[p..] && s[p - 1] != k[0]
    ensures !Contains(s, k)
  {
    assert s == s[..p] + s[p..];
    NotContainsPairAcross(s[..p], s[p..], k);
  }

  /** A text that does not occur cannot occur inside a longer one either. */
  lemma NotContainsOuter(s: string, x: string, m: string, y: string)
    requires !Contains(s, m)
    ensures !Contains(s, x + m + y)
  {
    var k := x + m + y;
    if Contains(s, k) {
      var i := OccurrenceFromContains(s, k);
      assert s[i..i + |k|] == k;
      forall j | 0 <= j < |m| ensures s[i + |x| + j] == m[j] {
        assert s[i + |x| + j] == s[i..i + |k|][|x| + j] == k[|x| + j];
      }
      assert s[i + |x|..i + |x| + |m|] == m;
      ContainsFromOccurrence(s, m, i + |x|);
    }
  }

  /** No keyword of `keywords` occurs in `s`, shown by one missing character per keyword. */
  lemma NoneOccur(s: string, keywords: seq<string>, missing: seq<char>)
    requires |missing| == |keywords|
    requires forall i :: 0 <= i < |keywords| ==> missing[i] in keywords[i] && missing[i] !in s
    ensures forall k :: k in keywords ==> !Contains(s, k)
  {
    forall k | k in keywords ensures !Contains(s, k) {
      var i :| 0 <= i < |keywords| && keywords[i] == k;
      NotContainsByChar(s, k, missing[i]);
    }
  }

  /** A string with an upper-case letter never occurs in lower-cased text. */
  lemma NotContainsUpper(s: string, k: string, j: int)
    requires 0 <= j < |k| && IsUpper(k[j])
    ensures !Contains(Lower(s), k)
  {
    if Contains(Lower(s), k) {
      ContainsChar(Lower(s), k, j);
      LowerNoUpper(s);
    }
  }

  /** `sep.join(parts)` */
  function Join(parts: seq<string>, sep: string): string {
    if |parts| == 0 then ""
    else if |parts| == 1 then parts[0]
    else parts[0] + sep + Join(parts[1..], sep)
  }

  /** `s.split(sep)` for a one-character separator: never empty, pieces free of `sep`. */
  function Split(s: string, sep: char): (r: seq<string>)
    ensures |r| >= 1
    ensures forall i :: 0 <= i < |r| ==> sep !in r[i]
    decreases |s|
  {
    if s == [] then [""]
    else
      var rest := Split(s[1..], sep);
      if s[0] == sep then [""] + rest
      else [[s[0]] + rest[0]] + rest[1..]
  }

  /** Joining the pieces of a split gives the string back. */
  lemma {:induction false} JoinSplit(s: string, sep: char)
    ensures Join(Split(s, sep), [sep]) == s
    decreases |s|
  {
    if s != [] {
      var rest := Split(s[1..], sep);
      JoinSplit(s[1..], sep);
      if s[0] == sep {
        assert Split(s, sep) == [""] + rest;
        assert ([""] + rest)[1..] == rest;
      } else {
        var r := Split(s, sep);
        assert r == [[s[0]] + rest[0]] + rest[1..];
        if |rest| == 1 {
          assert s == [s[0]] + s[1..];
        } else {
          assert r[1..] == rest[1..];
          assert Join(rest, [sep]) == rest[0] + [sep] + Join(rest[1..], [sep]);
          assert s == [s[0]] + s[1..];
        }
      }
    }
  }

  lemma {:induction false} SplitNoSep(a: string, sep: char)
    requires sep !in a
    ensures Split(a, sep) == [a]
    decreases |a|
  {
    if a != [] {
      SplitNoSep(a[1..], sep);
      assert [a[0]] + a[1..] == a;
    }
  }

  lemma {:induction false} SplitAfterPiece(a: string, sep: char, b: string)
    requires sep !in a
    ensures Split(a + [sep] + b, sep) == [a] + Split(b, sep)
    decreases |a|
  {
    if a == [] {
      assert a + [sep] + b == [sep] + b;
      assert ([sep] + b)[1..] == b;
    } else {
      var s := a + [sep] + b;
      assert s[1..] == a[1..] + [sep] + b;
      SplitAfterPiece(a[1..], sep, b);
      assert [a[0]] + a[1..] == a;
    }
  }

  /** Splitting a join gives the pieces back, when no piece holds the separator. */
  lemma {:induction false} SplitJoin(parts: seq<string>, sep: char)
    requires |parts| >= 1
    requires forall i :: 0 <= i < |parts| ==> sep !in parts[i]
    ensures Split(Join(parts, [sep]), sep) == parts
    decreases |parts|
  {
    if |parts| == 1 {
      SplitNoSep(parts[0], sep);
    } else {
      SplitJoin(parts[1..], sep);
      SplitAfterPiece(parts[0], sep, Join(parts[1..], [sep]));
      assert [parts[0]] + parts[1..] == parts;
    }
  }

  /** `s.replace(c, with)` for a one-character pattern. */
  function Replace(s: string, c: char, with: string): (r: string)
    ensures c !in with ==> c !in r
    decreases |s|
  {
    if s == [] then []
    else (if s[0] == c then with else [s[0]]) + Replace(s[1..], c, with)
  }

  function Min(a: int, b: int): int { if a <= b then a else b }

  /** Python's prefix slice `s[:n]`, including its meaning for a negative `n`. */
  function PyPrefix<T>(s: seq<T>, n: int): (r: seq<T>)
    ensures n >= 0 ==> |r| == Min(n, |s|)
    ensures n < 0 ==> |r| == if |s| + n >= 0 then |s| + n else 0
    ensures |r| <= |s| && r == s[..|r|]
  {
    if n >= 0 then (if n <= |s| then s[..n] else s)
    else if |s| + n >= 0 then s[..|s| + n]
    else []
  }

  /** A line boundary of `str.splitlines()`. */
  predicate IsLineBreak(c: char) {
    || c == '\n' || c == '\r' || c == '\U{0b}' || c == '\U{0c}'
    || ('\U{1c}' <= c <= '\U{1e}')
    || c == '\U{85}' || c == '\U{2028}' || c == '\U{2029}'
  }

  /** `s` holds no line boundary. */
  predicate NoBreak(s: string) {
    forall i :: 0 <= i < |s| ==> !IsLineBreak(s[i])
  }

  /**
   * `s.splitlines()`: the pieces between line boundaries, `\r\n` counting as
   * one boundary; a final boundary opens no empty last line.
   */
  function SplitLines(s: string): (r: seq<string>)
    ensures s == [] <==> r == []
    ensures forall i :: 0 <= i < |r| ==> NoBreak(r[i])
    decreases |s|
  {
    if s == [] then []
    else if IsLineBreak(s[0]) then
      var tail := if s[0] == '\r' && |s| > 1 && s[1] == '\n' then s[2..] else s[1..];
      [""] + SplitLines(tail)
    else
      var rest := SplitLines(s[1..]);
      if rest == [] then [[s[0]]] else [[s[0]] + rest[0]] + rest[1..]
  }

  lemma {:induction false} SplitLinesNoBreak(a: string)
    requires a != [] && NoBreak(a)
    ensures SplitLines(a) == [a]
    decreases |a|
  {
    if |a| > 1 {
      SplitLinesNoBreak(a[1..]);
      assert [a[0]] + a[1..] == a;
    } else {
      assert a[1..] == [];
      assert [a[0]] == a;
    }
  }

  lemma {:induction false} SplitLinesPiece(a: string, b: string)
    requires NoBreak(a)
    ensures SplitLines(a + "\n" + b) == [a] + SplitLines(b)
    decreases |a|
  {
    var s := a + "\n" + b;
    if a == [] {
      assert s[1..] == b;
    } else {
      assert s[1..] == a[1..] + "\n" + b;
      SplitLinesPiece(a[1..], b);
      assert [a[0]] + a[1..] == a;
    }
  }

  /** `"\n".join(parts).splitlines()` gives `parts` back when the last part is not empty. */
  lemma {:induction false} SplitLinesJoin(parts: seq<string>)
    requires |parts| >= 1 && parts[|parts| - 1] != []
    requires forall i :: 0 <= i < |parts| ==> NoBreak(parts[i])
    ensures SplitLines(Join(parts, "\n")) == parts
    decreases |parts|
  {
    if |parts| == 1 {
      SplitLinesNoBreak(parts[0]);
    } else {
      SplitLinesJoin(parts[1..]);
      SplitLinesPiece(parts[0], Join(parts[1..], "\n"));
      assert [parts[0]] + parts[1..] == parts;
    }
  }

  /** Stripping keeps a string free of line boundaries. */
  lemma StripNoBreak(s: string)
    requires NoBreak(s)
    ensures NoBreak(RStrip(s)) && NoBreak(Strip(s))
  {
    SliceNoBreak(s, 0, |RStrip(s)|);
    var l := LStrip(s);
    SliceNoBreak(s, |s| - |l|, |s|);
    SliceNoBreak(l, 0, |Strip(s)|);
  }

  lemma SliceNoBreak(s: string, i: int, j: int)
    requires NoBreak(s) && 0 <= i <= j <= |s|
    ensures NoBreak(s[i..j])
  {
    forall k | 0 <= k < j - i ensures !IsLineBreak(s[i..j][k]) {
      assert s[i..j][k] == s[i + k];
    }
  }

  /** Lower-casing a string with no upper-case letter changes nothing. */
  lemma LowerUnchanged(s: string)
    requires NoUpper(s)
    ensures Lower(s) == s
  {
  }

  /** The first and last characters of a join of non-empty parts. */
  lemma {:induction false} JoinEnds(parts: seq<string>, sep: string)
    requires |parts| >= 1
    requires forall i :: 0 <= i < |parts| ==> parts[i] != []
    ensures Join(parts, sep) != []
    ensures Join(parts, sep)[0] == parts[0][0]
    ensures Join(parts, sep)[|Join(parts, sep)| - 1] == parts[|parts| - 1][|parts[|parts| - 1]| - 1]
    decreases |parts|
  {
    if |parts| > 1 {
      JoinEnds(parts[1..], sep);
    }
  }
}
