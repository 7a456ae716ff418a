/**
 * The OCR text post-processor of utils/text_processor.py: line-break
 * normalisation followed by clean-up (collapse space runs, cap newline runs
 * at two, drop whitespace before punctuation, strip). Every regular
 * expression is written out as a left-to-right recursive rewrite.
 */
module TextProcessor {

  /** The ASCII characters `str.isspace()` accepts: space, TAB, LF, VT, FF, CR and FS, GS, RS, US. */
  const ASCII_WHITESPACE := " \t\n\U{b}\U{c}\r\U{1c}\U{1d}\U{1e}\U{1f}"

  /**
   * Python's `str.isspace()`, which is also what `\s` and `str.strip()` use:
   * the ASCII whitespace above plus the Unicode space separators.
   */
  predicate IsWhitespace(c: char) {
    || ('\t' <= c <= '\r')
    || ('\U{1c}' <= c <= '\U{1f}')
    || c == ' '
    || c == '\U{85}'
    || c == '\U{a0}'
    || c == '\U{1680}'
    || ('\U{2000}' <= c <= '\U{200a}')
    || c == '\U{2028}'
    || c == '\U{2029}'
    || c == '\U{202f}'
    || c == '\U{205f}'
    || c == '\U{3000}'
  }

  /** The class `[.,!?;:]`. */
  predicate IsPunctuation(c: char) {
    c == '.' || c == ',' || c == '!' || c == '?' || c == ';' || c == ':'
  }

  /** On ASCII, whitespace is exactly the ten characters above, and no punctuation mark is whitespace. */
  lemma AsciiWhitespace(c: char)
    ensures c < '\U{80}' ==> (IsWhitespace(c) <==> c in ASCII_WHITESPACE)
    ensures IsWhitespace(c) ==> !IsPunctuation(c)
  {
  }

  // ---------------------------------------------------------------------------
  // Shapes of the cleaned text

  ghost predicate NoDoubleSpace(s: string) {
    forall i :: 0 <= i < |s| - 1 ==> !(s[i] == ' ' && s[i + 1] == ' ')
  }

  ghost predicate NoNewlineRunOfThree(s: string) {
    forall i :: 0 <= i < |s| - 2 ==> !(s[i] == '\n' && s[i + 1] == '\n' && s[i + 2] == '\n')
  }

  ghost predicate NoWhitespaceBeforePunctuation(s: string) {
    forall i :: 0 <= i < |s| - 1 ==> !(IsWhitespace(s[i]) && IsPunctuation(s[i + 1]))
  }

  ghost predicate IsTrimmed(s: string) {
    |s| > 0 ==> !IsWhitespace(s[0]) && !IsWhitespace(s[|s| - 1])
  }

  /** `r` is obtained from `s` by deleting characters (and nothing else). */
  ghost predicate IsSubsequence(r: string, s: string)
    decreases |s|
  {
    if r == [] then true
    else if s == [] then false
    else (r[0] == s[0] && IsSubsequence(r[1..], s[1..])) || IsSubsequence(r, s[1..])
  }

  lemma {:induction false} SubsequenceReflexive(s: string)
    ensures IsSubsequence(s, s)
    decreases |s|
  {
    if s != [] {
      SubsequenceReflexive(s[1..]);
    }
  }

  lemma {:induction false} SubsequenceTransitive(a: string, b: string, c: string)
    requires IsSubsequence(a, b) && IsSubsequence(b, c)
    ensures IsSubsequence(a, c)
    decreases |c|
  {
    if a != [] {
      assert b != [] && c != [];
      if IsSubsequence(b, c[1..]) {
        SubsequenceTransitive(a, b, c[1..]);
      } else {
        assert b[0] == c[0] && IsSubsequence(b[1..], c[1..]);
        if a[0] == b[0] && IsSubsequence(a[1..], b[1..]) {
          SubsequenceTransitive(a[1..], b[1..], c[1..]);
        } else {
          SubsequenceTransitive(a, b[1..], c[1..]);
        }
      }
    }
  }

  /** Deleting characters never lengthens a string and never adds a character. */
  lemma {:induction false} SubsequenceShrinks(r: string, s: string)
    requires IsSubsequence(r, s)
    ensures |r| <= |s|
    ensures forall i :: 0 <= i < |r| ==> r[i] in s
    decreases |s|
  {
    if r != [] {
      if r[0] == s[0] && IsSubsequence(r[1..], s[1..]) {
        SubsequenceShrinks(r[1..], s[1..]);
        forall i | 0 <= i < |r|
          ensures r[i] in s
        {
          if i > 0 {
            assert r[i] == r[1..][i - 1];
          }
        }
      } else {
        SubsequenceShrinks(r, s[1..]);
      }
    }
  }

  lemma {:induction false} SliceIsSubsequence(s: string, i: nat, j: nat)
    requires i <= j <= |s|
    ensures IsSubsequence(s[i..j], s)
    decreases |s|
  {
    if i < j {
      if i == 0 {
        SliceIsSubsequence(s[1..], 0, j - 1);
        assert s[i..j][1..] == s[1..][0..j - 1];
      } else {
        SliceIsSubsequence(s[1..], i - 1, j - 1);
        assert s[1..][i - 1..j - 1] == s[i..j];
      }
    }
  }

  // ---------------------------------------------------------------------------
  // What a rewrite keeps

  /** `s` with every `c` deleted. */
  function Without(s: string, c: char): (r: string)
    ensures c !in r
    decreases |s|
  {
    if s == [] then [] else (if s[0] == c then [] else [s[0]]) + Without(s[1..], c)
  }

  /** `s` with all its whitespace deleted: the words of a text, run together in order. */
  function NonWhitespace(s: string): (r: string)
    ensures forall i :: 0 <= i < |r| ==> !IsWhitespace(r[i])
    decreases |s|
  {
    if s == [] then [] else (if IsWhitespace(s[0]) then [] else [s[0]]) + NonWhitespace(s[1..])
  }

  lemma {:induction false} NonWhitespaceAppend(a: string, b: string)
    ensures NonWhitespace(a + b) == NonWhitespace(a) + NonWhitespace(b)
    decreases |a|
  {
    if a != [] {
      var head := if IsWhitespace(a[0]) then [] else [a[0]];
      assert (a + b)[0] == a[0] && (a + b)[1..] == a[1..] + b;
      NonWhitespaceAppend(a[1..], b);
      assert NonWhitespace(a + b) == head + NonWhitespace(a[1..] + b);
      assert NonWhitespace(a) == head + NonWhitespace(a[1..]);
    } else {
      assert a + b == b;
    }
  }

  lemma {:induction false} WhitespaceVanishes(s: string)
    requires forall k :: 0 <= k < |s| ==> IsWhitespace(s[k])
    ensures NonWhitespace(s) == []
    decreases |s|
  {
    if s != [] {
      WhitespaceVanishes(s[1..]);
    }
  }

  /** The number of maximal runs of `c` in `s`, each counted at its last character. */
  function Runs(s: string, c: char): nat
    decreases |s|
  {
    if s == [] then 0
    else (if s[0] == c && (|s| == 1 || s[1] != c) then 1 else 0) + Runs(s[1..], c)
  }

  /** The number of maximal runs of `c` in `s` that are at least two long. */
  function LongRuns(s: string, c: char): nat
    decreases |s|
  {
    if |s| < 2 then 0
    else (if s[0] == c && s[1] == c && (|s| == 2 || s[2] != c) then 1 else 0) + LongRuns(s[1..], c)
  }

  // ---------------------------------------------------------------------------
  // re.sub(r' +', ' ', text)

  /** Every run of spaces becomes one space: a space followed by a space is dropped. */
  function CollapseSpaces(s: string): (r: string)
    ensures IsSubsequence(r, s)
    ensures |s| > 0 ==> |r| > 0 && r[0] == s[0]
    ensures NoDoubleSpace(r)
    decreases |s|
  {
    if |s| < 2 then
      SubsequenceReflexive(s);
      s
    else if s[0] == ' ' && s[1] == ' ' then
      CollapseSpaces(s[1..])
    else
      [s[0]] + CollapseSpaces(s[1..])
  }

  /**
   * Only spaces are removed, and one space of every run stays: the other
   * characters keep their order and the number of space runs is unchanged.
   */
  lemma {:induction false} CollapseSpacesRemovesOnlySpaces(s: string)
    ensures Without(CollapseSpaces(s), ' ') == Without(s, ' ')
    ensures NonWhitespace(CollapseSpaces(s)) == NonWhitespace(s)
    ensures Runs(CollapseSpaces(s), ' ') == Runs(s, ' ')
    decreases |s|
  {
    if |s| >= 2 {
      CollapseSpacesRemovesOnlySpaces(s[1..]);
      var rest := CollapseSpaces(s[1..]);
      if !(s[0] == ' ' && s[1] == ' ') {
        assert ([s[0]] + rest)[1..] == rest;
        assert rest[0] == s[1];
      }
    }
  }

  lemma {:induction false} CollapseSpacesFixesClean(s: string)
    requires NoDoubleSpace(s)
    ensures CollapseSpaces(s) == s
    decreases |s|
  {
    if |s| >= 2 {
      assert !(s[0] == ' ' && s[1] == ' ');
      CollapseSpacesFixesClean(s[1..]);
    }
  }

  // ---------------------------------------------------------------------------
  // re.sub(r'\n{3,}', '\n\n', text)

  /** A newline that starts a run of three or more is dropped, so every run keeps two. */
  function CapNewlineRuns(s: string): (r: string)
    ensures IsSubsequence(r, s)
    ensures |s| > 0 ==> |r| > 0 && r[0] == s[0]
    ensures |s| > 1 && !(s[0] == '\n' && s[1] == '\n') ==> |r| > 1 && r[1] == s[1]
    ensures NoNewlineRunOfThree(r)
    decreases |s|
  {
    if |s| < 3 then
      SubsequenceReflexive(s);
      s
    else if s[0] == '\n' && s[1] == '\n' && s[2] == '\n' then
      CapNewlineRuns(s[1..])
    else
      var rest := CapNewlineRuns(s[1..]);
      assert s[1..][0] == s[1] && s[1..][1] == s[2];
      PrependKeepsNoNewlineRunOfThree(s[0], rest);
      [s[0]] + rest
  }

  lemma PrependKeepsNoNewlineRunOfThree(c: char, rest: string)
    requires NoNewlineRunOfThree(rest)
    requires c == '\n' && |rest| > 1 && rest[0] == '\n' ==> rest[1] != '\n'
    ensures NoNewlineRunOfThree([c] + rest)
  {
    var r := [c] + rest;
    forall i | 0 <= i < |r| - 2
      ensures !(r[i] == '\n' && r[i + 1] == '\n' && r[i + 2] == '\n')
    {
      if i > 0 {
        assert r[i] == rest[i - 1] && r[i + 1] == rest[i] && r[i + 2] == rest[i + 1];
      }
    }
  }

  /**
   * Only newlines are removed, and only from runs of three or more: the other
   * characters keep their order, and there are as many newline runs, and as
   * many runs of two or more, as before.
   */
  lemma {:induction false} CapNewlineRunsRemovesOnlyNewlines(s: string)
    ensures Without(CapNewlineRuns(s), '\n') == Without(s, '\n')
    ensures NonWhitespace(CapNewlineRuns(s)) == NonWhitespace(s)
    ensures Runs(CapNewlineRuns(s), '\n') == Runs(s, '\n')
    ensures LongRuns(CapNewlineRuns(s), '\n') == LongRuns(s, '\n')
    decreases |s|
  {
    if |s| >= 3 {
      CapNewlineRunsRemovesOnlyNewlines(s[1..]);
      var rest := CapNewlineRuns(s[1..]);
      if !(s[0] == '\n' && s[1] == '\n' && s[2] == '\n') {
        var r := [s[0]] + rest;
        assert r[1..] == rest;
        assert s[1..][0] == s[1] && s[1..][1] == s[2];
        if !(s[1] == '\n' && s[2] == '\n') {
          assert |rest| > 1 && r[2] == s[2];
        }
      }
    }
  }

  lemma {:induction false} CapNewlineRunsKeepsNoDoubleSpace(s: string)
    requires NoDoubleSpace(s)
    ensures NoDoubleSpace(CapNewlineRuns(s))
    decreases |s|
  {
    if |s| >= 3 {
      CapNewlineRunsKeepsNoDoubleSpace(s[1..]);
    }
  }

  lemma {:induction false} CapNewlineRunsFixesClean(s: string)
    requires NoNewlineRunOfThree(s)
    ensures CapNewlineRuns(s) == s
    decreases |s|
  {
    if |s| >= 3 {
      assert !(s[0] == '\n' && s[1] == '\n' && s[2] == '\n');
      CapNewlineRunsFixesClean(s[1..]);
    }
  }

  // ---------------------------------------------------------------------------
  // re.sub(r'\s+([.,!?;:])', r'\1', text)

  /** `t` starts with a (possibly empty) run of whitespace that ends at a punctuation mark. */
  predicate RunEndsAtPunctuation(t: string)
    decreases |t|
  {
    |t| > 0 && (IsPunctuation(t[0]) || (IsWhitespace(t[0]) && RunEndsAtPunctuation(t[1..])))
  }

  /** The first character of `s` belongs to a whitespace run followed by punctuation. */
  predicate DropsHead(s: string) {
    |s| > 0 && IsWhitespace(s[0]) && RunEndsAtPunctuation(s[1..])
  }

  /** Every whitespace run that is followed by a punctuation mark is deleted. */
  function DropWhitespaceBeforePunctuation(s: string): (r: string)
    ensures IsSubsequence(r, s)
    ensures |s| > 0 && !DropsHead(s) ==> |r| > 0 && r[0] == s[0]
    ensures NoWhitespaceBeforePunctuation(r)
    decreases |s|
  {
    if |s| == 0 then
      s
    else if DropsHead(s) then
      DropWhitespaceBeforePunctuation(s[1..])
    else
      var rest := DropWhitespaceBeforePunctuation(s[1..]);
      if |s| > 1 && IsWhitespace(s[0]) then
        KeptWhitespaceKeepsSuccessor(s);
        [s[0]] + rest
      else
        [s[0]] + rest
  }

  /**
   * A kept whitespace character is not followed by punctuation in the output:
   * the next character of the input survives right after it.
   */
  lemma KeptWhitespaceKeepsSuccessor(s: string)
    requires |s| > 1 && IsWhitespace(s[0]) && !DropsHead(s)
    ensures !DropsHead(s[1..]) && !IsPunctuation(s[1])
  {
    assert !RunEndsAtPunctuation(s[1..]);
    assert s[1..][1..] == s[2..];
  }

  lemma {:induction false} DropKeepsNoDoubleSpace(s: string)
    requires NoDoubleSpace(s)
    ensures NoDoubleSpace(DropWhitespaceBeforePunctuation(s))
    decreases |s|
  {
    if |s| > 0 {
      DropKeepsNoDoubleSpace(s[1..]);
      if !DropsHead(s) && |s| > 1 && s[0] == ' ' {
        KeptWhitespaceKeepsSuccessor(s);
      }
    }
  }

  lemma {:induction false} DropKeepsNoNewlineRunOfThree(s: string)
    requires NoNewlineRunOfThree(s)
    ensures NoNewlineRunOfThree(DropWhitespaceBeforePunctuation(s))
    decreases |s|
  {
    if |s| > 0 {
      var rest := DropWhitespaceBeforePunctuation(s[1..]);
      DropKeepsNoNewlineRunOfThree(s[1..]);
      if !DropsHead(s) {
        var r := [s[0]] + rest;
        assert r == DropWhitespaceBeforePunctuation(s);
        if s[0] == '\n' && |s| > 1 {
          KeptWhitespaceKeepsSuccessor(s);
          if s[1] == '\n' && |s| > 2 {
            KeptWhitespaceKeepsSuccessor(s[1..]);
            assert s[1..][1..] == s[2..];
            assert rest == [s[1]] + DropWhitespaceBeforePunctuation(s[2..]);
          }
        }
        forall i | 0 <= i < |r| - 2
          ensures !(r[i] == '\n' && r[i + 1] == '\n' && r[i + 2] == '\n')
        {
          if i > 0 {
            assert r[i] == rest[i - 1] && r[i + 1] == rest[i] && r[i + 2] == rest[i + 1];
          }
        }
      }
    }
  }

  /** Only whitespace is removed: every other character survives, in order. */
  lemma {:induction false} DropRemovesOnlyWhitespace(s: string)
    ensures NonWhitespace(DropWhitespaceBeforePunctuation(s)) == NonWhitespace(s)
    decreases |s|
  {
    if |s| > 0 {
      DropRemovesOnlyWhitespace(s[1..]);
      if !DropsHead(s) {
        var rest := DropWhitespaceBeforePunctuation(s[1..]);
        assert ([s[0]] + rest)[1..] == rest;
      }
    }
  }

  lemma {:induction false} NoRunWithoutPunctuation(t: string)
    requires forall k :: 0 <= k < |t| ==> !IsPunctuation(t[k])
    ensures !RunEndsAtPunctuation(t)
    decreases |t|
  {
    if |t| > 0 {
      NoRunWithoutPunctuation(t[1..]);
    }
  }

  /** Whitespace that no punctuation follows is kept: text without punctuation is unchanged. */
  lemma {:induction false} DropLeavesUnpunctuatedText(s: string)
    requires forall k :: 0 <= k < |s| ==> !IsPunctuation(s[k])
    ensures DropWhitespaceBeforePunctuation(s) == s
    decreases |s|
  {
    if |s| > 0 {
      NoRunWithoutPunctuation(s[1..]);
      DropLeavesUnpunctuatedText(s[1..]);
    }
  }

  /** A run check that starts in `u` ends inside `u` when `u` ends in a non-whitespace character. */
  lemma {:induction false} RunEndsInsidePrefix(u: string, v: string)
    requires |u| > 0 && !IsWhitespace(u[|u| - 1])
    ensures RunEndsAtPunctuation(u + v) == RunEndsAtPunctuation(u)
    decreases |u|
  {
    assert (u + v)[0] == u[0];
    if |u| > 1 {
      assert (u + v)[1..] == u[1..] + v;
      RunEndsInsidePrefix(u[1..], v);
    }
  }

  /**
   * The pass works run by run: cutting the text right after a non-whitespace
   * character and cleaning the two pieces apart gives the same result.
   */
  lemma {:induction false} DropSplits(u: string, v: string)
    requires u == [] || !IsWhitespace(u[|u| - 1])
    ensures DropWhitespaceBeforePunctuation(u + v) == DropWhitespaceBeforePunctuation(u) + DropWhitespaceBeforePunctuation(v)
    decreases |u|
  {
    if u == [] {
      assert u + v == v;
    } else {
      var s := u + v;
      assert s[0] == u[0] && s[1..] == u[1..] + v;
      if |u| > 1 {
        RunEndsInsidePrefix(u[1..], v);
      }
      assert DropsHead(s) == DropsHead(u);
      DropSplits(u[1..], v);
      if !DropsHead(s) {
        assert [u[0]] + (DropWhitespaceBeforePunctuation(u[1..]) + DropWhitespaceBeforePunctuation(v))
            == ([u[0]] + DropWhitespaceBeforePunctuation(u[1..])) + DropWhitespaceBeforePunctuation(v);
      }
    }
  }

  lemma {:induction false} WhitespaceRunEndsAtPunctuation(w: string, p: char)
    requires forall k :: 0 <= k < |w| ==> IsWhitespace(w[k])
    requires IsPunctuation(p)
    ensures RunEndsAtPunctuation(w + [p])
    decreases |w|
  {
    if w != [] {
      assert (w + [p])[1..] == w[1..] + [p];
      WhitespaceRunEndsAtPunctuation(w[1..], p);
    }
  }

  /** A whitespace run followed by a punctuation mark leaves only the mark. */
  lemma {:induction false} DropRunBeforePunctuation(w: string, p: char)
    requires forall k :: 0 <= k < |w| ==> IsWhitespace(w[k])
    requires IsPunctuation(p)
    ensures DropWhitespaceBeforePunctuation(w + [p]) == [p]
    decreases |w|
  {
    AsciiWhitespace(p);
    if w == [] {
      assert DropWhitespaceBeforePunctuation([p]) == [p] + DropWhitespaceBeforePunctuation([]);
    } else {
      assert (w + [p])[1..] == w[1..] + [p];
      WhitespaceRunEndsAtPunctuation(w[1..], p);
      DropRunBeforePunctuation(w[1..], p);
    }
  }

  /** A whitespace run that reaches a punctuation mark leaves a whitespace right before it. */
  lemma {:induction false} DroppedHeadWitness(s: string)
    requires DropsHead(s)
    ensures !NoWhitespaceBeforePunctuation(s)
    decreases |s|
  {
    if !IsPunctuation(s[1]) {
      assert s[1..][1..] == s[2..];
      DroppedHeadWitness(s[1..]);
      var i :| 0 <= i < |s[1..]| - 1 && IsWhitespace(s[1..][i]) && IsPunctuation(s[1..][i + 1]);
      assert IsWhitespace(s[i + 1]) && IsPunctuation(s[i + 2]);
    }
  }

  lemma {:induction false} DropFixesClean(s: string)
    requires NoWhitespaceBeforePunctuation(s)
    ensures DropWhitespaceBeforePunctuation(s) == s
    decreases |s|
  {
    if |s| > 0 {
      if DropsHead(s) {
        DroppedHeadWitness(s);
      }
      DropFixesClean(s[1..]);
    }
  }

  // ---------------------------------------------------------------------------
  // text.strip()

  /** The number of whitespace characters `s` starts with. */
  function LeadingWhitespace(s: string): (n: nat)
    ensures n <= |s|
    ensures forall k :: 0 <= k < n ==> IsWhitespace(s[k])
    ensures n < |s| ==> !IsWhitespace(s[n])
    decreases |s|
  {
    if |s| > 0 && IsWhitespace(s[0]) then 1 + LeadingWhitespace(s[1..]) else 0
  }

  /** The number of whitespace characters `s` ends with. */
  function TrailingWhitespace(s: string): (n: nat)
    ensures n <= |s|
    ensures forall k :: |s| - n <= k < |s| ==> IsWhitespace(s[k])
    ensures n < |s| ==> !IsWhitespace(s[|s| - n - 1])
    decreases |s|
  {
    if |s| > 0 && IsWhitespace(s[|s| - 1]) then 1 + TrailingWhitespace(s[..|s| - 1]) else 0
  }

  /**
   * `s` without its leading and trailing whitespace: a contiguous middle
   * piece, surrounded in `s` only by whitespace, that neither starts nor
   * ends with whitespace.
   */
  function Strip(s: string): (r: string)
    ensures var a := LeadingWhitespace(s);
      && a + |r| <= |s|
      && r == s[a..a + |r|]
      && (forall k :: 0 <= k < a ==> IsWhitespace(s[k]))
      && (forall k :: a + |r| <= k < |s| ==> IsWhitespace(s[k]))
    ensures IsTrimmed(r)
  {
    var t := s[LeadingWhitespace(s)..];
    t[..|t| - TrailingWhitespace(t)]
  }

  lemma StripKeepsShapes(s: string)
    ensures IsSubsequence(Strip(s), s)
    ensures NoDoubleSpace(s) ==> NoDoubleSpace(Strip(s))
    ensures NoNewlineRunOfThree(s) ==> NoNewlineRunOfThree(Strip(s))
    ensures NoWhitespaceBeforePunctuation(s) ==> NoWhitespaceBeforePunctuation(Strip(s))
  {
    var a, r := LeadingWhitespace(s), Strip(s);
    SliceIsSubsequence(s, a, a + |r|);
    assert forall i :: 0 <= i < |r| ==> r[i] == s[a + i];
  }

  lemma {:induction false} LeadingWhitespaceVanishes(s: string)
    ensures NonWhitespace(s[LeadingWhitespace(s)..]) == NonWhitespace(s)
    decreases |s|
  {
    if |s| > 0 && IsWhitespace(s[0]) {
      LeadingWhitespaceVanishes(s[1..]);
      assert s[1..][LeadingWhitespace(s[1..])..] == s[LeadingWhitespace(s)..];
    } else {
      assert s[0..] == s;
    }
  }

  lemma {:induction false} TrailingWhitespaceVanishes(s: string)
    ensures NonWhitespace(s[..|s| - TrailingWhitespace(s)]) == NonWhitespace(s)
    decreases |s|
  {
    if |s| > 0 && IsWhitespace(s[|s| - 1]) {
      var init, c := s[..|s| - 1], s[|s| - 1];
      calc {
        NonWhitespace(s[..|s| - TrailingWhitespace(s)]);
        { assert s[..|s| - TrailingWhitespace(s)] == init[..|init| - TrailingWhitespace(init)]; }
        NonWhitespace(init[..|init| - TrailingWhitespace(init)]);
        { TrailingWhitespaceVanishes(init); }
        NonWhitespace(init);
        { WhitespaceAtEndVanishes(init, c); }
        NonWhitespace(init + [c]);
        { assert init + [c] == s; }
        NonWhitespace(s);
      }
    } else {
      assert s[..|s|] == s;
    }
  }

  lemma WhitespaceAtEndVanishes(s: string, c: char)
    requires IsWhitespace(c)
    ensures NonWhitespace(s + [c]) == NonWhitespace(s)
  {
    NonWhitespaceAppend(s, [c]);
    assert NonWhitespace([c]) == [] + NonWhitespace([c][1..]);
    assert [c][1..] == [];
    assert s + [] == s;
    assert NonWhitespace(s) + [] == NonWhitespace(s);
  }

  /** Only whitespace is removed. */
  lemma StripRemovesOnlyWhitespace(s: string)
    ensures NonWhitespace(Strip(s)) == NonWhitespace(s)
  {
    var t := s[LeadingWhitespace(s)..];
    LeadingWhitespaceVanishes(s);
    TrailingWhitespaceVanishes(t);
  }

  lemma StripFixesTrimmed(s: string)
    requires IsTrimmed(s)
    ensures Strip(s) == s
  {
    assert LeadingWhitespace(s) == 0;
    assert TrailingWhitespace(s) == 0;
  }

  // ---------------------------------------------------------------------------
  // clean_text, normalize_line_breaks, preprocess_text

  /** The shapes every cleaned text has. */
  ghost predicate IsClean(s: string) {
    NoDoubleSpace(s) && NoNewlineRunOfThree(s) && NoWhitespaceBeforePunctuation(s) && IsTrimmed(s)
  }

  /**
   * The cleaned text has every shape above, and it differs from `text` only
   * by deleted whitespace: every other character survives, in order.
   */
  function CleanText(text: string): (r: string)
    ensures IsClean(r)
    ensures IsSubsequence(r, text)
    ensures NonWhitespace(r) == NonWhitespace(text)
    ensures |r| <= |text|
  {
    if |text| == 0 then
      ""
    else
      var a := CollapseSpaces(text);
      var b := CapNewlineRuns(a);
      var c := DropWhitespaceBeforePunctuation(b);
      CapNewlineRunsKeepsNoDoubleSpace(a);
      DropKeepsNoDoubleSpace(b);
      DropKeepsNoNewlineRunOfThree(b);
      StripKeepsShapes(c);
      CollapseSpacesRemovesOnlySpaces(text);
      CapNewlineRunsRemovesOnlyNewlines(a);
      DropRemovesOnlyWhitespace(b);
      StripRemovesOnlyWhitespace(c);
      SubsequenceTransitive(c, b, a);
      SubsequenceTransitive(c, a, text);
      SubsequenceTransitive(Strip(c), c, text);
      SubsequenceShrinks(Strip(c), text);
      Strip(c)
  }

  /** Cleaning a cleaned text changes nothing. */
  lemma CleanTextIdempotent(text: string)
    ensures CleanText(CleanText(text)) == CleanText(text)
  {
    var r := CleanText(text);
    if |r| > 0 {
      CollapseSpacesFixesClean(r);
      CapNewlineRunsFixesClean(r);
      DropFixesClean(r);
      StripFixesTrimmed(r);
    }
  }

  /** `text.replace('\r\n', '\n')`: pairs are replaced left to right without overlap. */
  function ReplaceCrLf(s: string): (r: string)
    decreases |s|
  {
    if |s| >= 2 && s[0] == '\r' && s[1] == '\n' then "\n" + ReplaceCrLf(s[2..])
    else if |s| == 0 then s
    else [s[0]] + ReplaceCrLf(s[1..])
  }

  /**
   * Python's `str.replace` scans left to right, so in "\r\r\n" only the
   * second CR goes: the rewrite deletes carriage returns and nothing else,
   * and every other character keeps its place in the order.
   */
  lemma {:induction false} ReplaceCrLfDeletesOnlyCr(s: string)
    ensures IsSubsequence(ReplaceCrLf(s), s)
    ensures Without(ReplaceCrLf(s), '\r') == Without(s, '\r')
    ensures NonWhitespace(ReplaceCrLf(s)) == NonWhitespace(s)
    decreases |s|
  {
    var r := ReplaceCrLf(s);
    if |s| >= 2 && s[0] == '\r' && s[1] == '\n' {
      ReplaceCrLfDeletesOnlyCr(s[2..]);
      assert r == "\n" + ReplaceCrLf(s[2..]) && r[1..] == ReplaceCrLf(s[2..]);
      assert s[1..][0] == '\n' && s[1..][1..] == s[2..];
      assert IsSubsequence(r, s[1..]);
      assert Without(s, '\r') == Without(s[1..], '\r') == "\n" + Without(s[2..], '\r');
      assert NonWhitespace(s) == NonWhitespace(s[1..]) == NonWhitespace(s[2..]);
    } else if |s| > 0 {
      ReplaceCrLfDeletesOnlyCr(s[1..]);
      assert r == [s[0]] + ReplaceCrLf(s[1..]) && r[1..] == ReplaceCrLf(s[1..]);
    }
  }

  /** `text.replace('\r', '\n')`: every CR becomes LF, everything else stays in place. */
  function ReplaceCr(s: string): (r: string)
    ensures |r| == |s| && '\r' !in r
    ensures forall i :: 0 <= i < |s| && s[i] == '\r' ==> r[i] == '\n'
    ensures forall i :: 0 <= i < |s| && s[i] != '\r' ==> r[i] == s[i]
    decreases |s|
  {
    if |s| == 0 then s else [if s[0] == '\r' then '\n' else s[0]] + ReplaceCr(s[1..])
  }

  /** Every kind of line break becomes LF; only whitespace changes. */
  function NormalizeLineBreaks(text: string): (r: string)
    ensures '\r' !in r
    ensures |r| <= |text|
    ensures NonWhitespace(r) == NonWhitespace(text)
  {
    NormalizeMatchesOnePass(text);
    OnePassShape(text);
    ReplaceCrLfDeletesOnlyCr(text);
    ReplaceCrKeepsText(ReplaceCrLf(text));
    ReplaceCr(ReplaceCrLf(text))
  }

  lemma {:induction false} ReplaceCrKeepsText(s: string)
    ensures NonWhitespace(ReplaceCr(s)) == NonWhitespace(s)
    decreases |s|
  {
    if s != [] {
      ReplaceCrKeepsText(s[1..]);
      var r := ReplaceCr(s);
      assert r[1..] == ReplaceCr(s[1..]);
    }
  }

  /**
   * An independent one-pass reading of the two replacements: a CR LF pair
   * becomes one LF, a lone CR becomes LF, everything else is copied.
   */
  function LineBreaksOnePass(s: string): string
    decreases |s|
  {
    if |s| == 0 then s
    else if s[0] == '\r' && |s| >= 2 && s[1] == '\n' then "\n" + LineBreaksOnePass(s[2..])
    else if s[0] == '\r' then "\n" + LineBreaksOnePass(s[1..])
    else [s[0]] + LineBreaksOnePass(s[1..])
  }

  lemma {:induction false} OnePassShape(s: string)
    ensures '\r' !in LineBreaksOnePass(s)
    ensures |LineBreaksOnePass(s)| <= |s|
    decreases |s|
  {
    if |s| >= 2 && s[0] == '\r' && s[1] == '\n' {
      OnePassShape(s[2..]);
    } else if |s| > 0 {
      OnePassShape(s[1..]);
    }
  }

  lemma {:induction false} NormalizeMatchesOnePass(s: string)
    ensures ReplaceCr(ReplaceCrLf(s)) == LineBreaksOnePass(s)
    decreases |s|
  {
    if |s| >= 2 && s[0] == '\r' && s[1] == '\n' {
      NormalizeMatchesOnePass(s[2..]);
      assert ReplaceCrLf(s) == "\n" + ReplaceCrLf(s[2..]);
      assert ("\n" + ReplaceCrLf(s[2..]))[1..] == ReplaceCrLf(s[2..]);
    } else if |s| > 0 {
      NormalizeMatchesOnePass(s[1..]);
      assert ReplaceCrLf(s) == [s[0]] + ReplaceCrLf(s[1..]);
      assert ([s[0]] + ReplaceCrLf(s[1..]))[1..] == ReplaceCrLf(s[1..]);
    }
  }

  /** A CR LF pair gives one line break, not two. */
  lemma CrLfIsOneLineBreak(rest: string)
    ensures NormalizeLineBreaks("\r\n" + rest) == "\n" + NormalizeLineBreaks(rest)
  {
    NormalizeMatchesOnePass("\r\n" + rest);
    NormalizeMatchesOnePass(rest);
    assert ("\r\n" + rest)[2..] == rest;
  }

  function PreprocessText(text: string): (r: string)
    ensures IsClean(r)
    ensures '\r' !in r
    ensures |r| <= |text|
    ensures NonWhitespace(r) == NonWhitespace(text)
  {
    var n := NormalizeLineBreaks(text);
    SubsequenceShrinks(CleanText(n), n);
    CleanText(n)
  }
}
