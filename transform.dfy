/** `transform_text` (mistral/views.py:105-109) and `str.strip()`.

    The third step, a regular-expression substitution that joins two letter
    runs separated by one whitespace character, is written as the scan
    `re.sub` performs: at each position it tries the
    pattern; on a match it emits both letter runs without the whitespace
    character and resumes after the match, otherwise it copies one
    character.  The pattern has no anchors and no look-behind, so whether it
    matches at position i of t depends only on t[i..]; `MergePairs` therefore
    recurses on suffixes. */
module Transform {

  /** An ASCII letter: the class the pattern's letter groups match. */
  predicate IsAsciiLetter(c: char) {
    ('A' <= c <= 'Z') || ('a' <= c <= 'z')
  }

  /** Python's whitespace class, matched by `\s` in a str pattern and removed
      by `str.strip()`: the characters for which `str.isspace()` holds, as
      inclusive code-point ranges (tab to carriage return, the information
      separators U+001C to U+001F and space, U+0085, no-break space, the
      Unicode space separators, the line and paragraph separators). */
  const SpaceRanges: seq<(int, int)> := [
    (0x09, 0x0D), (0x1C, 0x20), (0x85, 0x85), (0xA0, 0xA0), (0x1680, 0x1680),
    (0x2000, 0x200A), (0x2028, 0x2029), (0x202F, 0x202F), (0x205F, 0x205F),
    (0x3000, 0x3000)
  ]

  predicate InRanges(n: int, ranges: seq<(int, int)>) {
    ranges != [] && ((ranges[0].0 <= n <= ranges[0].1) || InRanges(n, ranges[1..]))
  }

  predicate IsSpace(c: char) {
    InRanges(c as int, SpaceRanges)
  }

  /** No range of the whitespace class reaches an ASCII letter. */
  lemma {:induction false} RangesAvoidLetters(n: int, ranges: seq<(int, int)>)
    requires forall i :: 0 <= i < |ranges| ==> ranges[i].1 < 'A' as int || 'z' as int < ranges[i].0
    requires InRanges(n, ranges)
    ensures n < 'A' as int || 'z' as int < n
    decreases |ranges|
  {
    if !(ranges[0].0 <= n <= ranges[0].1) {
      RangesAvoidLetters(n, ranges[1..]);
    }
  }

  lemma SpaceIsNotLetter(c: char)
    requires IsSpace(c)
    ensures !IsAsciiLetter(c)
  {
    RangesAvoidLetters(c as int, SpaceRanges);
  }

  predicate AllLetters(w: string) {
    forall i :: 0 <= i < |w| ==> IsAsciiLetter(w[i])
  }

  // ---------------------------------------------------------------------
  // Step 1 and 2: the two `str.replace` calls

  /** The text with every newline replaced by a space. */
  function ReplaceNewlines(s: string): (r: string)
    ensures |r| == |s|
    ensures forall i :: 0 <= i < |s| ==> r[i] == (if s[i] == '\n' then ' ' else s[i])
    ensures '\n' !in r
  {
    if s == [] then [] else [if s[0] == '\n' then ' ' else s[0]] + ReplaceNewlines(s[1..])
  }

  /** The text with every backslash deleted. */
  function DeleteBackslashes(s: string): (r: string)
    ensures '\\' !in r
    ensures |r| <= |s|
  {
    if s == [] then [] else (if s[0] == '\\' then [] else [s[0]]) + DeleteBackslashes(s[1..])
  }

  // ---------------------------------------------------------------------
  // Step 3: the `re.sub` scan

  /** The maximal run of ASCII letters at the start of s: what the greedy
      `[A-Za-z]+` consumes. */
  function LeadingLetters(s: string): (w: string)
    ensures |w| <= |s|
  {
    if s != [] && IsAsciiLetter(s[0]) then [s[0]] + LeadingLetters(s[1..]) else []
  }

  /** What follows `LeadingLetters(s)`. */
  function AfterLetters(s: string): (t: string)
    ensures |t| <= |s|
    ensures t == [] || !IsAsciiLetter(t[0])
  {
    if s != [] && IsAsciiLetter(s[0]) then AfterLetters(s[1..]) else s
  }

  /** The pattern matches at the start of s: a letter run, one whitespace
      character and a letter.  A shorter first group would be followed by a
      letter, not by whitespace, so backtracking never finds a match the
      maximal run misses. */
  predicate MatchAtStart(s: string) {
    var t := AfterLetters(s);
    s != [] && IsAsciiLetter(s[0]) && |t| >= 2 && IsSpace(t[0]) && IsAsciiLetter(t[1])
  }

  /** The regular-expression step: scanning left to right, each run of
      letters followed by one whitespace character and another run of
      letters is replaced by the two runs joined; the scan resumes after
      the second run, so matches never overlap. */
  function MergePairs(s: string): (r: string)
    decreases |s|
  {
    if s == [] then []
    else if MatchAtStart(s) then
      var t := AfterLetters(s)[1..];
      LeadingLetters(s) + (LeadingLetters(t) + MergePairs(AfterLetters(t)))
    else
      [s[0]] + MergePairs(s[1..])
  }

  /** The text normaliser: newlines become spaces, backslashes go, and then
      the whitespace between two letter runs is deleted. */
  function TransformText(s: string): (r: string)
    ensures '\n' !in r && '\\' !in r
    ensures |r| <= |s|
  {
    var t := DeleteBackslashes(ReplaceNewlines(s));
    DeleteKeepsAbsent(ReplaceNewlines(s), '\n');
    MergeKeepsAbsent(t, '\n');
    MergeKeepsAbsent(t, '\\');
    MergeNoLonger(t);
    MergePairs(t)
  }

  // ---------------------------------------------------------------------
  // `str.strip()` with no argument

  /** `s.lstrip()`: the longest suffix of s that does not start with
      whitespace. */
  function TrimStart(s: string): (r: string)
    ensures |r| <= |s| && r == s[|s| - |r|..]
    ensures r == [] || !IsSpace(r[0])
    decreases |s|
  {
    if s != [] && IsSpace(s[0]) then TrimStart(s[1..]) else s
  }

  /** `s.rstrip()`: the longest prefix of s that does not end with
      whitespace. */
  function TrimEnd(s: string): (r: string)
    ensures |r| <= |s| && r == s[..|r|]
    ensures r == [] || !IsSpace(r[|r| - 1])
    decreases |s|
  {
    if s != [] && IsSpace(s[|s| - 1]) then TrimEnd(s[..|s| - 1]) else s
  }

  /** The text with the whitespace at both ends removed. */
  function Strip(s: string): (r: string)
    ensures |r| <= |s|
    ensures r == [] || (!IsSpace(r[0]) && !IsSpace(r[|r| - 1]))
  {
    TrimEnd(TrimStart(s))
  }

  // ---------------------------------------------------------------------
  // Reference views of a text

  /** The characters of s that are not whitespace, in order. */
  function NonSpace(s: string): string {
    if s == [] then [] else (if IsSpace(s[0]) then [] else [s[0]]) + NonSpace(s[1..])
  }

  /** The characters of s that are neither whitespace nor a backslash, in
      order: what `transform_text` must keep. */
  function Visible(s: string): string {
    if s == [] then []
    else (if IsSpace(s[0]) || s[0] == '\\' then [] else [s[0]]) + Visible(s[1..])
  }

  /** s holds a letter, one whitespace character and a letter in a row at p. */
  predicate PairAt(s: string, p: nat) {
    p + 2 < |s| && IsAsciiLetter(s[p]) && IsSpace(s[p + 1]) && IsAsciiLetter(s[p + 2])
  }

  predicate HasPair(s: string) {
    exists p: nat :: p < |s| && PairAt(s, p)
  }

  /** r is s with some of its whitespace characters deleted: every other
      character is kept, in order, and nothing is added or replaced. */
  predicate SpaceDeleted(r: string, s: string)
    decreases |s|
  {
    if s == [] then r == []
    else
      (r != [] && r[0] == s[0] && SpaceDeleted(r[1..], s[1..]))
      || (IsSpace(s[0]) && SpaceDeleted(r, s[1..]))
  }

  // ---------------------------------------------------------------------
  // The letter run

  lemma {:induction false} SplitAtLetters(s: string)
    ensures s == LeadingLetters(s) + AfterLetters(s)
    ensures AllLetters(LeadingLetters(s))
    decreases |s|
  {
    if s != [] && IsAsciiLetter(s[0]) {
      var w, t := LeadingLetters(s[1..]), AfterLetters(s[1..]);
      SplitAtLetters(s[1..]);
      assert LeadingLetters(s) == [s[0]] + w && AfterLetters(s) == t;
      assert s == [s[0]] + (w + t);
      forall i | 0 <= i < |w| + 1
        ensures IsAsciiLetter(([s[0]] + w)[i])
      {
        if i > 0 {
          assert ([s[0]] + w)[i] == w[i - 1];
        }
      }
    }
  }

  /** A letter run followed by a non-letter splits there. */
  lemma {:induction false} LettersOf(w: string, t: string)
    requires AllLetters(w)
    requires t == [] || !IsAsciiLetter(t[0])
    ensures LeadingLetters(w + t) == w && AfterLetters(w + t) == t
    decreases |w|
  {
    if w == [] {
      assert w + t == t;
    } else {
      assert (w + t)[0] == w[0] && (w + t)[1..] == w[1..] + t;
      LettersOf(w[1..], t);
    }
  }

  /** The pieces of one match: s is u + [c] + v + t with u and v the two
      letter runs and c the whitespace character between them. */
  lemma MatchPieces(s: string)
    requires MatchAtStart(s)
    ensures var u, a := LeadingLetters(s), AfterLetters(s);
      var v, t := LeadingLetters(a[1..]), AfterLetters(a[1..]);
      s == u + ([a[0]] + (v + t)) && u != [] && v != [] && IsSpace(a[0])
      && AllLetters(u) && AllLetters(v) && MergePairs(s) == u + (v + MergePairs(t))
  {
    var a := AfterLetters(s);
    SplitAtLetters(s);
    SplitAtLetters(a[1..]);
    assert a == [a[0]] + a[1..];
  }

  // ---------------------------------------------------------------------
  // Lemmas about the scan

  lemma {:induction false} NonSpaceAppend(a: string, b: string)
    ensures NonSpace(a + b) == NonSpace(a) + NonSpace(b)
    decreases |a|
  {
    if a == [] {
      assert a + b == b;
    } else {
      assert (a + b)[0] == a[0] && (a + b)[1..] == a[1..] + b;
      NonSpaceAppend(a[1..], b);
    }
  }

  lemma {:induction false} VisibleAppend(a: string, b: string)
    ensures Visible(a + b) == Visible(a) + Visible(b)
    decreases |a|
  {
    if a == [] {
      assert a + b == b;
    } else {
      assert (a + b)[0] == a[0] && (a + b)[1..] == a[1..] + b;
      VisibleAppend(a[1..], b);
    }
  }

  /** The merge step emits nothing longer than its input. */
  lemma {:induction false} MergeNoLonger(s: string)
    ensures |MergePairs(s)| <= |s|
    decreases |s|
  {
    if s == [] {
    } else if MatchAtStart(s) {
      MatchPieces(s);
      MergeNoLonger(AfterLetters(AfterLetters(s)[1..]));
    } else {
      MergeNoLonger(s[1..]);
    }
  }

  /** A character absent from the input is absent from the merge. */
  lemma {:induction false} MergeKeepsAbsent(s: string, x: char)
    requires x !in s
    ensures x !in MergePairs(s)
    decreases |s|
  {
    if s == [] {
    } else if MatchAtStart(s) {
      MatchPieces(s);
      MergeKeepsAbsent(AfterLetters(AfterLetters(s)[1..]), x);
    } else {
      assert s == [s[0]] + s[1..];
      MergeKeepsAbsent(s[1..], x);
    }
  }

  lemma {:induction false} DeleteKeepsAbsent(s: string, x: char)
    requires x !in s
    ensures x !in DeleteBackslashes(s)
    decreases |s|
  {
    if s != [] {
      assert s == [s[0]] + s[1..];
      DeleteKeepsAbsent(s[1..], x);
    }
  }

  /** A common prefix survives the deletion. */
  lemma {:induction false} SpaceDeletedPrefix(w: string, r: string, s: string)
    requires SpaceDeleted(r, s)
    ensures SpaceDeleted(w + r, w + s)
    decreases |w|
  {
    if w == [] {
      assert w + r == r && w + s == s;
    } else {
      SpaceDeletedPrefix(w[1..], r, s);
      assert (w + r)[0] == w[0] && (w + r)[1..] == w[1..] + r;
      assert (w + s)[0] == w[0] && (w + s)[1..] == w[1..] + s;
    }
  }

  /** Deleting whitespace keeps the non-whitespace characters, in order. */
  lemma {:induction false} SpaceDeletedKeepsNonSpace(r: string, s: string)
    requires SpaceDeleted(r, s)
    ensures NonSpace(r) == NonSpace(s)
    decreases |s|
  {
    if s != [] {
      if r != [] && r[0] == s[0] && SpaceDeleted(r[1..], s[1..]) {
        SpaceDeletedKeepsNonSpace(r[1..], s[1..]);
      } else {
        SpaceDeletedKeepsNonSpace(r, s[1..]);
      }
    }
  }

  /** The merge step is a deletion of whitespace characters and nothing
      else: no character is added, replaced or moved. */
  lemma {:induction false} MergeDeletesOnlySpace(s: string)
    ensures SpaceDeleted(MergePairs(s), s)
    decreases |s|
  {
    if s == [] {
    } else if MatchAtStart(s) {
      MatchPieces(s);
      var u, a := LeadingLetters(s), AfterLetters(s);
      var v, t := LeadingLetters(a[1..]), AfterLetters(a[1..]);
      MergeDeletesOnlySpace(t);
      SpaceDeletedPrefix(v, MergePairs(t), t);
      assert ([a[0]] + (v + t))[0] == a[0] && ([a[0]] + (v + t))[1..] == v + t;
      SpaceDeletedPrefix(u, v + MergePairs(t), [a[0]] + (v + t));
    } else {
      MergeDeletesOnlySpace(s[1..]);
      SpaceDeletedPrefix([s[0]], MergePairs(s[1..]), s[1..]);
      assert s == [s[0]] + s[1..];
    }
  }

  /** The non-whitespace characters of the input come out of the merge step
      unchanged and in order. */
  lemma MergeKeepsNonSpace(s: string)
    ensures NonSpace(MergePairs(s)) == NonSpace(s)
  {
    MergeDeletesOnlySpace(s);
    SpaceDeletedKeepsNonSpace(MergePairs(s), s);
  }

  /** `transform_text` is the two `replace` calls followed by a deletion of
      whitespace characters and nothing else. */
  lemma TransformDeletesOnlySpace(s: string)
    ensures SpaceDeleted(TransformText(s), DeleteBackslashes(ReplaceNewlines(s)))
  {
    MergeDeletesOnlySpace(DeleteBackslashes(ReplaceNewlines(s)));
  }

  /** The two `replace` calls turn the non-whitespace view into the visible
      view: a newline becomes a space and a backslash disappears. */
  lemma {:induction false} CleanKeepsVisible(s: string)
    ensures NonSpace(DeleteBackslashes(ReplaceNewlines(s))) == Visible(s)
    decreases |s|
  {
    if s != [] {
      var c := if s[0] == '\n' then ' ' else s[0];
      var t := ReplaceNewlines(s[1..]);
      assert ReplaceNewlines(s) == [c] + t;
      assert ([c] + t)[0] == c && ([c] + t)[1..] == t;
      var d := DeleteBackslashes(t);
      assert DeleteBackslashes([c] + t) == (if c == '\\' then [] else [c]) + d;
      NonSpaceAppend(if c == '\\' then [] else [c], d);
      CleanKeepsVisible(s[1..]);
    }
  }

  /** The non-whitespace characters of the output, in order, are exactly the
      non-whitespace, non-backslash characters of the input. */
  lemma TransformKeepsVisible(s: string)
    ensures NonSpace(TransformText(s)) == Visible(s)
  {
    MergeKeepsNonSpace(DeleteBackslashes(ReplaceNewlines(s)));
    CleanKeepsVisible(s);
  }

  /** The pattern `[A-Za-z]+\s[A-Za-z]` matches at the start of s with a
      first letter run of length j: one of the matches a backtracking
      engine tries. */
  predicate PatternAt(s: string, j: int) {
    0 < j < |s| - 1 && AllLetters(s[..j]) && IsSpace(s[j]) && IsAsciiLetter(s[j + 1])
  }

  lemma GreedyMatchIsPattern(s: string)
    requires MatchAtStart(s)
    ensures PatternAt(s, |LeadingLetters(s)|)
  {
    SplitAtLetters(s);
    var j := |LeadingLetters(s)|;
    assert s[..j] == LeadingLetters(s) && s[j..] == AfterLetters(s);
    assert s[j] == AfterLetters(s)[0] && s[j + 1] == AfterLetters(s)[1];
  }

  lemma PatternIsGreedyMatch(s: string, j: int)
    requires PatternAt(s, j)
    ensures MatchAtStart(s)
  {
    SpaceIsNotLetter(s[j]);
    assert s == s[..j] + s[j..];
    LettersOf(s[..j], s[j..]);
    assert s[0] == s[..j][0];
  }

  /** The greedy reading agrees with the pattern: it matches at the start
      of s for some length of the first letter run, backtracking included,
      exactly when `MatchAtStart(s)` holds. */
  lemma MatchAtStartIff(s: string)
    ensures MatchAtStart(s) <==> exists j :: PatternAt(s, j)
  {
    if MatchAtStart(s) {
      GreedyMatchIsPattern(s);
    }
    if exists j :: PatternAt(s, j) {
      var j :| PatternAt(s, j);
      PatternIsGreedyMatch(s, j);
    }
  }

  /** A match at the start is a letter–whitespace–letter sequence. */
  lemma MatchIsPair(s: string)
    requires MatchAtStart(s)
    ensures PairAt(s, |LeadingLetters(s)| - 1)
  {
    MatchPieces(s);
  }

  /** Without a letter–whitespace–letter sequence there is nothing to merge. */
  lemma {:induction false} MergeIdentity(s: string)
    requires !HasPair(s)
    ensures MergePairs(s) == s
    decreases |s|
  {
    if s != [] {
      if MatchAtStart(s) {
        MatchIsPair(s);
        assert false;
      }
      forall p: nat | p < |s| - 1
        ensures !PairAt(s[1..], p)
      {
        assert !PairAt(s, p + 1);
      }
      MergeIdentity(s[1..]);
    }
  }

  /** A match deletes its whitespace character. */
  lemma MatchShrinks(s: string)
    requires MatchAtStart(s)
    ensures |MergePairs(s)| < |s|
  {
    MatchPieces(s);
    MergeNoLonger(AfterLetters(AfterLetters(s)[1..]));
  }

  /** A letter–whitespace–letter sequence anywhere makes the merge step
      delete at least one character. */
  lemma {:induction false} MergeShrinks(s: string, p: nat)
    requires PairAt(s, p)
    ensures |MergePairs(s)| < |s|
    decreases |s|
  {
    if p == 0 {
      SpaceIsNotLetter(s[1]);
      LettersOf([s[0]], s[1..]);
      assert [s[0]] + s[1..] == s;
      MatchShrinks(s);
    } else if MatchAtStart(s) {
      MatchShrinks(s);
    } else {
      assert PairAt(s[1..], p - 1);
      MergeShrinks(s[1..], p - 1);
    }
  }

  /** The merge step changes its input exactly when the input holds a
      letter–whitespace–letter sequence. */
  lemma MergeUnchangedIff(s: string)
    ensures MergePairs(s) == s <==> !HasPair(s)
  {
    if HasPair(s) {
      var p: nat :| PairAt(s, p);
      MergeShrinks(s, p);
    } else {
      MergeIdentity(s);
    }
  }

  lemma {:induction false} DeleteWithoutBackslash(s: string)
    requires '\\' !in s
    ensures DeleteBackslashes(s) == s
    decreases |s|
  {
    if s != [] {
      assert '\\' !in s[1..];
      DeleteWithoutBackslash(s[1..]);
    }
  }

  /** Input with no newline, no backslash and nothing to merge comes back
      unchanged. */
  lemma TransformIdentity(s: string)
    requires '\n' !in s && '\\' !in s && !HasPair(s)
    ensures TransformText(s) == s
  {
    assert ReplaceNewlines(s) == s;
    DeleteWithoutBackslash(s);
    MergeIdentity(s);
  }

  // ---------------------------------------------------------------------
  // Worked cases

  /** One match: letter run u, whitespace c, letter run v, then something
      that does not continue v; the scan resumes after v. */
  lemma MergeStep(u: string, c: char, v: string, t: string)
    requires u != [] && v != [] && AllLetters(u) && AllLetters(v) && IsSpace(c)
    requires t == [] || !IsAsciiLetter(t[0])
    ensures MergePairs(u + ([c] + (v + t))) == u + (v + MergePairs(t))
  {
    SpaceIsNotLetter(c);
    LettersOf(u, [c] + (v + t));
    assert ([c] + (v + t))[1..] == v + t;
    LettersOf(v, t);
    assert (u + ([c] + (v + t)))[0] == u[0];
  }

  /** A character that is not a letter never starts a match: it is copied. */
  lemma MergeCopies(c: char, t: string)
    requires !IsAsciiLetter(c)
    ensures MergePairs([c] + t) == [c] + MergePairs(t)
  {
  }

  /** A letter run that starts no match is copied whole, and the scan
      resumes after it: `re.sub` tries each later start inside the run, and
      none of them can match, since each is followed by the same non-match. */
  lemma {:induction false} MergeSkipsRun(u: string, t: string)
    requires u != [] && AllLetters(u)
    requires t == [] || !IsAsciiLetter(t[0])
    requires !(|t| >= 2 && IsSpace(t[0]) && IsAsciiLetter(t[1]))
    ensures MergePairs(u + t) == u + MergePairs(t)
    decreases |u|
  {
    var s := u + t;
    LettersOf(u, t);
    assert !MatchAtStart(s);
    assert s[0] == u[0] && s[1..] == u[1..] + t;
    assert MergePairs(s) == [u[0]] + MergePairs(u[1..] + t);
    if |u| == 1 {
      assert u[1..] + t == t && u == [u[0]];
    } else {
      assert AllLetters(u[1..]);
      MergeSkipsRun(u[1..], t);
      assert u == [u[0]] + u[1..];
    }
  }

  lemma NoPairInWord(w: string)
    requires AllLetters(w)
    ensures !HasPair(w)
  {
    forall p: nat | p < |w|
      ensures !PairAt(w, p)
    {
      if p + 2 < |w| && IsSpace(w[p + 1]) {
        SpaceIsNotLetter(w[p + 1]);
      }
    }
  }

  /** Matches do not overlap: of three words separated by whitespace only
      the first two are joined. */
  lemma MergeThreeWords(u: string, c1: char, v: string, c2: char, w: string)
    requires u != [] && v != [] && w != []
    requires AllLetters(u) && AllLetters(v) && AllLetters(w)
    requires IsSpace(c1) && IsSpace(c2)
    ensures MergePairs(u + ([c1] + (v + ([c2] + w)))) == u + (v + ([c2] + w))
  {
    SpaceIsNotLetter(c2);
    MergeStep(u, c1, v, [c2] + w);
    MergeCopies(c2, w);
    NoPairInWord(w);
    MergeIdentity(w);
  }

  /** Two matches in a row: the whitespace between them is kept. */
  lemma MergeFourWords(u: string, c1: char, v: string, c2: char, w: string, c3: char, x: string)
    requires u != [] && v != [] && w != [] && x != []
    requires AllLetters(u) && AllLetters(v) && AllLetters(w) && AllLetters(x)
    requires IsSpace(c1) && IsSpace(c2) && IsSpace(c3)
    ensures MergePairs(u + ([c1] + (v + ([c2] + (w + ([c3] + x)))))) == u + (v + ([c2] + (w + x)))
  {
    SpaceIsNotLetter(c2);
    var tail := w + ([c3] + x);
    assert x + [] == x;
    MergeStep(w, c3, x, []);
    MergeCopies(c2, tail);
    MergeStep(u, c1, v, [c2] + tail);
  }

  /** `"a b c"` becomes `"ab c"`: the `b` consumed by the first match cannot
      start a second one. */
  lemma ExampleNonOverlapping()
    ensures MergePairs("a b c") == "ab c"
  {
    assert "a b c" == "a" + ([' '] + ("b" + ([' '] + "c")));
    MergeThreeWords("a", ' ', "b", ' ', "c");
    assert "a" + ("b" + ([' '] + "c")) == "ab c";
  }

  /** `"He llo Wor ld"` becomes `"Hello World"`. */
  lemma ExampleTwoMatches()
    ensures MergePairs("He llo Wor ld") == "Hello World"
  {
    assert "He llo Wor ld" == "He" + ([' '] + ("llo" + ([' '] + ("Wor" + ([' '] + "ld")))));
    assert AllLetters("He") && AllLetters("llo") && AllLetters("Wor") && AllLetters("ld");
    assert IsSpace(' ');
    MergeFourWords("He", ' ', "llo", ' ', "Wor", ' ', "ld");
    assert "He" + ("llo" + ([' '] + ("Wor" + "ld"))) == "Hello World";
  }

  lemma {:induction false} ReplaceNewlinesAppend(a: string, b: string)
    ensures ReplaceNewlines(a + b) == ReplaceNewlines(a) + ReplaceNewlines(b)
    decreases |a|
  {
    if a == [] {
      assert a + b == b;
    } else {
      assert (a + b)[0] == a[0] && (a + b)[1..] == a[1..] + b;
      ReplaceNewlinesAppend(a[1..], b);
    }
  }

  lemma {:induction false} DeleteBackslashesAppend(a: string, b: string)
    ensures DeleteBackslashes(a + b) == DeleteBackslashes(a) + DeleteBackslashes(b)
    decreases |a|
  {
    if a == [] {
      assert a + b == b;
    } else {
      var h := if a[0] == '\\' then [] else [a[0]];
      assert (a + b)[0] == a[0] && (a + b)[1..] == a[1..] + b;
      assert DeleteBackslashes(a + b) == h + DeleteBackslashes(a[1..] + b);
      DeleteBackslashesAppend(a[1..], b);
      assert h + (DeleteBackslashes(a[1..]) + DeleteBackslashes(b))
          == (h + DeleteBackslashes(a[1..])) + DeleteBackslashes(b);
    }
  }

  /** Text with one newline between two newline-free parts. */
  lemma ReplaceOneNewline(a: string, b: string)
    requires '\n' !in a && '\n' !in b
    ensures ReplaceNewlines(a + (['\n'] + b)) == a + ([' '] + b)
  {
    ReplaceNewlinesAppend(a, ['\n'] + b);
    assert (['\n'] + b)[1..] == b;
    assert ReplaceNewlines(a) == a && ReplaceNewlines(b) == b;
  }

  /** Text with one backslash between two backslash-free parts. */
  lemma DeleteOneBackslash(a: string, b: string)
    requires '\\' !in a && '\\' !in b
    ensures DeleteBackslashes(a + (['\\'] + b)) == a + b
  {
    var t := ['\\'] + b;
    DeleteBackslashesAppend(a, t);
    assert t[0] == '\\' && t[1..] == b;
    assert DeleteBackslashes(t) == DeleteBackslashes(b);
    DeleteWithoutBackslash(a);
    DeleteWithoutBackslash(b);
  }

  /** The newline of `"He llo\nWor\\ld"` turns into a space. */
  lemma ExampleNewline()
    ensures ReplaceNewlines("He llo\nWor\\ld") == "He llo Wor\\ld"
  {
    assert "He llo\nWor\\ld" == "He llo" + (['\n'] + "Wor\\ld");
    assert '\n' !in "He llo" && '\n' !in "Wor\\ld";
    ReplaceOneNewline("He llo", "Wor\\ld");
    assert "He llo" + ([' '] + "Wor\\ld") == "He llo Wor\\ld";
  }

  /** The backslash of `"He llo Wor\\ld"` disappears without leaving a
      space, so `Wor` and `ld` touch. */
  lemma ExampleBackslash()
    ensures DeleteBackslashes("He llo Wor\\ld") == "He llo World"
  {
    assert "He llo Wor\\ld" == "He llo Wor" + (['\\'] + "ld");
    DeleteOneBackslash("He llo Wor", "ld");
    assert "He llo Wor" + "ld" == "He llo World";
  }

  /** The two `replace` calls on `"He llo\nWor\\ld"`. */
  lemma ExampleClean()
    ensures DeleteBackslashes(ReplaceNewlines("He llo\nWor\\ld")) == "He llo World"
  {
    ExampleNewline();
    ExampleBackslash();
  }

  /** The one match of `"He llo World"` joins `He` with `llo`. */
  lemma ExampleOneMatch()
    ensures MergePairs("He llo World") == "Hello World"
  {
    assert "He llo World" == "He" + ([' '] + ("llo" + ([' '] + "World")));
    assert AllLetters("He") && AllLetters("llo") && AllLetters("World");
    assert IsSpace(' ');
    MergeThreeWords("He", ' ', "llo", ' ', "World");
    assert "He" + ("llo" + ([' '] + "World")) == "Hello World";
  }

  /** `transform_text("He llo\nWor\\ld")` is `"Hello World"`. */
  lemma ExampleNewlineAndBackslash()
    ensures TransformText("He llo\nWor\\ld") == "Hello World"
  {
    ExampleClean();
    ExampleOneMatch();
  }

  // ---------------------------------------------------------------------
  // Lemmas about `str.strip()`

  lemma {:induction false} TrimStartKeepsNonSpace(s: string)
    ensures NonSpace(TrimStart(s)) == NonSpace(s)
    decreases |s|
  {
    if s != [] && IsSpace(s[0]) {
      TrimStartKeepsNonSpace(s[1..]);
    }
  }

  lemma {:induction false} TrimEndKeepsNonSpace(s: string)
    ensures NonSpace(TrimEnd(s)) == NonSpace(s)
    decreases |s|
  {
    if s != [] && IsSpace(s[|s| - 1]) {
      var init, last := s[..|s| - 1], s[|s| - 1];
      assert s == init + [last];
      NonSpaceAppend(init, [last]);
      TrimEndKeepsNonSpace(init);
    }
  }

  /** `str.strip()` removes whitespace only. */
  lemma StripKeepsNonSpace(s: string)
    ensures NonSpace(Strip(s)) == NonSpace(s)
  {
    TrimStartKeepsNonSpace(s);
    TrimEndKeepsNonSpace(TrimStart(s));
  }

  /** `lstrip()` drops whitespace characters only. */
  lemma {:induction false} TrimStartDropsSpace(s: string)
    ensures forall k :: 0 <= k < |s| - |TrimStart(s)| ==> IsSpace(s[k])
    decreases |s|
  {
    if s != [] && IsSpace(s[0]) {
      TrimStartDropsSpace(s[1..]);
      assert forall k :: 1 <= k < |s| ==> s[k] == s[1..][k - 1];
    }
  }

  /** `rstrip()` drops whitespace characters only. */
  lemma {:induction false} TrimEndDropsSpace(s: string)
    ensures forall k :: |TrimEnd(s)| <= k < |s| ==> IsSpace(s[k])
    decreases |s|
  {
    if s != [] && IsSpace(s[|s| - 1]) {
      TrimEndDropsSpace(s[..|s| - 1]);
    }
  }

  /** `lstrip()` keeps a suffix of s, character by character. */
  lemma TrimStartIndex(s: string)
    ensures var t := TrimStart(s);
      forall k :: 0 <= k < |t| ==> t[k] == s[|s| - |t| + k]
  {
  }

  /** `rstrip()` keeps a prefix of s, character by character. */
  lemma TrimEndIndex(s: string)
    ensures var t := TrimEnd(s);
      forall k :: 0 <= k < |t| ==> t[k] == s[k]
  {
  }

  /** `strip()` keeps a contiguous run of s, starting where `lstrip()`
      stopped. */
  lemma StripSlice(s: string)
    ensures var i, r := |s| - |TrimStart(s)|, Strip(s);
      i + |r| <= |s| && forall k :: 0 <= k < |r| ==> r[k] == s[i + k]
  {
    var t := TrimStart(s);
    var i := |s| - |t|;
    TrimStartIndex(s);
    TrimEndIndex(t);
  }

  /** What `rstrip()` removes after `lstrip()` is whitespace in s. */
  lemma StripTailIsSpace(s: string)
    ensures forall k :: |s| - |TrimStart(s)| + |Strip(s)| <= k < |s| ==> IsSpace(s[k])
  {
    var t := TrimStart(s);
    var i := |s| - |t|;
    TrimEndDropsSpace(t);
    forall k | i + |TrimEnd(t)| <= k < |s|
      ensures IsSpace(s[k])
    {
      assert s[k] == t[k - i];
    }
  }

  /** `strip()` removes whitespace at the two ends and nothing else: the
      result is a contiguous run of s, and everything before and after
      that run is whitespace. */
  lemma StripIsSlice(s: string)
    ensures var i, r := |s| - |TrimStart(s)|, Strip(s);
      i + |r| <= |s| && (forall k :: 0 <= k < |r| ==> r[k] == s[i + k])
      && (forall k :: 0 <= k < i ==> IsSpace(s[k]))
      && (forall k :: i + |r| <= k < |s| ==> IsSpace(s[k]))
  {
    StripSlice(s);
    TrimStartDropsSpace(s);
    StripTailIsSpace(s);
  }

  /** A character absent from s is absent from `s.strip()`. */
  lemma StripKeepsAbsent(s: string, x: char)
    requires x !in s
    ensures x !in Strip(s)
  {
  }

  /** Stripping twice is stripping once. */
  lemma StripIdempotent(s: string)
    ensures Strip(Strip(s)) == Strip(s)
  {
  }
}
