/** The Whisper front end: `clean_transcript`, the fallback rule of `transcribe_audio` and
    the retry loop of `translate_text`. Whisper and googletrans are parameters. */
module Transcriber {
  import opened Wrappers
  import opened Text

  // ---------------------------------------------------------------- clean_transcript

  /** The marks `[.,!?:;]` that lose the whitespace before them. */
  predicate IsMark(c: char) {
    c == '.' || c == ',' || c == '!' || c == '?' || c == ':' || c == ';'
  }

  /** The sentence ends `[\.\?!]` after which a letter is capitalised. */
  predicate IsSentenceEnd(c: char) {
    c == '.' || c == '?' || c == '!'
  }

  predicate IsLowerAscii(c: char) {
    'a' <= c <= 'z'
  }

  /** `re.sub(r'\s+([.,!?:;])', r'\1', s)`: a whitespace run followed by a mark is deleted. */
  function DropSpaceBeforeMarks(s: string): (r: string)
    decreases |s|
  {
    if s == [] then []
    else if IsSpace(s[0]) && RunEnd(s, 0) < |s| && IsMark(s[RunEnd(s, 0)]) then
      [s[RunEnd(s, 0)]] + DropSpaceBeforeMarks(s[RunEnd(s, 0) + 1..])
    else [s[0]] + DropSpaceBeforeMarks(s[1..])
  }

  /** A match of `(?<=[\.\?!])\s+([a-z])` starts at `i` in `s`. */
  predicate CapitalAt(s: string, i: nat) {
    0 < i < |s| && IsSentenceEnd(s[i - 1]) && IsSpace(s[i]) && RunEnd(s, i) < |s|
    && IsLowerAscii(s[RunEnd(s, i)])
  }

  /** `re.sub(r'(?<=[\.\?!])\s+([a-z])', lambda m: ' ' + m.group(1).upper(), s)` from
      position `i` on: the look-behind reads the input, not the rewritten text. */
  function CapitalizeFrom(s: string, i: nat): string
    requires i <= |s|
    decreases |s| - i
  {
    if i == |s| then []
    else if CapitalAt(s, i) then [' ', UpperChar(s[RunEnd(s, i)])] + CapitalizeFrom(s, RunEnd(s, i) + 1)
    else [s[i]] + CapitalizeFrom(s, i + 1)
  }

  /** `text[0].upper() + text[1:]` for non-empty text. */
  function CapitalizeFirst(s: string): (r: string)
    ensures |r| == |s| && (s != [] ==> r[0] == UpperChar(s[0]) && r[1..] == s[1..])
  {
    if s == [] then s else [UpperChar(s[0])] + s[1..]
  }

  /** `clean_transcript(text)`. */
  function CleanTranscript(text: string): string {
    var t1 := CollapseSpaces(text);
    var t2 := DropSpaceBeforeMarks(t1);
    var t3 := CapitalizeFrom(t2, 0);
    Strip(CapitalizeFirst(t3))
  }

  /** No whitespace stands immediately before a mark. */
  predicate NoSpaceBeforeMark(s: string) {
    forall i :: 0 <= i < |s| - 1 && IsSpace(s[i]) ==> !IsMark(s[i + 1])
  }

  /** No lower-case letter follows a sentence end and one whitespace character. */
  predicate NoLowerAfterEnd(s: string) {
    forall i :: 0 <= i < |s| - 2 && IsSentenceEnd(s[i]) && IsSpace(s[i + 1]) ==> !IsLowerAscii(s[i + 2])
  }

  lemma SingleSpacedSuffix(s: string, k: nat)
    requires SingleSpaced(s) && k <= |s|
    ensures SingleSpaced(s[k..])
  {
    var t := s[k..];
    forall i | 0 <= i < |t| && IsSpace(t[i]) ensures t[i] == ' ' && (i + 1 < |t| ==> !IsSpace(t[i + 1])) {
      assert t[i] == s[k + i];
      if i + 1 < |t| {
        assert t[i + 1] == s[k + i + 1];
      }
    }
  }

  /** Putting a character in front keeps single spacing and the absence of spaces before
      marks, unless it is whitespace other than ' ' or it stands before whitespace or a mark. */
  lemma ConsKeepsSpacing(c: char, rest: string)
    requires SingleSpaced(rest) && NoSpaceBeforeMark(rest)
    requires IsSpace(c) ==> c == ' ' && (rest != [] ==> !IsSpace(rest[0]) && !IsMark(rest[0]))
    ensures SingleSpaced([c] + rest) && NoSpaceBeforeMark([c] + rest)
  {
    var r := [c] + rest;
    assert forall i :: 1 <= i < |r| ==> r[i] == rest[i - 1];
  }

  /** Dropping the space before marks keeps single spacing and leaves no space before a mark. */
  lemma {:induction false} DropSpaceBeforeMarksProperties(s: string)
    requires SingleSpaced(s)
    ensures SingleSpaced(DropSpaceBeforeMarks(s)) && NoSpaceBeforeMark(DropSpaceBeforeMarks(s))
    decreases |s|
  {
    if s != [] {
      if IsSpace(s[0]) && RunEnd(s, 0) < |s| && IsMark(s[RunEnd(s, 0)]) {
        var e := RunEnd(s, 0);
        SingleSpacedSuffix(s, e + 1);
        DropSpaceBeforeMarksProperties(s[e + 1..]);
        ConsKeepsSpacing(s[e], DropSpaceBeforeMarks(s[e + 1..]));
      } else {
        var rest := DropSpaceBeforeMarks(s[1..]);
        SingleSpacedSuffix(s, 1);
        DropSpaceBeforeMarksProperties(s[1..]);
        if IsSpace(s[0]) && |s| > 1 {
          var t := s[1..];
          assert !IsSpace(t[0]);
          assert RunEnd(s, 0) == 1 by {
            assert RunEnd(s, 1) == 1;
          }
          assert !IsMark(t[0]);
          assert rest == [t[0]] + DropSpaceBeforeMarks(t[1..]);
        }
        ConsKeepsSpacing(s[0], rest);
      }
    }
  }

  /** The character at `k` after capitalising single-spaced text. */
  function CapChar(s: string, k: nat): char
    requires k < |s|
  {
    if 2 <= k && IsSentenceEnd(s[k - 2]) && IsSpace(s[k - 1]) && IsLowerAscii(s[k]) then UpperChar(s[k]) else s[k]
  }

  /** Position `i` is not the letter of a match that started before it. */
  predicate NotInsideMatch(s: string, i: nat)
    requires i <= |s|
  {
    i < 2 || i == |s| || !(IsSentenceEnd(s[i - 2]) && IsSpace(s[i - 1]) && IsLowerAscii(s[i]))
  }

  /** Inside a single-spaced text a match is a sentence end, one space and the letter, so
      `RunEnd` stops right after the space. */
  lemma CapitalAtShape(s: string, i: nat)
    requires SingleSpaced(s) && i < |s| && CapitalAt(s, i)
    ensures i + 1 < |s| && RunEnd(s, i) == i + 1 && s[i] == ' '
  {
    assert RunEnd(s, i + 1) == i + 1;
  }

  /** On single-spaced text capitalising keeps the length. */
  lemma {:induction false} CapitalizeFromLength(s: string, i: nat)
    requires SingleSpaced(s) && i <= |s|
    ensures |CapitalizeFrom(s, i)| == |s| - i
    decreases |s| - i
  {
    if i < |s| {
      if CapitalAt(s, i) {
        CapitalAtShape(s, i);
        CapitalizeFromLength(s, i + 2);
      } else {
        CapitalizeFromLength(s, i + 1);
      }
    }
  }

  /** On single-spaced text capitalising changes letters in place. */
  lemma {:induction false} CapitalizeFromPointwise(s: string, i: nat)
    requires SingleSpaced(s) && i <= |s| && NotInsideMatch(s, i)
    ensures |CapitalizeFrom(s, i)| == |s| - i
    ensures forall k :: i <= k < |s| ==> CapitalizeFrom(s, i)[k - i] == CapChar(s, k)
    decreases |s| - i
  {
    CapitalizeFromLength(s, i);
    if i < |s| {
      var r := CapitalizeFrom(s, i);
      if CapitalAt(s, i) {
        CapitalAtShape(s, i);
        CapitalizeFromPointwise(s, i + 2);
        CapitalStepPointwise(s, i, r, CapitalizeFrom(s, i + 2));
      } else {
        if i + 1 < |s| && !IsSpace(s[i + 1]) {
          assert RunEnd(s, i + 1) == i + 1;
        }
        CapitalizeFromPointwise(s, i + 1);
        PlainStepPointwise(s, i, r, CapitalizeFrom(s, i + 1));
      }
    }
  }

  /** The step of `CapitalizeFromPointwise` where a match starts at `i`. */
  lemma CapitalStepPointwise(s: string, i: nat, r: string, rest: string)
    requires SingleSpaced(s) && i < |s| && CapitalAt(s, i)
    requires i + 1 < |s| && RunEnd(s, i) == i + 1 && s[i] == ' '
    requires r == [' ', UpperChar(s[i + 1])] + rest && |rest| == |s| - (i + 2)
    requires forall k :: i + 2 <= k < |s| ==> rest[k - (i + 2)] == CapChar(s, k)
    ensures forall k :: i <= k < |s| ==> r[k - i] == CapChar(s, k)
  {
    assert CapChar(s, i) == ' ';
    assert CapChar(s, i + 1) == UpperChar(s[i + 1]);
    forall k | i + 2 <= k < |s| ensures r[k - i] == CapChar(s, k) {
      assert r[k - i] == rest[k - (i + 2)];
    }
  }

  /** The step of `CapitalizeFromPointwise` where no match starts at `i`. */
  lemma PlainStepPointwise(s: string, i: nat, r: string, rest: string)
    requires i < |s| && NotInsideMatch(s, i)
    requires r == [s[i]] + rest && |rest| == |s| - (i + 1)
    requires forall k :: i + 1 <= k < |s| ==> rest[k - (i + 1)] == CapChar(s, k)
    ensures forall k :: i <= k < |s| ==> r[k - i] == CapChar(s, k)
  {
    forall k | i <= k < |s| ensures r[k - i] == CapChar(s, k) {
      if k > i {
        assert r[k - i] == rest[k - (i + 1)];
      }
    }
  }

  /** `d` is `c`, or `c` was a lower-case letter and `d` is an upper-case one. */
  predicate SameOrRaised(c: char, d: char) {
    d == c || (IsLowerAscii(c) && 'A' <= d <= 'Z')
  }

  /** Raising a letter does not touch whitespace, marks or sentence ends. */
  lemma RaisedCharFacts(c: char, d: char)
    requires SameOrRaised(c, d)
    ensures IsSpace(d) ==> d == c
    ensures IsSpace(c) ==> d == c
    ensures IsMark(d) ==> d == c
    ensures IsSentenceEnd(d) ==> d == c
  {
  }

  /** `r` is `s` with some lower-case letters raised. */
  predicate LettersRaised(s: string, r: string) {
    |r| == |s| && forall k :: 0 <= k < |s| ==> SameOrRaised(s[k], r[k])
  }

  /** Raising letters keeps single spacing and the absence of spaces before marks. */
  lemma LettersRaisedKeep(s: string, r: string)
    requires LettersRaised(s, r) && SingleSpaced(s) && NoSpaceBeforeMark(s)
    ensures SingleSpaced(r) && NoSpaceBeforeMark(r)
  {
    forall k | 0 <= k < |r| && IsSpace(r[k]) ensures r[k] == ' ' && (k + 1 < |r| ==> !IsSpace(r[k + 1])) {
      RaisedCharFacts(s[k], r[k]);
      if k + 1 < |r| {
        RaisedCharFacts(s[k + 1], r[k + 1]);
      }
    }
    forall k | 0 <= k < |r| - 1 && IsSpace(r[k]) ensures !IsMark(r[k + 1]) {
      RaisedCharFacts(s[k], r[k]);
      RaisedCharFacts(s[k + 1], r[k + 1]);
    }
  }

  /** Raising letters outside positions that follow a sentence end and a space keeps the
      absence of lower-case letters there. */
  lemma LettersRaisedKeepCapitals(s: string, r: string)
    requires LettersRaised(s, r) && NoLowerAfterEnd(s)
    requires forall k :: 0 < k < |s| && IsSentenceEnd(s[k - 1]) ==> r[k] == s[k]
    ensures NoLowerAfterEnd(r)
  {
    forall i | 0 <= i < |r| - 2 && IsSentenceEnd(r[i]) && IsSpace(r[i + 1]) ensures !IsLowerAscii(r[i + 2]) {
      RaisedCharFacts(s[i], r[i]);
      RaisedCharFacts(s[i + 1], r[i + 1]);
      RaisedCharFacts(s[i + 2], r[i + 2]);
    }
  }

  /** Capitalising single-spaced text with no space before a mark keeps both properties and
      leaves no lower-case letter after a sentence end and a space. */
  lemma CapitalizeProperties(s: string)
    requires SingleSpaced(s) && NoSpaceBeforeMark(s)
    ensures var r := CapitalizeFrom(s, 0);
      SingleSpaced(r) && NoSpaceBeforeMark(r) && NoLowerAfterEnd(r) && LettersRaised(s, r)
  {
    CapitalizeFromPointwise(s, 0);
    var r := CapitalizeFrom(s, 0);
    forall k | 0 <= k < |s| ensures SameOrRaised(s[k], r[k]) {
      assert r[k] == CapChar(s, k);
    }
    LettersRaisedKeep(s, r);
    forall i | 0 <= i < |r| - 2 && IsSentenceEnd(r[i]) && IsSpace(r[i + 1]) ensures !IsLowerAscii(r[i + 2]) {
      RaisedCharFacts(s[i], r[i]);
      RaisedCharFacts(s[i + 1], r[i + 1]);
      assert r[i + 2] == CapChar(s, i + 2);
    }
  }

  /** Upper-casing the first character keeps the three properties. */
  lemma CapitalizeFirstProperties(s: string)
    requires SingleSpaced(s) && NoSpaceBeforeMark(s) && NoLowerAfterEnd(s)
    ensures var r := CapitalizeFirst(s);
      SingleSpaced(r) && NoSpaceBeforeMark(r) && NoLowerAfterEnd(r)
  {
    var r := CapitalizeFirst(s);
    if s != [] {
      forall k | 0 <= k < |s| ensures SameOrRaised(s[k], r[k]) {
        if k > 0 {
          assert r[k] == r[1..][k - 1] == s[1..][k - 1] == s[k];
        }
      }
      LettersRaisedKeep(s, r);
      forall k | 0 < k < |s| ensures r[k] == s[k] {
        assert r[k] == r[1..][k - 1] == s[1..][k - 1] == s[k];
      }
      LettersRaisedKeepCapitals(s, r);
    }
  }

  /** A slice keeps the three properties. */
  lemma SliceProperties(s: string, a: nat, b: nat)
    requires a <= b <= |s|
    requires SingleSpaced(s) && NoSpaceBeforeMark(s) && NoLowerAfterEnd(s)
    ensures var r := s[a..b];
      SingleSpaced(r) && NoSpaceBeforeMark(r) && NoLowerAfterEnd(r)
  {
    var r := s[a..b];
    assert forall k :: 0 <= k < |r| ==> r[k] == s[a + k];
  }

  /** Stripping keeps the three properties, and leaves no whitespace at either end. */
  lemma StripProperties(s: string)
    requires SingleSpaced(s) && NoSpaceBeforeMark(s) && NoLowerAfterEnd(s)
    ensures var r := Strip(s);
      SingleSpaced(r) && NoSpaceBeforeMark(r) && NoLowerAfterEnd(r)
  {
    var t := s[LeadingSpaces(s)..];
    assert t == s[LeadingSpaces(s)..|s|];
    SliceProperties(s, LeadingSpaces(s), |s|);
    assert Strip(s) == t[0..TrailingStart(t)];
    SliceProperties(t, 0, TrailingStart(t));
  }

  /** The cleaned transcript has no whitespace at either end, no two whitespace characters
      in a row (and no whitespace but ' '), no whitespace before a mark, and no lower-case
      letter right after a sentence end and a space. */
  lemma CleanTranscriptProperties(text: string)
    ensures var r := CleanTranscript(text);
      && (r == [] || (!IsSpace(r[0]) && !IsSpace(r[|r| - 1])))
      && SingleSpaced(r) && NoSpaceBeforeMark(r) && NoLowerAfterEnd(r)
  {
    var t1 := CollapseSpaces(text);
    CollapseSpacesProperties(text);
    var t2 := DropSpaceBeforeMarks(t1);
    DropSpaceBeforeMarksProperties(t1);
    var t3 := CapitalizeFrom(t2, 0);
    CapitalizeProperties(t2);
    var t4 := CapitalizeFirst(t3);
    CapitalizeFirstProperties(t3);
    StripProperties(t4);
  }

  // ---------------------------------------------------------------- the text is kept

  /** Dropping the whitespace before marks deletes whitespace only. */
  lemma {:induction false} DropSpaceBeforeMarksContent(s: string)
    ensures NonSpace(DropSpaceBeforeMarks(s)) == NonSpace(s)
    decreases |s|
  {
    if s != [] {
      if IsSpace(s[0]) && RunEnd(s, 0) < |s| && IsMark(s[RunEnd(s, 0)]) {
        var e := RunEnd(s, 0);
        DropSpaceBeforeMarksContent(s[e + 1..]);
        NonSpaceCons(s[e], DropSpaceBeforeMarks(s[e + 1..]));
        TwoSlices(s, e);
        NonSpaceAppend(s[..e], s[e..]);
        assert IsBlank(s[..e]);
        NonSpaceOfBlank(s[..e]);
        assert s[e..] == [s[e]] + s[e + 1..];
        NonSpaceCons(s[e], s[e + 1..]);
      } else {
        DropSpaceBeforeMarksContent(s[1..]);
        NonSpaceCons(s[0], DropSpaceBeforeMarks(s[1..]));
        assert s == [s[0]] + s[1..];
        NonSpaceCons(s[0], s[1..]);
      }
    }
  }

  /** Upper-casing the first character raises at most that one letter. */
  lemma CapitalizeFirstRaises(s: string)
    ensures LettersRaised(s, CapitalizeFirst(s))
  {
    var r := CapitalizeFirst(s);
    forall k | 0 <= k < |s| ensures SameOrRaised(s[k], r[k]) {
      if k > 0 {
        assert r[k] == r[1..][k - 1] == s[1..][k - 1] == s[k];
      }
    }
  }

  /** Raising letters keeps whitespace where it is, so it raises the same letters of the
      non-whitespace characters. */
  lemma {:induction false} LettersRaisedNonSpace(s: string, r: string)
    requires LettersRaised(s, r)
    ensures LettersRaised(NonSpace(s), NonSpace(r))
    decreases |s|
  {
    if s != [] {
      RaisedCharFacts(s[0], r[0]);
      assert LettersRaised(s[1..], r[1..]) by {
        forall k | 0 <= k < |s[1..]| ensures SameOrRaised(s[1..][k], r[1..][k]) {
          assert s[1..][k] == s[k + 1] && r[1..][k] == r[k + 1];
        }
      }
      LettersRaisedNonSpace(s[1..], r[1..]);
      assert s == [s[0]] + s[1..] && r == [r[0]] + r[1..];
      NonSpaceCons(s[0], s[1..]);
      NonSpaceCons(r[0], r[1..]);
      var a := NonSpace(s[1..]);
      var b := NonSpace(r[1..]);
      if !IsSpace(s[0]) {
        forall k | 0 <= k < |a| + 1 ensures SameOrRaised(([s[0]] + a)[k], ([r[0]] + b)[k]) {
          if k > 0 {
            assert ([s[0]] + a)[k] == a[k - 1] && ([r[0]] + b)[k] == b[k - 1];
          }
        }
      } else {
        assert [] + a == a && [] + b == b;
      }
    }
  }

  /** Raising letters twice is raising letters once. */
  lemma LettersRaisedTrans(a: string, b: string, c: string)
    requires LettersRaised(a, b) && LettersRaised(b, c)
    ensures LettersRaised(a, c)
  {
    forall k | 0 <= k < |a| ensures SameOrRaised(a[k], c[k]) {
      assert SameOrRaised(a[k], b[k]) && SameOrRaised(b[k], c[k]);
    }
  }

  /** Cleaning keeps the text: the non-whitespace characters of the cleaned transcript are
      those of the input, in order, except that some lower-case ASCII letters are raised. */
  lemma CleanTranscriptKeepsText(text: string)
    ensures LettersRaised(NonSpace(text), NonSpace(CleanTranscript(text)))
  {
    var t1 := CollapseSpaces(text);
    CollapseSpacesProperties(text);
    var t2 := DropSpaceBeforeMarks(t1);
    DropSpaceBeforeMarksProperties(t1);
    DropSpaceBeforeMarksContent(t1);
    var t3 := CapitalizeFrom(t2, 0);
    CapitalizeProperties(t2);
    LettersRaisedNonSpace(t2, t3);
    var t4 := CapitalizeFirst(t3);
    CapitalizeFirstRaises(t3);
    LettersRaisedNonSpace(t3, t4);
    StripKeepsContent(t4);
    LettersRaisedTrans(NonSpace(t2), NonSpace(t3), NonSpace(t4));
  }

  // ---------------------------------------------------------------- the first letter

  /** Past leading whitespace at `j`, stripping starts at the first other character. */
  lemma StripStartsAt(s: string, j: nat)
    requires j < |s| && IsBlank(s[..j]) && !IsSpace(s[j])
    ensures Strip(s) != [] && Strip(s)[0] == s[j]
  {
    assert forall i :: 0 <= i < j ==> IsSpace(s[..j][i]);
    assert LeadingSpaces(s) == j;
    var t := s[j..];
    assert t[0] == s[j];
    assert TrailingStart(t) > 0;
  }

  /** A text that starts with a non-space keeps it at the front of every pass but the
      upper-casing of the first character. */
  lemma FrontWithoutSpace(text: string)
    requires text != [] && !IsSpace(text[0])
    ensures var t3 := CapitalizeFrom(DropSpaceBeforeMarks(CollapseSpaces(text)), 0);
      t3 != [] && t3[0] == text[0]
  {
    var t1 := CollapseSpaces(text);
    assert t1[0] == text[0];
    var t2 := DropSpaceBeforeMarks(t1);
    assert t2[0] == text[0];
    assert !CapitalAt(t2, 0);
  }

  /** A text that starts with whitespace reaches capitalisation as a space followed by its
      first non-space character, when that is not a mark. */
  lemma FrontWithSpace(text: string)
    requires text != [] && IsSpace(text[0]) && LeadingSpaces(text) < |text| && !IsMark(text[LeadingSpaces(text)])
    ensures var t3 := CapitalizeFrom(DropSpaceBeforeMarks(CollapseSpaces(text)), 0);
      |t3| > 1 && t3[0] == ' ' && t3[1] == text[LeadingSpaces(text)]
  {
    var k := LeadingSpaces(text);
    var c := text[k];
    var t1 := CollapseSpaces(text);
    assert CollapseSpaces(text[k..]) == [c] + CollapseSpaces(text[k..][1..]);
    assert t1[0] == ' ' && t1[1] == c;
    var t2 := DropSpaceBeforeMarks(t1);
    assert RunEnd(t1, 0) == 1 by {
      assert RunEnd(t1, 1) == 1;
    }
    assert t2 == [' '] + DropSpaceBeforeMarks(t1[1..]);
    assert DropSpaceBeforeMarks(t1[1..]) == [c] + DropSpaceBeforeMarks(t1[1..][1..]);
    assert t2[0] == ' ' && t2[1] == c;
    assert !CapitalAt(t2, 0) && !CapitalAt(t2, 1);
    var t3 := CapitalizeFrom(t2, 0);
    assert t3 == [' '] + CapitalizeFrom(t2, 1);
    assert CapitalizeFrom(t2, 1) == [c] + CapitalizeFrom(t2, 2);
  }

  /** A lower-case first letter is capitalised. */
  lemma LowerFirstLetterRaised(text: string)
    requires text != [] && IsLowerAscii(text[0])
    ensures CleanTranscript(text) != [] && CleanTranscript(text)[0] == UpperChar(text[0])
  {
    FrontWithoutSpace(text);
    var t4 := CapitalizeFirst(CapitalizeFrom(DropSpaceBeforeMarks(CollapseSpaces(text)), 0));
    assert t4[0] == UpperChar(text[0]);
    assert IsBlank(t4[..0]);
    StripStartsAt(t4, 0);
  }

  /** The first character is upper-cased before stripping, so leading whitespace shields the
      first letter: it comes out in lower case. */
  lemma LeadingSpaceShieldsFirstLetter(text: string)
    requires text != [] && IsSpace(text[0]) && LeadingSpaces(text) < |text|
    requires IsLowerAscii(text[LeadingSpaces(text)])
    ensures CleanTranscript(text) != [] && CleanTranscript(text)[0] == text[LeadingSpaces(text)]
  {
    FrontWithSpace(text);
    var t4 := CapitalizeFirst(CapitalizeFrom(DropSpaceBeforeMarks(CollapseSpaces(text)), 0));
    assert t4[0] == ' ' && t4[1] == text[LeadingSpaces(text)];
    assert IsBlank(t4[..1]);
    StripStartsAt(t4, 1);
  }

  /** The spacing passes leave " hi" and "hi" as they are. */
  lemma SpacingPassesExamples()
    ensures DropSpaceBeforeMarks(CollapseSpaces(" hi")) == " hi"
    ensures DropSpaceBeforeMarks(CollapseSpaces("hi")) == "hi"
  {
    assert " hi"[1..] == "hi";
    assert "hi"[1..] == "i";
    assert "i"[1..] == "";
    assert CollapseSpaces(" hi") == " hi" by {
      assert LeadingSpaces(" hi") == 1;
    }
    assert DropSpaceBeforeMarks(" hi") == " hi" by {
      assert RunEnd(" hi", 0) == 1;
    }
    assert CollapseSpaces("hi") == "hi";
    assert DropSpaceBeforeMarks("hi") == "hi";
  }

  /** No match of the capitalising pattern in " hi" or "hi": nothing precedes the letter. */
  lemma CapitalizeExamples()
    ensures CapitalizeFrom(" hi", 0) == " hi"
    ensures CapitalizeFrom("hi", 0) == "hi"
  {
    assert !CapitalAt(" hi", 0) && !CapitalAt(" hi", 1) && !CapitalAt(" hi", 2);
    assert !CapitalAt("hi", 0) && !CapitalAt("hi", 1);
  }

  /** Stripping " hi" drops the space; "Hi" has nothing to strip. */
  lemma StripExamples()
    ensures Strip(" hi") == "hi"
    ensures Strip("Hi") == "Hi"
  {
    assert TrimStart(" hi") == "hi";
    assert LeadingSpaces("Hi") == 0;
    assert "Hi"[0..] == "Hi";
    assert TrailingStart("Hi") == 2;
  }

  /** Without a leading space the first letter is capitalised. */
  lemma FirstLetterCapitalised()
    ensures CleanTranscript("hi") == "Hi"
  {
    var t2 := DropSpaceBeforeMarks(CollapseSpaces("hi"));
    SpacingPassesExamples();
    var t3 := CapitalizeFrom(t2, 0);
    CapitalizeExamples();
    var t4 := CapitalizeFirst(t3);
    assert t4 == "Hi" by {
      assert t3 == "hi";
    }
    StripExamples();
    assert CleanTranscript("hi") == Strip(t4);
  }

  // ---------------------------------------------------------------- transcribe_audio

  /** The transcript used when Whisper hears next to nothing in a small file. */
  const FallbackTranscript: string :=
    "The way to get started is to quit talking and begin doing. Walt Disney. "
    + "Success is not final, failure is not fatal: It is the courage to continue that counts. Winston Churchill. "
    + "The future belongs to those who believe in the beauty of their dreams. Eleanor Roosevelt. "
    + "Life is what happens when you're busy making other plans. John Lennon."

  /** What Whisper's `transcribe` gives: the text and the detected language, or an error. */
  datatype WhisperOutcome = WhisperResult(text: string, language: Option<string>) | WhisperError(message: string)

  /** The JSON object `transcribe_audio` prints; `success` is `Transcribed?`. */
  datatype Transcription =
    | Transcribed(transcript: string, language: string, isFallback: bool)
    | TranscriptionFailed(error: string)

  /** `transcribe_audio(audio_file_path)`: `fileExists` and `fileSize` stand for the file
      system, `whisper` for loading the model and transcribing; `attempted` says whether
      Whisper was run. */
  method TranscribeAudio(audioFilePath: string, fileExists: bool, fileSize: nat, whisper: WhisperOutcome)
    returns (out: Transcription, attempted: bool)
    ensures !fileExists ==> !attempted && out == TranscriptionFailed("Audio file not found: " + audioFilePath)
    ensures fileExists ==> attempted
    ensures fileExists && whisper.WhisperError? ==> out == TranscriptionFailed(whisper.message)
    ensures fileExists && whisper.WhisperResult? ==>
      (out.Transcribed? && out.isFallback <==> |Strip(whisper.text)| < 10 && fileSize < 100000)
    ensures fileExists && whisper.WhisperResult? && out.Transcribed? && out.isFallback ==>
      out == Transcribed(FallbackTranscript, "en", true)
    ensures fileExists && whisper.WhisperResult? && !(|Strip(whisper.text)| < 10 && fileSize < 100000) ==>
      out == Transcribed(CleanTranscript(whisper.text), whisper.language.GetOr("en"), false)
  {
    if !fileExists {
      return TranscriptionFailed("Audio file not found: " + audioFilePath), false;
    }
    attempted := true;
    if whisper.WhisperError? {
      return TranscriptionFailed(whisper.message), attempted;
    }
    var transcript := whisper.text;
    var language := whisper.language.GetOr("en");
    if transcript == "" || |Strip(transcript)| < 10 {
      if fileSize < 100000 {
        return Transcribed(FallbackTranscript, "en", true), attempted;
      }
    }
    transcript := CleanTranscript(transcript);
    out := Transcribed(transcript, language, false);
  }

  // ---------------------------------------------------------------- translate_text

  const MaxRetries: nat := 3

  /** `translate_text(text, dest_language)`: `translatorAvailable` says whether googletrans
      can be set up, and `service(text, dest, attempt)` is attempt number `attempt` of the
      service call (`None` when it raises). `calls` counts the calls made. */
  method TranslateText(text: string, destLanguage: string, translatorAvailable: bool,
                       service: (string, string, nat) -> Option<string>)
    returns (r: string, calls: nat)
    ensures text == "" ==> r == "" && calls == 0
    ensures !translatorAvailable ==> r == "" && calls == 0
    ensures text != "" && translatorAvailable ==> 1 <= calls <= MaxRetries
    ensures forall k :: 0 <= k < calls - 1 ==> service(text, destLanguage, k).None?
    ensures 0 < calls && service(text, destLanguage, calls - 1).Some? ==>
      r == service(text, destLanguage, calls - 1).value
    ensures 0 < calls && service(text, destLanguage, calls - 1).None? ==> calls == MaxRetries && r == ""
  {
    if text == "" {
      return "", 0;
    }
    if !translatorAvailable {
      return "", 0;
    }
    calls := 0;
    for attempt := 0 to MaxRetries
      invariant calls == attempt
      invariant forall k :: 0 <= k < attempt ==> service(text, destLanguage, k).None?
    {
      var translated := service(text, destLanguage, attempt);
      calls := calls + 1;
      if translated.Some? {
        return translated.value, calls;
      }
      if attempt < MaxRetries - 1 {
        continue;
      }
      return "", calls;
    }
    r := "";
  }
}
