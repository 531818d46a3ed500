/** `TextCleaner`: cleaning one text, the integer quality score, the quality filter and the
    exact-duplicate filter of `clean_dataset`, and word shingles. The MinHash/LSH grouping is
    a function parameter. */
module TextCleaner {
  import opened Wrappers
  import opened Text

  /** The default `min_quality_score`. */
  const DefaultMinQuality: int := 60

  // ---------------------------------------------------------------- clean_text

  /** A character of the class `[\x00-\x1F\x7F-\x9F]`. */
  predicate IsControl(c: char) {
    c <= '\U{1f}' || ('\U{7f}' <= c <= '\U{9f}')
  }

  /** `re.sub(r'[\x00-\x1F\x7F-\x9F]', '', s)`. */
  function RemoveControls(s: string): (r: string)
    ensures |r| <= |s|
    ensures forall i :: 0 <= i < |r| ==> !IsControl(r[i])
    ensures IsSubseq(r, s)
    ensures forall c :: c in r <==> c in s && !IsControl(c)
  {
    if s == [] then []
    else
      var rest := RemoveControls(s[1..]);
      assert s == [s[0]] + s[1..];
      if IsControl(s[0]) then
        assert [] + rest == rest;
        [] + rest
      else
        var r := [s[0]] + rest;
        assert r[0] == s[0] && r[1..] == rest;
        r
  }

  /** Text without control characters comes back unchanged. */
  lemma {:induction false} RemoveControlsKeepsClean(s: string)
    requires forall i :: 0 <= i < |s| ==> !IsControl(s[i])
    ensures RemoveControls(s) == s
  {
    if s != [] {
      RemoveControlsKeepsClean(s[1..]);
      assert s == [s[0]] + s[1..];
    }
  }

  /** The first `>` at or after `from`, or `|s|`. */
  function CloseAt(s: string, from: nat): (j: nat)
    requires from <= |s|
    ensures from <= j <= |s|
    ensures j < |s| ==> s[j] == '>'
    ensures forall k :: from <= k < j ==> s[k] != '>'
    decreases |s| - from
  {
    if from == |s| || s[from] == '>' then from else CloseAt(s, from + 1)
  }

  /** `s` starts with a match of `<[^>]+>`, which then ends at `CloseAt(s, 1)`. */
  predicate TagFirst(s: string) {
    |s| > 0 && s[0] == '<' && 1 < CloseAt(s, 1) < |s|
  }

  /** `re.sub(r'<[^>]+>', '', s)`: a left-to-right scan deleting non-overlapping tags. A
      tag runs from `<` to the first `>` after it, with at least one character between. */
  function RemoveTags(s: string): (r: string)
    ensures |r| <= |s|
    ensures forall i :: 0 <= i < |r| ==> r[i] in s
    ensures IsSubseq(r, s)
    decreases |s|
  {
    if s == [] then []
    else if TagFirst(s) then
      var rest := RemoveTags(s[CloseAt(s, 1) + 1..]);
      SubseqOfSuffix(rest, s, CloseAt(s, 1) + 1);
      SubseqMembers(rest, s);
      rest
    else
      var rest := RemoveTags(s[1..]);
      var r := [s[0]] + rest;
      assert r[0] == s[0] && r[1..] == rest;
      SubseqMembers(r, s);
      r
  }

  /** Text without `<` holds no tag and comes back unchanged. */
  lemma {:induction false} RemoveTagsWithoutOpen(s: string)
    requires '<' !in s
    ensures RemoveTags(s) == s
    decreases |s|
  {
    if s != [] {
      assert s[0] != '<' && '<' !in s[1..];
      RemoveTagsWithoutOpen(s[1..]);
      assert s == [s[0]] + s[1..];
    }
  }

  /** No match of `<[^>]+>` is left: every `<` ... `>` pair with something between has a `>`
      in between. */
  predicate NoTag(s: string) {
    forall i, j :: 0 <= i && i + 1 < j < |s| && s[i] == '<' && s[j] == '>' ==> '>' in s[i + 1..j]
  }

  /** The shape the scan leaves: a `<` is followed at once by `>` or by no `>` at all. */
  predicate TagFree(s: string) {
    forall i :: 0 <= i < |s| && s[i] == '<' ==> (i + 1 < |s| && s[i + 1] == '>') || '>' !in s[i + 1..]
  }

  lemma TagFreeHasNoTag(s: string)
    requires TagFree(s)
    ensures NoTag(s)
  {
    forall i, j | 0 <= i && i + 1 < j < |s| && s[i] == '<' && s[j] == '>'
      ensures '>' in s[i + 1..j]
    {
      assert s[i + 1..][j - i - 1] == '>';
      assert s[i + 1..j][0] == '>';
    }
  }

  lemma {:induction false} RemoveTagsTagFree(s: string)
    ensures TagFree(RemoveTags(s))
    decreases |s|
  {
    if s == [] {
    } else if TagFirst(s) {
      RemoveTagsTagFree(s[CloseAt(s, 1) + 1..]);
    } else {
      var rest := RemoveTags(s[1..]);
      var r := RemoveTags(s);
      RemoveTagsTagFree(s[1..]);
      assert r == [s[0]] + rest;
      forall i | 0 <= i < |r| && r[i] == '<'
        ensures (i + 1 < |r| && r[i + 1] == '>') || '>' !in r[i + 1..]
      {
        if i == 0 {
          assert r[1..] == rest;
          if CloseAt(s, 1) == |s| {
            forall k | 0 <= k < |rest| ensures rest[k] != '>' {
              assert rest[k] in s[1..];
            }
          } else {
            assert CloseAt(s, 1) == 1 && s[1] == '>';
            assert s[1..][0] == '>' && !TagFirst(s[1..]);
            assert rest == ['>'] + RemoveTags(s[2..]) by {
              assert s[1..][1..] == s[2..];
            }
          }
        } else {
          assert rest[i - 1] == '<';
          assert r[i + 1..] == rest[i..];
        }
      }
    }
  }

  /** `clean_text(text)`: "" for empty text, else collapse whitespace runs, strip, delete
      control characters, delete tags. */
  function CleanText(text: string): (r: string)
    ensures text == "" ==> r == ""
    ensures |r| <= |text|
  {
    if text == "" then "" else RemoveTags(RemoveControls(Strip(CollapseSpaces(text))))
  }

  /** The cleaned text holds no control character and no tag; tag removal, the last step,
      only deletes characters, so none comes back. */
  lemma CleanTextProperties(text: string)
    ensures forall i :: 0 <= i < |CleanText(text)| ==> !IsControl(CleanText(text)[i])
    ensures NoTag(CleanText(text))
  {
    if text != "" {
      var s := RemoveControls(Strip(CollapseSpaces(text)));
      RemoveTagsTagFree(s);
      TagFreeHasNoTag(RemoveTags(s));
      forall i | 0 <= i < |RemoveTags(s)| ensures !IsControl(RemoveTags(s)[i]) {
        assert RemoveTags(s)[i] in s;
      }
    }
  }

  /** Cleaning only deletes from the collapsed and stripped text, and text whose only control
      characters are whitespace and which holds no `<` loses nothing more: it comes out
      exactly collapsed and stripped. */
  lemma CleanTextKeepsPlainText(text: string)
    ensures IsSubseq(CleanText(text), Strip(CollapseSpaces(text)))
    ensures (forall i :: 0 <= i < |text| && IsControl(text[i]) ==> IsSpace(text[i])) && '<' !in text
            ==> CleanText(text) == Strip(CollapseSpaces(text))
  {
    var t := Strip(CollapseSpaces(text));
    if text == "" {
      assert CollapseSpaces(text) == [];
    } else {
      SubseqTrans(CleanText(text), RemoveControls(t), t);
    }
    if (forall i :: 0 <= i < |text| && IsControl(text[i]) ==> IsSpace(text[i])) && '<' !in text {
      PlainTextCollapsed(text);
      RemoveControlsKeepsClean(t);
      RemoveTagsWithoutOpen(t);
    }
  }

  lemma PlainTextCollapsed(text: string)
    requires forall i :: 0 <= i < |text| && IsControl(text[i]) ==> IsSpace(text[i])
    requires '<' !in text
    ensures forall i :: 0 <= i < |Strip(CollapseSpaces(text))| ==> !IsControl(Strip(CollapseSpaces(text))[i])
    ensures '<' !in Strip(CollapseSpaces(text))
  {
    var x := CollapseSpaces(text);
    var t := Strip(x);
    CollapseSpacesChars(text);
    var a, b :| 0 <= a <= b <= |x| && t == x[a..b] && IsBlank(x[..a]) && IsBlank(x[b..]);
    forall i | 0 <= i < |t| ensures !IsControl(t[i]) && t[i] != '<' {
      assert t[i] == x[a + i];
      PlainChar(text, x[a + i]);
    }
  }

  lemma PlainChar(text: string, c: char)
    requires forall i :: 0 <= i < |text| && IsControl(text[i]) ==> IsSpace(text[i])
    requires '<' !in text
    requires c == ' ' || (c in text && !IsSpace(c))
    ensures !IsControl(c) && c != '<'
  {
  }

  /** Examples of the scan: a tag is deleted even around other text, `<>` is not a tag, and a
      `<` without a later `>` stays. */
  lemma RemoveTagsExamples()
    ensures RemoveTags("a<b>c") == "ac"
    ensures RemoveTags("<>") == "<>"
    ensures RemoveTags("x<y") == "x<y"
  {
    assert "a<b>c"[1..] == "<b>c";
    assert CloseAt("<b>c", 1) == 2;
    assert "<b>c"[3..] == "c";
    assert "c"[1..] == "";
    assert CloseAt("<>", 1) == 1;
    assert "<>"[1..] == ">";
    assert ">"[1..] == "";
    assert "x<y"[1..] == "<y";
    assert CloseAt("<y", 1) == 2;
    assert "<y"[1..] == "y";
    assert "y"[1..] == "";
  }

  // ---------------------------------------------------------------- calculate_quality_score

  /** `max(1, n)`. */
  function AtLeastOne(n: int): int {
    if n < 1 then 1 else n
  }

  /** The number of occurrences of `c` in `s` (`s.count(c)`). */
  function Count(s: string, c: char): nat {
    if s == [] then 0 else (if s[0] == c then 1 else 0) + Count(s[1..], c)
  }

  /** `len(set(s.split()))`. */
  function UniqueWords(s: string): nat {
    |set w | w in Split(s)|
  }

  /** `len(s) < 100 or len(t) < 100`. */
  predicate TooShort(s: string, t: string) {
    |s| < 100 || |t| < 100
  }

  /** `len(s) > 50000 or len(t) > 50000`. */
  predicate TooLong(s: string, t: string) {
    |s| > 50000 || |t| > 50000
  }

  /** `len(t) / max(1, len(s))` below 0.3 or above 3.0, cross-multiplied. */
  predicate BadLengthRatio(s: string, t: string) {
    10 * |t| < 3 * AtLeastOne(|s|) || |t| > 3 * AtLeastOne(|s|)
  }

  /** Unique words over words below 0.3, cross-multiplied. */
  predicate PoorVocabulary(s: string) {
    10 * UniqueWords(s) < 3 * AtLeastOne(|Split(s)|)
  }

  /** The average sentence length `len(s) / max(1, #'.' + #'!' + #'?')` below 5. */
  predicate ShortSentences(s: string) {
    |s| < 5 * AtLeastOne(Count(s, '.') + Count(s, '!') + Count(s, '?'))
  }

  /** The sum of the penalties whose conditions hold. */
  function Penalty(s: string, t: string): (p: nat)
    ensures p <= 65
  {
    (if TooShort(s, t) then 20 else 0) + (if TooLong(s, t) then 10 else 0)
    + (if BadLengthRatio(s, t) then 15 else 0) + (if PoorVocabulary(s) then 10 else 0)
    + (if ShortSentences(s) then 10 else 0)
  }

  /** The score of a record whose `transcript` and `translation` keys hold these values:
      30 when either text is missing or empty, else 70 less the penalties. */
  function QualityScore(transcript: Option<string>, translation: Option<string>): int {
    var s, t := transcript.GetOr(""), translation.GetOr("");
    if s == "" || t == "" then 30 else 70 - Penalty(s, t)
  }

  /** The score is 30, or between 5 and 70; so the final clamp to [0, 100] never binds. */
  lemma QualityScoreRange(transcript: Option<string>, translation: Option<string>)
    ensures var q := QualityScore(transcript, translation);
      q == 30 || 5 <= q <= 70
  {
  }

  /** With the default threshold 60 a complete record is kept exactly when its penalties add
      up to at most 10: one penalty of 10, or none. */
  lemma DefaultThresholdKeeps(s: string, t: string)
    requires s != "" && t != ""
    ensures QualityScore(Some(s), Some(t)) >= DefaultMinQuality <==> Penalty(s, t) <= 10
    ensures QualityScore(Some(s), Some(t)) >= DefaultMinQuality ==>
      !TooShort(s, t) && !BadLengthRatio(s, t)
  {
  }

  /** A record with a missing or empty text scores 30. */
  lemma MissingTextScores30(transcript: Option<string>, translation: Option<string>)
    requires transcript.GetOr("") == "" || translation.GetOr("") == ""
    ensures QualityScore(transcript, translation) == 30
  {
  }

  /** `calculate_quality_score(transcript)`: the score starts at 70 and each failed test
      takes its penalty off, then the score is clamped to [0, 100]. */
  method CalculateQualityScore(transcript: Option<string>, translation: Option<string>)
    returns (score: int)
    ensures score == QualityScore(transcript, translation)
    ensures score == 30 || 5 <= score <= 70
  {
    score := 70;
    var transcriptText := transcript.GetOr("");
    var translationText := translation.GetOr("");
    if transcriptText == "" || translationText == "" {
      return 30;
    }
    if |transcriptText| < 100 || |translationText| < 100 {
      score := score - 20;
    }
    if |transcriptText| > 50000 || |translationText| > 50000 {
      score := score - 10;
    }
    var denominator := AtLeastOne(|transcriptText|);
    if 10 * |translationText| < 3 * denominator || |translationText| > 3 * denominator {
      score := score - 15;
    }
    if 10 * UniqueWords(transcriptText) < 3 * AtLeastOne(|Split(transcriptText)|) {
      score := score - 10;
    }
    var sentences := Count(transcriptText, '.') + Count(transcriptText, '!') + Count(transcriptText, '?');
    if |transcriptText| < 5 * AtLeastOne(sentences) {
      score := score - 10;
    }
    score := if score > 100 then 100 else score;
    score := if score < 0 then 0 else score;
  }

  // ---------------------------------------------------------------- clean_dataset

  /** The keys of one record that `clean_dataset` reads and writes. */
  datatype Fields = Fields(transcript: Option<string>, translation: Option<string>, quality: Option<int>)

  /** One record of the dataset, a dict that `clean_dataset` updates in place: a key that is
      absent is `None`. */
  class Record {
    var transcript: Option<string>
    var translation: Option<string>
    var quality: Option<int>

    constructor (transcript: Option<string>, translation: Option<string>)
      ensures this.transcript == transcript && this.translation == translation && quality == None
    {
      this.transcript := transcript;
      this.translation := translation;
      quality := None;
    }

    function Value(): Fields
      reads this
    {
      Fields(transcript, translation, quality)
    }
  }

  /** The score `clean_dataset` gives a record. */
  function Score(f: Fields): int {
    QualityScore(f.transcript, f.translation)
  }

  predicate Passes(f: Fields, minQuality: int) {
    Score(f) >= minQuality
  }

  /** `clean_text` applied to a key that is present (`if key in transcript`). */
  function CleanField(v: Option<string>): Option<string> {
    match v
    case Some(s) => Some(CleanText(s))
    case None => None
  }

  /** A record as `clean_dataset` leaves it: scored, and cleaned if it passes. */
  function Processed(f: Fields, minQuality: int): (g: Fields)
    ensures g.quality == Some(Score(f))
  {
    if Passes(f, minQuality) then Fields(CleanField(f.transcript), CleanField(f.translation), Some(Score(f)))
    else f.(quality := Some(Score(f)))
  }

  /** `_get_content_hash`'s input for a passing record after cleaning: the transcript and the
      translation run together. The md5 digest is replaced by the string itself. */
  function Content(f: Fields, minQuality: int): string {
    var g := Processed(f, minQuality);
    g.transcript.GetOr("") + g.translation.GetOr("")
  }

  /** The records' values, in order. */
  function Values(records: seq<Record>): (fs: seq<Fields>)
    reads records
    ensures |fs| == |records|
  {
    seq(|records|, i requires 0 <= i < |records| reads records => records[i].Value())
  }

  /** Which records pass the quality filter. */
  function PassFlags(fs: seq<Fields>, minQuality: int): (ps: seq<bool>)
    ensures |ps| == |fs| && forall i :: 0 <= i < |fs| ==> ps[i] == Passes(fs[i], minQuality)
  {
    seq(|fs|, i requires 0 <= i < |fs| => Passes(fs[i], minQuality))
  }

  /** The content of each record after processing. */
  function Contents(fs: seq<Fields>, minQuality: int): (cs: seq<string>)
    ensures |cs| == |fs| && forall i :: 0 <= i < |fs| ==> cs[i] == Content(fs[i], minQuality)
  {
    seq(|fs|, i requires 0 <= i < |fs| => Content(fs[i], minQuality))
  }

  /** Record `i` passes and no earlier passing record has the same content. */
  predicate FirstOfContent(pass: seq<bool>, content: seq<string>, i: nat)
    requires i < |pass| == |content|
  {
    pass[i] && forall j :: 0 <= j < i && pass[j] ==> content[j] != content[i]
  }

  /** The indices, below `n`, of the records that survive the quality and exact-duplicate
      filters. */
  function KeptIndices(pass: seq<bool>, content: seq<string>, n: nat): (ks: seq<nat>)
    requires n <= |pass| == |content|
    ensures forall k :: 0 <= k < |ks| ==> ks[k] < n
  {
    if n == 0 then []
    else KeptIndices(pass, content, n - 1) + (if FirstOfContent(pass, content, n - 1) then [n - 1] else [])
  }

  /** The contents of the passing records below `n`: the set `seen_hashes`. */
  function SeenContents(pass: seq<bool>, content: seq<string>, n: nat): set<string>
    requires n <= |pass| == |content|
  {
    if n == 0 then {}
    else (SeenContents(pass, content, n - 1) + if pass[n - 1] then {content[n - 1]} else {})
  }

  /** Checking `seen_hashes` is the same as looking back at the earlier passing records. */
  lemma {:induction false} SeenContentsMeaning(pass: seq<bool>, content: seq<string>, n: nat, c: string)
    requires n <= |pass| == |content|
    ensures c in SeenContents(pass, content, n) <==>
      exists j :: 0 <= j < n && pass[j] && content[j] == c
  {
    if n > 0 {
      SeenContentsMeaning(pass, content, n - 1, c);
    }
  }

  /** The kept records are in input order, each passes the threshold, and no two have the
      same content. */
  lemma {:induction false} KeptIndicesProperties(pass: seq<bool>, content: seq<string>, n: nat)
    requires n <= |pass| == |content|
    ensures forall a, b :: 0 <= a < b < |KeptIndices(pass, content, n)| ==>
      KeptIndices(pass, content, n)[a] < KeptIndices(pass, content, n)[b]
    ensures forall k :: 0 <= k < |KeptIndices(pass, content, n)| ==> pass[KeptIndices(pass, content, n)[k]]
    ensures forall a, b :: 0 <= a < b < |KeptIndices(pass, content, n)| ==>
      content[KeptIndices(pass, content, n)[a]] != content[KeptIndices(pass, content, n)[b]]
  {
    if n > 0 {
      KeptIndicesProperties(pass, content, n - 1);
      var ks, ks' := KeptIndices(pass, content, n), KeptIndices(pass, content, n - 1);
      if FirstOfContent(pass, content, n - 1) {
        assert ks == ks' + [n - 1];
        forall a | 0 <= a < |ks'| ensures content[ks'[a]] != content[n - 1] {
          assert pass[ks'[a]] && ks'[a] < n - 1;
        }
      } else {
        assert ks == ks';
      }
    }
  }

  /** A shorter prefix of the records keeps a prefix of the indices. */
  lemma {:induction false} KeptIndicesPrefix(pass: seq<bool>, content: seq<string>, m: nat, n: nat)
    requires m <= n <= |pass| == |content|
    ensures |KeptIndices(pass, content, m)| <= |KeptIndices(pass, content, n)|
    ensures KeptIndices(pass, content, m) == KeptIndices(pass, content, n)[..|KeptIndices(pass, content, m)|]
    decreases n - m
  {
    if m < n {
      KeptIndicesPrefix(pass, content, m, n - 1);
      var short, mid := KeptIndices(pass, content, m), KeptIndices(pass, content, n - 1);
      var ext := if FirstOfContent(pass, content, n - 1) then [n - 1] else [];
      PrefixOfAppend(short, mid, ext);
    }
  }

  lemma PrefixOfAppend(short: seq<nat>, mid: seq<nat>, ext: seq<nat>)
    requires |short| <= |mid| && short == mid[..|short|]
    ensures short == (mid + ext)[..|short|]
  {
  }

  /** Every passing record's content survives, carried by the first passing record that has
      it, at or before it. */
  lemma {:induction false} FirstSurvives(pass: seq<bool>, content: seq<string>, n: nat, i: nat)
    requires i < n <= |pass| == |content| && pass[i]
    ensures exists k :: (0 <= k < |KeptIndices(pass, content, n)| &&
      KeptIndices(pass, content, n)[k] <= i && content[KeptIndices(pass, content, n)[k]] == content[i])
    decreases i
  {
    if FirstOfContent(pass, content, i) {
      var upTo := KeptIndices(pass, content, i + 1);
      assert upTo == KeptIndices(pass, content, i) + [i];
      KeptIndicesPrefix(pass, content, i + 1, n);
      var ks := KeptIndices(pass, content, n);
      assert ks[|upTo| - 1] == upTo[|upTo| - 1] == i;
    } else {
      var j :| 0 <= j < i && pass[j] && content[j] == content[i];
      FirstSurvives(pass, content, n, j);
    }
  }

  /** One step of the dedup loop: a failing record changes nothing; a passing record whose
      content was seen is dropped; any other passing record is kept and its content joins
      `seen_hashes`. */
  lemma DedupStep(pass: seq<bool>, content: seq<string>, n: nat)
    requires n < |pass| == |content|
    ensures !pass[n] || content[n] in SeenContents(pass, content, n) ==>
      SeenContents(pass, content, n + 1) == SeenContents(pass, content, n) &&
      KeptIndices(pass, content, n + 1) == KeptIndices(pass, content, n)
    ensures pass[n] && content[n] !in SeenContents(pass, content, n) ==>
      SeenContents(pass, content, n + 1) == SeenContents(pass, content, n) + {content[n]} &&
      KeptIndices(pass, content, n + 1) == KeptIndices(pass, content, n) + [n]
  {
    SeenContentsMeaning(pass, content, n, content[n]);
    if pass[n] && content[n] in SeenContents(pass, content, n) {
      assert !FirstOfContent(pass, content, n);
    }
  }

  /** `_deduplicate_similar_content(transcripts)`: lists of at most one record are returned
      as they are; longer lists go to the MinHash/LSH grouping `similar`. */
  function DeduplicateSimilar(records: seq<Record>, similar: seq<Record> -> seq<Record>): (r: seq<Record>)
    ensures |records| <= 1 ==> r == records
  {
    if |records| <= 1 then records else similar(records)
  }

  /** The first steps of `clean_dataset`'s loop body for one record: store its score, and
      when it passes, clean its texts and take its content hash. */
  method ScoreAndClean(transcript: Record, minQuality: int) returns (passed: bool, contentHash: string)
    modifies transcript
    ensures transcript.Value() == Processed(old(transcript.Value()), minQuality)
    ensures passed == Passes(old(transcript.Value()), minQuality)
    ensures passed ==> contentHash == Content(old(transcript.Value()), minQuality)
  {
    var qualityScore := CalculateQualityScore(transcript.transcript, transcript.translation);
    transcript.quality := Some(qualityScore);
    if qualityScore < minQuality {
      return false, "";
    }
    transcript.transcript := CleanField(transcript.transcript);
    transcript.translation := CleanField(transcript.translation);
    contentHash := transcript.transcript.GetOr("") + transcript.translation.GetOr("");
    return true, contentHash;
  }

  /** Records below `n` are processed, and the others still hold their values `fs`. */
  ghost predicate ProcessedUpTo(records: seq<Record>, fs: seq<Fields>, n: nat, minQuality: int)
    reads records
  {
    |fs| == |records| && n <= |records| &&
    (forall i :: 0 <= i < n ==> records[i].Value() == Processed(fs[i], minQuality)) &&
    (forall i :: n <= i < |records| ==> records[i].Value() == fs[i])
  }

  /** `ScoreAndClean` on record `n` of a list whose records before `n` are processed and whose
      others still hold their values `fs`: afterwards record `n` is processed too. */
  method ProcessRecord(minQuality: int, records: seq<Record>, n: nat, ghost fs: seq<Fields>,
                       ghost pass: seq<bool>, ghost content: seq<string>)
    returns (passed: bool, contentHash: string)
    requires forall i, j :: 0 <= i < j < |records| ==> records[i] != records[j]
    requires n < |records| && ProcessedUpTo(records, fs, n, minQuality)
    requires pass == PassFlags(fs, minQuality) && content == Contents(fs, minQuality)
    modifies records[n]
    ensures ProcessedUpTo(records, fs, n + 1, minQuality)
    ensures passed == pass[n]
    ensures passed ==> contentHash == content[n]
  {
    label Before:
    passed, contentHash := ScoreAndClean(records[n], minQuality);
    forall i | 0 <= i < |records| && i != n
      ensures records[i].Value() == old@Before(records[i].Value())
    {
      assert records[i] != records[n];
    }
  }

  /** The loop of `clean_dataset` over records whose values before the loop are `fs`, with
      `pass` and `content` the verdict and the content of each: every record is scored and,
      if it passes, cleaned; a passing record is kept unless an earlier one had its content. */
  method FilterRecords(minQuality: int, records: seq<Record>, ghost fs: seq<Fields>,
                       ghost pass: seq<bool>, ghost content: seq<string>)
    returns (cleaned: seq<Record>, ghost ks: seq<nat>)
    requires forall i, j :: 0 <= i < j < |records| ==> records[i] != records[j]
    requires ProcessedUpTo(records, fs, 0, minQuality)
    requires pass == PassFlags(fs, minQuality) && content == Contents(fs, minQuality)
    modifies records
    ensures ProcessedUpTo(records, fs, |records|, minQuality)
    ensures ks == KeptIndices(pass, content, |records|)
    ensures |cleaned| == |ks| && forall k :: 0 <= k < |ks| ==> cleaned[k] == records[ks[k]]
  {
    cleaned := [];
    var seenHashes: set<string> := {};
    ks := [];
    for n := 0 to |records|
      invariant ProcessedUpTo(records, fs, n, minQuality)
      invariant seenHashes == SeenContents(pass, content, n)
      invariant ks == KeptIndices(pass, content, n)
      invariant |cleaned| == |ks| && forall k :: 0 <= k < |ks| ==> cleaned[k] == records[ks[k]]
    {
      var transcript := records[n];
      var passed, contentHash := ProcessRecord(minQuality, records, n, fs, pass, content);
      DedupStep(pass, content, n);
      if !passed {
        continue;
      }
      if contentHash in seenHashes {
        continue;
      }
      seenHashes := seenHashes + {contentHash};
      cleaned := cleaned + [transcript];
      ks := ks + [n];
    }
  }

  /** `clean_dataset(transcripts)` with `min_quality_score` = `minQuality`: every record gets
      its score, the passing ones are cleaned, the first of each content is kept, and the
      kept list goes through the similarity step. */
  method CleanDataset(minQuality: int, records: seq<Record>, similar: seq<Record> -> seq<Record>)
    returns (result: seq<Record>, ghost cleaned: seq<Record>)
    requires forall i, j :: 0 <= i < j < |records| ==> records[i] != records[j]
    modifies records
    ensures forall i :: 0 <= i < |records| ==>
      records[i].Value() == Processed(old(Values(records))[i], minQuality)
    ensures var fs := old(Values(records));
      var ks := KeptIndices(PassFlags(fs, minQuality), Contents(fs, minQuality), |records|);
      |cleaned| == |ks| && forall k :: 0 <= k < |ks| ==> cleaned[k] == records[ks[k]]
    ensures result == DeduplicateSimilar(cleaned, similar)
  {
    ghost var fs := Values(records);
    ghost var ks;
    var cleanedTranscripts;
    cleanedTranscripts, ks := FilterRecords(minQuality, records, fs, PassFlags(fs, minQuality), Contents(fs, minQuality));
    cleaned := cleanedTranscripts;
    result := DeduplicateSimilar(cleanedTranscripts, similar);
  }

  // ---------------------------------------------------------------- _get_shingles

  /** `{" ".join(words[i:i+k]) for i in range(n)}`. */
  function ShingleSet(words: seq<string>, k: nat, n: nat): (r: set<string>)
    requires n + k <= |words| + 1
    ensures |r| <= n
  {
    if n == 0 then {} else ShingleSet(words, k, n - 1) + {Join(words[n - 1..n - 1 + k], " ")}
  }

  /** `_get_shingles(text, k)`: with fewer than `k` words the single joined string, else the
      set of `k`-word windows. */
  function Shingles(text: string, k: nat): (r: set<string>)
    ensures |Split(text)| < k ==> r == {Join(Split(text), " ")}
    ensures |Split(text)| >= k ==> |r| <= |Split(text)| - k + 1
  {
    var words := Split(text);
    if |words| < k then {Join(words, " ")} else ShingleSet(words, k, |words| - k + 1)
  }

  /** `words[i:i+k]`. */
  function Window(words: seq<string>, i: nat, k: nat): seq<string>
    requires i + k <= |words|
  {
    words[i..i + k]
  }

  lemma {:induction false} ShingleSetWords(words: seq<string>, k: nat, n: nat, sh: string)
    requires n + k <= |words| + 1
    requires forall i :: 0 <= i < |words| ==> words[i] != [] && NoSpace(words[i])
    requires sh in ShingleSet(words, k, n)
    ensures exists i :: 0 <= i < n && Split(sh) == Window(words, i, k)
  {
    if sh in ShingleSet(words, k, n - 1) {
      ShingleSetWords(words, k, n - 1, sh);
    } else {
      var w := Window(words, n - 1, k);
      assert sh == Join(w, " ");
      SplitJoin(w);
    }
  }

  /** Each shingle of a text with at least `k` words has exactly `k` words, consecutive in
      the text. */
  lemma ShingleHasKWords(text: string, k: nat, sh: string)
    requires |Split(text)| >= k && sh in Shingles(text, k)
    ensures |Split(sh)| == k
    ensures exists i :: 0 <= i <= |Split(text)| - k && Split(sh) == Window(Split(text), i, k)
  {
    SplitWords(text);
    ShingleSetWords(Split(text), k, |Split(text)| - k + 1, sh);
  }

  /** With fewer than `k` words, a blank text has the one shingle "". */
  lemma BlankTextShingle(text: string, k: nat)
    requires k > 0 && Split(text) == []
    ensures Shingles(text, k) == {""}
  {
  }
}
