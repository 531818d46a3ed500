/** `_split_text`, the sentence chunker that both translators carry as identical copies:
    split at whitespace runs that follow `.`, `!` or `?`, pack sentences greedily into chunks
    shorter than `max_length`, and slice a sentence that is too long into fixed-size parts. */
module Chunker {
  import opened Text

  predicate IsTerminator(c: char) {
    c == '.' || c == '!' || c == '?'
  }

  /** Position `p` starts a match of `(?<=[.!?])\s+`. */
  predicate BreakAt(s: string, p: nat) {
    1 <= p < |s| && IsTerminator(s[p - 1]) && IsSpace(s[p])
  }

  /** The leftmost break at or after `from`, or `|s|` when there is none. */
  function FirstBreak(s: string, from: nat): (p: nat)
    requires from <= |s|
    ensures from <= p <= |s|
    ensures p < |s| ==> BreakAt(s, p)
    ensures forall q :: from <= q < p ==> !BreakAt(s, q)
    decreases |s| - from
  {
    if from == |s| then |s| else if BreakAt(s, from) then from else FirstBreak(s, from + 1)
  }

  /** `re.split(r'(?<=[.!?])\s+', s)`. After a split the next piece starts at a non-space
      character preceded by whitespace, so its own position 0 can never be a break. */
  function SplitSentences(s: string): (pieces: seq<string>)
    ensures |pieces| >= 1
    decreases |s|
  {
    var p := FirstBreak(s, if s == [] then 0 else 1);
    if p == |s| then [s]
    else [s[..p]] + SplitSentences(s[RunEnd(s, p)..])
  }

  /** Dropping a blank middle part leaves the non-whitespace characters as they were. */
  lemma DropBlank(a: string, g: string, b: string)
    requires NonSpace(g) == []
    ensures NonSpace(a + g + b) == NonSpace(a) + NonSpace(b)
  {
    NonSpaceAppend(g, b);
    assert a + g + b == a + (g + b);
    NonSpaceAppend(a, g + b);
  }

  /** A whitespace run holds no non-whitespace character. */
  lemma RunHasNoContent(s: string, p: nat)
    requires p <= |s|
    ensures NonSpace(s[p..RunEnd(s, p)]) == []
  {
    var g := s[p..RunEnd(s, p)];
    assert IsBlank(g) by {
      forall i | 0 <= i < |g| ensures IsSpace(g[i]) {
        assert g[i] == s[p + i];
      }
    }
    NonSpaceOfBlank(g);
  }

  lemma DropBlankRun(s: string, p: nat, e: nat)
    requires p <= e <= |s|
    requires NonSpace(s[p..e]) == []
    ensures NonSpace(s) == NonSpace(s[..p]) + NonSpace(s[e..])
  {
    ThreeSlices(s, p, e);
    DropBlank(s[..p], s[p..e], s[e..]);
  }

  /** The split drops whitespace runs only. */
  lemma {:induction false} SplitSentencesContent(s: string)
    ensures NonSpace(Flatten(SplitSentences(s))) == NonSpace(s)
    decreases |s|
  {
    if s == [] {
      assert Flatten([s]) == s + Flatten([]) == s;
    } else {
      var p := FirstBreak(s, 1);
      if p == |s| {
        assert Flatten([s]) == s + Flatten([]) == s;
      } else {
        var e := RunEnd(s, p);
        var a, g, b := s[..p], s[p..e], s[e..];
        var rest := SplitSentences(b);
        assert SplitSentences(s) == [a] + rest;
        SplitSentencesContent(b);
        assert Flatten([a] + rest) == a + Flatten(rest);
        NonSpaceAppend(a, Flatten(rest));
        RunHasNoContent(s, p);
        DropBlankRun(s, p, e);
      }
    }
  }

  // ---------------------------------------------------------------- packing

  /** The loop state of `_split_text`: the list `result` and the string `current_chunk`. */
  datatype Packing = Packing(done: seq<string>, current: string)

  /** One iteration of the loop over sentences. */
  function Step(st: Packing, sentence: string, maxLength: nat): Packing
    requires maxLength > 0
  {
    if |st.current| + |sentence| < maxLength then
      Packing(st.done, if st.current != "" then st.current + " " + sentence else sentence)
    else
      var flushed := if st.current != "" then st.done + [st.current] else st.done;
      if |sentence| > maxLength then Packing(flushed + FixedSlices(sentence, maxLength), "")
      else Packing(flushed, sentence)
  }

  /** The loop state after the given sentences. */
  function Pack(sentences: seq<string>, maxLength: nat): Packing
    requires maxLength > 0
  {
    if sentences == [] then Packing([], "")
    else Step(Pack(sentences[..|sentences| - 1], maxLength), sentences[|sentences| - 1], maxLength)
  }

  /** The list `_split_text` returns: the packed chunks and a non-empty final `current_chunk`. */
  function Chunks(text: string, maxLength: nat): seq<string>
    requires maxLength > 0
  {
    var st := Pack(SplitSentences(text), maxLength);
    if st.current != "" then st.done + [st.current] else st.done
  }

  /** What the loop keeps: finished chunks are non-empty and within the limit, and so is the
      pending chunk's length. */
  predicate Bounded(st: Packing, maxLength: nat) {
    && (forall i :: 0 <= i < |st.done| ==> 0 < |st.done[i]| <= maxLength)
    && |st.current| <= maxLength
  }

  /** All the text the loop state holds, in order. */
  function Held(st: Packing): string {
    Flatten(st.done) + st.current
  }

  lemma StepBounded(st: Packing, sentence: string, maxLength: nat)
    requires maxLength > 0 && Bounded(st, maxLength)
    ensures Bounded(Step(st, sentence, maxLength), maxLength)
  {
    FixedSlicesProperties(sentence, maxLength);
  }

  /** A step adds exactly the sentence's non-whitespace characters after those already held. */
  lemma StepContent(st: Packing, sentence: string, maxLength: nat)
    requires maxLength > 0
    ensures NonSpace(Held(Step(st, sentence, maxLength))) == NonSpace(Held(st)) + NonSpace(sentence)
  {
    var d, c := st.done, st.current;
    if |c| + |sentence| < maxLength {
      MergeContent(Flatten(d), c, sentence);
    } else {
      FlushContent(d, c, sentence, maxLength);
    }
  }

  /** Merging a sentence into the pending chunk adds its non-whitespace characters. */
  lemma MergeContent(f: string, c: string, sentence: string)
    ensures NonSpace(f + (if c != "" then c + " " + sentence else sentence)) == NonSpace(f + c) + NonSpace(sentence)
  {
    NonSpaceAppend(f, c);
    if c != "" {
      NonSpaceAppend(f, c + " " + sentence);
      NonSpaceJoinSpace(c, sentence);
    } else {
      AppendEmpty(f);
      NonSpaceAppend(f, sentence);
    }
  }

  /** Flushing and then keeping or slicing the sentence adds its non-whitespace characters. */
  lemma FlushContent(d: seq<string>, c: string, sentence: string, maxLength: nat)
    requires maxLength > 0
    ensures var flushed := if c != "" then d + [c] else d;
      var next := if |sentence| > maxLength then Packing(flushed + FixedSlices(sentence, maxLength), "")
                  else Packing(flushed, sentence);
      NonSpace(Held(next)) == NonSpace(Flatten(d) + c) + NonSpace(sentence)
  {
    var flushed := if c != "" then d + [c] else d;
    FlushedHoldsAll(d, c);
    if |sentence| > maxLength {
      FixedSlicesProperties(sentence, maxLength);
      FlattenAppend(flushed, FixedSlices(sentence, maxLength));
      AppendEmpty(Flatten(flushed) + sentence);
    }
    NonSpaceAppend(Flatten(flushed), sentence);
  }

  /** Flushing the pending chunk keeps the text held. */
  lemma FlushedHoldsAll(d: seq<string>, c: string)
    ensures Flatten(if c != "" then d + [c] else d) == Flatten(d) + c
  {
    if c != "" {
      FlattenAppend(d, [c]);
      FlattenSingle(c);
    } else {
      AppendEmpty(Flatten(d));
    }
  }

  lemma {:induction false} PackInvariant(sentences: seq<string>, maxLength: nat)
    requires maxLength > 0
    ensures Bounded(Pack(sentences, maxLength), maxLength)
    ensures NonSpace(Held(Pack(sentences, maxLength))) == NonSpace(Flatten(sentences))
  {
    if sentences != [] {
      var n := |sentences|;
      var init, last := sentences[..n - 1], sentences[n - 1];
      PackInvariant(init, maxLength);
      StepBounded(Pack(init, maxLength), last, maxLength);
      StepContent(Pack(init, maxLength), last, maxLength);
      FlattenSnoc(sentences);
      NonSpaceAppend(Flatten(init), last);
    }
  }

  /** Every chunk is at most `max_length` characters long: a merge happens only while
      `len(current) + len(sentence) < max_length`, a kept sentence is at most `max_length`
      long, and slices are cut at `max_length`. */
  lemma ChunksWithinLimit(text: string, maxLength: nat)
    requires maxLength > 0
    ensures forall i :: 0 <= i < |Chunks(text, maxLength)| ==> |Chunks(text, maxLength)[i]| <= maxLength
  {
    PackInvariant(SplitSentences(text), maxLength);
  }

  /** No chunk is empty: `current_chunk` is appended only when non-empty, and slices come
      from a non-empty sentence. */
  lemma ChunksNonEmpty(text: string, maxLength: nat)
    requires maxLength > 0
    ensures forall i :: 0 <= i < |Chunks(text, maxLength)| ==> Chunks(text, maxLength)[i] != ""
  {
    PackInvariant(SplitSentences(text), maxLength);
  }

  /** The chunks hold the non-whitespace characters of the text, all of them and in order. */
  lemma ChunksPreserveContent(text: string, maxLength: nat)
    requires maxLength > 0
    ensures NonSpace(Flatten(Chunks(text, maxLength))) == NonSpace(text)
  {
    var sentences := SplitSentences(text);
    var st := Pack(sentences, maxLength);
    PackInvariant(sentences, maxLength);
    SplitSentencesContent(text);
    if st.current != "" {
      FlattenAppend(st.done, [st.current]);
      assert Flatten([st.current]) == st.current + Flatten([]) == st.current + "" == st.current;
      assert Flatten(Chunks(text, maxLength)) == Held(st);
    } else {
      assert Held(st) == Flatten(st.done) + "" == Flatten(st.done);
      assert Flatten(Chunks(text, maxLength)) == Held(st);
    }
  }

  /** A sentence longer than `max_length` first flushes the pending chunk as a chunk of its
      own, then follows as consecutive slices that make up the sentence, all `max_length`
      long but the last; nothing is left pending. */
  lemma LongSentenceFlushes(st: Packing, sentence: string, maxLength: nat)
    requires maxLength > 0 && |sentence| > maxLength
    ensures var next := Step(st, sentence, maxLength);
      var k := if st.current != "" then |st.done| + 1 else |st.done|;
      && next.current == ""
      && |next.done| > k
      && next.done[..|st.done|] == st.done
      && (st.current != "" ==> next.done[|st.done|] == st.current)
      && Flatten(next.done[k..]) == sentence
      && (forall i :: k <= i < |next.done| - 1 ==> |next.done[i]| == maxLength)
      && 0 < |next.done[|next.done| - 1]| <= maxLength
  {
    var next := Step(st, sentence, maxLength);
    var flushed := if st.current != "" then st.done + [st.current] else st.done;
    var slices := FixedSlices(sentence, maxLength);
    FixedSlicesProperties(sentence, maxLength);
    assert next.done == flushed + slices;
    assert next.done[|flushed|..] == slices;
    assert |slices| > 0;
    assert next.done[..|st.done|] == st.done;
  }

  /** `_split_text(text, max_length)`: the imperative loop of the source, proved to return
      `Chunks` and with it the bound, non-emptiness and content of the chunks. */
  method SplitText(text: string, maxLength: nat) returns (result: seq<string>)
    requires maxLength > 0
    ensures result == Chunks(text, maxLength)
    ensures forall i :: 0 <= i < |result| ==> 0 < |result[i]| <= maxLength
    ensures NonSpace(Flatten(result)) == NonSpace(text)
  {
    var sentences := SplitSentences(text);
    result := [];
    var current := "";
    for i := 0 to |sentences|
      invariant Packing(result, current) == Pack(sentences[..i], maxLength)
    {
      var sentence := sentences[i];
      assert sentences[..i + 1][..i] == sentences[..i];
      if |current| + |sentence| < maxLength {
        current := if current != "" then current + " " + sentence else sentence;
      } else {
        if current != "" {
          result := result + [current];
        }
        if |sentence| > maxLength {
          result := result + FixedSlices(sentence, maxLength);
          current := "";
        } else {
          current := sentence;
        }
      }
    }
    assert sentences[..|sentences|] == sentences;
    if current != "" {
      result := result + [current];
    }
    ChunksWithinLimit(text, maxLength);
    ChunksNonEmpty(text, maxLength);
    ChunksPreserveContent(text, maxLength);
  }
}
